/**
  The tree-walking evaluator of interpreter.c.

  `interp` is a second copy of the runtime value, with its own tag
  `interp_t` (IT_STRING 0, IT_NUMBER 1, IT_NIL 2, IT_BOOL 3). Several tests
  in the source compare that tag with the token kinds `NIL` and `STRING`
  (29 and 20) rather than with IT_NIL and IT_STRING; they are kept as
  written, so those tests never hold. `GREATER` and `GREATER_EQUAL` call
  `less`, and `LESS_EQUAL` negates it, also as written.

  `Eval` is what `interpret` computes; the class `Interp` is the `interp*`
  the C functions write through, and its methods are proved to compute
  `Eval`. A payload `None` is one the source leaves unspecified: the
  comparison of a Number with a Nil or String reads a union member no cast
  has set. `Abort` is the end of the program in `unreachable()`.
*/
module Interpreter {
  import opened Wrappers
  import opened Tokens
  import opened Ast
  import Values

  /** `interp` with its `interp_t` tag; a `None` payload is unspecified. */
  datatype IVal = IString(s: string) | INumber(n: Option<real>) | INil | IBool(b: Option<bool>)

  /** What evaluating a node ends in: a value, a runtime error (-1), or the end of the program. */
  datatype Outcome = Ok(v: IVal) | Fail | Abort

  /** The return of `interpret`: 0, -1, or no return at all. */
  datatype Status = Done | Failed | Aborted

  function StatusOf(o: Outcome): Status
  {
    match o
    case Ok(_) => Done
    case Fail => Failed
    case Abort => Aborted
  }

  /** The integer value of the `interp_t` tag. */
  function TagCode(v: IVal): (c: nat)
    ensures c < 4
  {
    match v
    case IString(_) => 0
    case INumber(_) => 1
    case INil => 2
    case IBool(_) => 3
  }

  const IT_NIL: nat := 2

  /** The `sval` member of the union, read whatever the tag. */
  function StrField(v: IVal): string
  {
    if v.IString? then v.s else ""
  }

  /** No tag equals the token kinds the source compares it with, so those tests never hold. */
  lemma TagsAreNotTokenKinds(v: IVal)
    ensures TagCode(v) != Ordinal(NIL) && TagCode(v) != Ordinal(STRING)
  {
  }

  // ---------------------------------------------------------------------
  // The operations on one value

  /** `interpret_literal`. */
  function LiteralValue(l: Literal): IVal
  {
    match l
    case LNil => INil
    case LTrue => IBool(Some(true))
    case LFalse => IBool(Some(false))
    case LNumber(n) => INumber(Some(n))
    case LString(s) => IString(s)
  }

  /** `number_cast`: a Number, or `None` for Nil and String. */
  function ToNumber(v: IVal): Option<IVal>
  {
    match v
    case INumber(_) => Some(v)
    case IBool(b) => Some(INumber(if b.Some? then Some(if b.value then 1.0 else 0.0) else None))
    case INil => None
    case IString(_) => None
  }

  /** `bool_cast`: always a Bool. */
  function ToBool(v: IVal): IVal
  {
    match v
    case INumber(n) => IBool(if n.Some? then Some(n.value != 0.0) else None)
    case IBool(_) => v
    case INil => IBool(Some(false))
    case IString(s) => IBool(Some(|s| > 0))
  }

  function NotOpt(b: Option<bool>): Option<bool>
  {
    if b.Some? then Some(!b.value) else None
  }

  function NegOpt(n: Option<real>): Option<real>
  {
    if n.Some? then Some(-n.value) else None
  }

  /** Both payloads known: their comparison; otherwise unspecified. */
  function SameOpt<T(==)>(a: Option<T>, b: Option<T>): Option<bool>
  {
    if a.Some? && b.Some? then Some(a.value == b.value) else None
  }

  /** The answer of `equal_equal` and what `right` has become, or the end of the program. */
  datatype EqResult = EqAbort | Eq(answer: Option<bool>, right: IVal)

  /** `equal_equal`, with its tag tests as written. */
  function EqualSpec(l: IVal, r: IVal): EqResult
  {
    if TagCode(l) == Ordinal(NIL) && TagCode(r) == Ordinal(NIL) then Eq(Some(true), r)
    else if TagCode(l) == Ordinal(NIL) then Eq(Some(false), r)
    else if TagCode(l) == Ordinal(STRING) && TagCode(r) == Ordinal(STRING) then Eq(Some(StrField(l) == StrField(r)), r)
    else if TagCode(l) == Ordinal(STRING) then Eq(Some(false), r)
    else
      match l
      case IBool(b) => var r' := ToBool(r); Eq(SameOpt(b, r'.b), r')
      case INumber(n) =>
        (match ToNumber(r)
         case None => Eq(None, r)
         case Some(r') => Eq(SameOpt(n, r'.n), r'))
      case _ => EqAbort
  }

  /** `check_binary_types`: Nil on either side is an error; the String test, as written, never fires. */
  function TypesAllowed(l: IVal, r: IVal): bool
  {
    if TagCode(l) == IT_NIL || TagCode(r) == IT_NIL then false
    else if (TagCode(l) == Ordinal(STRING) && TagCode(r) != Ordinal(STRING))
         || (TagCode(l) != Ordinal(STRING) && TagCode(r) == Ordinal(STRING)) then false
    else true
  }

  /** The answer of `less`, or `None` for -1. */
  function LessSpec(l: IVal, r: IVal): Option<Option<bool>>
  {
    if !TypesAllowed(l, r) then None
    else if TagCode(l) == Ordinal(STRING) && TagCode(r) == Ordinal(STRING) then
      Some(Some(Values.LexLess(Values.Codes(StrField(l)), Values.Codes(StrField(r)))))
    else
      match ToNumber(l)
      case None => None
      case Some(x) =>
        match ToNumber(r)
        case None => None
        case Some(y) => Some(if x.n.Some? && y.n.Some? then Some(x.n.value < y.n.value) else None)
  }

  /** `interpret_unary` once the operand is known. */
  function UnarySpec(op: UnaryOp, v: IVal): Outcome
  {
    if op == MINUS then
      match ToNumber(v)
      case None => Fail
      case Some(x) => Ok(INumber(NegOpt(x.n)))
    else Ok(IBool(NotOpt(ToBool(v).b)))
  }

  /** `interpret_binary` once both operands are known. */
  function BinarySpec(op: BinaryOp, l: IVal, r: IVal): Outcome
  {
    match op
    case EQUAL_EQUAL =>
      (match EqualSpec(l, r)
       case EqAbort => Abort
       case Eq(a, _) => Ok(IBool(a)))
    case BANG_EQUAL =>
      (match EqualSpec(l, r)
       case EqAbort => Abort
       case Eq(a, _) => Ok(IBool(NotOpt(a))))
    case LESS => if LessSpec(l, r).None? then Fail else Ok(IBool(LessSpec(l, r).value))
    case LESS_EQUAL => if LessSpec(l, r).None? then Fail else Ok(IBool(NotOpt(LessSpec(l, r).value)))
    case GREATER => if LessSpec(l, r).None? then Fail else Ok(IBool(LessSpec(l, r).value))
    case GREATER_EQUAL => if LessSpec(l, r).None? then Fail else Ok(IBool(LessSpec(l, r).value))
    case _ => Abort
  }

  /** `interpret`: what evaluating `e` ends in. */
  function Eval(e: Expr): Outcome
  {
    match e
    case Lit(l) => Ok(LiteralValue(l))
    case Unary(op, x) =>
      (match Eval(x)
       case Ok(v) => UnarySpec(op, v)
       case other => other)
    case Binary(l, op, r) =>
      (match Eval(l)
       case Ok(lv) =>
         (match Eval(r)
          case Ok(rv) => BinarySpec(op, lv, rv)
          case other => other)
       case other => other)
    case Grouping(x) => Eval(x)
    case Variable(_) => Abort
  }

  // ---------------------------------------------------------------------
  // Properties of the evaluator

  /** `!` never fails: whenever its operand has a value, it is a Bool, the operand's truth negated. */
  lemma BangNeverFails(x: Expr)
    requires Eval(x).Ok?
    ensures Eval(Unary(BANG, x)) == Ok(IBool(NotOpt(ToBool(Eval(x).v).b)))
  {
  }

  /** `-` fails exactly on a Nil or String operand, and applied twice gives a number back. */
  lemma MinusFailsIff(x: Expr)
    requires Eval(x).Ok?
    ensures Eval(Unary(MINUS, x)) == Fail <==> Eval(x).v.INil? || Eval(x).v.IString?
    ensures Eval(x).v.INumber? ==> Eval(Unary(MINUS, Unary(MINUS, x))) == Eval(x)
  {
  }

  /** `!=` is the negation of `==`, and both give a Bool or abort together. */
  lemma NotEqualNegatesEqual(l: Expr, r: Expr)
    ensures Eval(Binary(l, EQUAL_EQUAL, r)).Ok? <==> Eval(Binary(l, BANG_EQUAL, r)).Ok?
    ensures StatusOf(Eval(Binary(l, EQUAL_EQUAL, r))) == StatusOf(Eval(Binary(l, BANG_EQUAL, r)))
    ensures Eval(Binary(l, EQUAL_EQUAL, r)).Ok? ==>
      Eval(Binary(l, EQUAL_EQUAL, r)).v.IBool? &&
      Eval(Binary(l, BANG_EQUAL, r)) == Ok(IBool(NotOpt(Eval(Binary(l, EQUAL_EQUAL, r)).v.b)))
  {
  }

  /** A grouping evaluates to its inner expression. */
  lemma GroupingTransparent(x: Expr)
    ensures Eval(Grouping(x)) == Eval(x)
  {
  }

  /** A failure or an abort in an operand is the outcome of the whole node; the right operand is not looked at after the left fails. */
  lemma FailurePropagates(x: Expr, y: Expr, u: UnaryOp, b: BinaryOp)
    ensures !Eval(x).Ok? ==> Eval(Unary(u, x)) == Eval(x) && Eval(Binary(x, b, y)) == Eval(x)
    ensures Eval(x).Ok? && !Eval(y).Ok? ==> Eval(Binary(x, b, y)) == Eval(y)
  {
  }

  /** A Bool on the left of `==` turns the right operand into a Bool and compares the truths. */
  lemma BoolLeftCoercesRight(l: Expr, r: Expr, b: bool)
    requires Eval(l) == Ok(IBool(Some(b))) && Eval(r).Ok?
    requires !(Eval(r).v.INumber? && Eval(r).v.n.None?) && !(Eval(r).v.IBool? && Eval(r).v.b.None?)
    ensures Eval(Binary(l, EQUAL_EQUAL, r)) == Ok(IBool(Some(b == ToBool(Eval(r).v).b.value)))
  {
  }

  /** Once both operands have values, a binary node combines them. */
  lemma EvalBinaryOk(l: Expr, op: BinaryOp, r: Expr)
    requires Eval(l).Ok? && Eval(r).Ok?
    ensures Eval(Binary(l, op, r)) == BinarySpec(op, Eval(l).v, Eval(r).v)
  {
  }

  /** As written, `nil == x` ends the program: the test meant to catch it compares the tag with the token kind NIL. */
  lemma NilEqualAborts(r: Expr)
    requires Eval(r).Ok?
    ensures Eval(Binary(Lit(LNil), EQUAL_EQUAL, r)) == Abort
  {
    EvalBinaryOk(Lit(LNil), EQUAL_EQUAL, r);
    TagsAreNotTokenKinds(INil);
    assert EqualSpec(INil, Eval(r).v) == EqAbort;
  }

  /** As written, a String on the left of `==` ends the program for the same reason. */
  lemma StringEqualAborts(a: string, r: Expr)
    requires Eval(r).Ok?
    ensures Eval(Binary(Lit(LString(a)), EQUAL_EQUAL, r)) == Abort
  {
    EvalBinaryOk(Lit(LString(a)), EQUAL_EQUAL, r);
    TagsAreNotTokenKinds(IString(a));
    assert EqualSpec(IString(a), Eval(r).v) == EqAbort;
  }

  /** As written, `<` on two Strings fails: the string branch is skipped and the number cast refuses them. */
  lemma StringLessFails(a: string, b: string)
    ensures Eval(Binary(Lit(LString(a)), LESS, Lit(LString(b)))) == Fail
  {
    EvalBinaryOk(Lit(LString(a)), LESS, Lit(LString(b)));
    TagsAreNotTokenKinds(IString(a));
    assert LessSpec(IString(a), IString(b)).None?;
  }

  /** As written, `>` and `>=` are `<`, and `<=` is its negation. */
  lemma GreaterIsLess(l: Expr, r: Expr)
    ensures Eval(Binary(l, GREATER, r)) == Eval(Binary(l, LESS, r))
    ensures Eval(Binary(l, GREATER_EQUAL, r)) == Eval(Binary(l, LESS, r))
    ensures Eval(Binary(l, LESS, r)).Ok? ==>
      Eval(Binary(l, LESS_EQUAL, r)) == Ok(IBool(NotOpt(Eval(Binary(l, LESS, r)).v.b)))
  {
  }

  /** Arithmetic nodes and variables end the program once their operands have values. */
  lemma ArithmeticAborts(l: Expr, r: Expr, op: BinaryOp, name: string)
    requires op == PLUS || op == MINUS || op == STAR || op == SLASH
    requires Eval(l).Ok? && Eval(r).Ok?
    ensures Eval(Binary(l, op, r)) == Abort
    ensures Eval(Variable(name)) == Abort
  {
  }

  /** An expression built from literals, groupings, `!` and `-` never has an unspecified payload. */
  predicate Simple(e: Expr)
  {
    match e
    case Lit(_) => true
    case Unary(_, x) => Simple(x)
    case Grouping(x) => Simple(x)
    case _ => false
  }

  predicate Specified(v: IVal)
  {
    (v.INumber? ==> v.n.Some?) && (v.IBool? ==> v.b.Some?)
  }

  lemma {:induction false} SimpleIsSpecified(e: Expr)
    requires Simple(e)
    ensures Eval(e).Ok? ==> Specified(Eval(e).v)
    ensures Eval(e).Abort? ==> false
  {
    match e
    case Lit(_) =>
    case Unary(_, x) => SimpleIsSpecified(x);
    case Grouping(x) => SimpleIsSpecified(x);
  }

  // ---------------------------------------------------------------------
  // The `interp*` the C functions write through

  class Interp {
    var v: IVal

    constructor (init: IVal)
      ensures v == init
    {
      v := init;
    }

    /** `interpret_literal`. */
    method Literal(l: Literal)
      modifies this
      ensures v == LiteralValue(l)
    {
      match l
      case LNil => v := INil;
      case LTrue => v := IBool(Some(true));
      case LFalse => v := IBool(Some(false));
      case LNumber(n) => v := INumber(Some(n));
      case LString(s) => v := IString(s);
    }

    /** `number_cast`: 0 and a Number, or -1 with the value left alone. */
    method NumberCast() returns (rc: int)
      modifies this
      ensures rc == 0 || rc == -1
      ensures rc == -1 <==> ToNumber(old(v)).None?
      ensures rc == -1 ==> v == old(v)
      ensures rc == 0 ==> v == ToNumber(old(v)).value
    {
      match v
      case INumber(_) =>
        return 0;
      case IBool(b) =>
        v := INumber(if b.Some? then Some(if b.value then 1.0 else 0.0) else None);
        return 0;
      case INil =>
        return -1;
      case IString(_) =>
        return -1;
    }

    /** `bool_cast`. */
    method BoolCast()
      modifies this
      ensures v == ToBool(old(v))
    {
      match v
      case INumber(n) =>
        v := IBool(if n.Some? then Some(n.value != 0.0) else None);
      case IBool(_) =>
      case INil =>
        v := IBool(Some(false));
      case IString(s) =>
        v := IBool(Some(|s| > 0));
    }

    /** `minus_number`. */
    method MinusNumber()
      requires v.INumber?
      modifies this
      ensures v == INumber(NegOpt(old(v).n))
    {
      v := INumber(NegOpt(v.n));
    }

    /** `bang_bool`. */
    method BangBool()
      requires v.IBool?
      modifies this
      ensures v == IBool(NotOpt(old(v).b))
    {
      v := IBool(NotOpt(v.b));
    }
  }

  /** `equal_equal`: only `right` is cast; the answer is unknown where the source reads an unset member. */
  method EqualEqual(left: Interp, right: Interp) returns (st: Status, eq: Option<bool>)
    modifies right
    ensures st == Aborted <==> EqualSpec(old(left.v), old(right.v)).EqAbort?
    ensures st != Aborted ==> st == Done
    ensures st == Done ==> right.v == EqualSpec(old(left.v), old(right.v)).right
    ensures st == Done ==> eq == EqualSpec(old(left.v), old(right.v)).answer
  {
    if TagCode(left.v) == Ordinal(NIL) {
      // The tag is never the token kind NIL: `nil == x` falls through to the switch.
      assert false;
    }
    if TagCode(left.v) == Ordinal(STRING) {
      assert false;
    }
    match left.v
    case IBool(b) =>
      right.BoolCast();
      return Done, SameOpt(b, right.v.b);
    case INumber(n) =>
      var _ := right.NumberCast();
      return Done, if right.v.INumber? then SameOpt(n, right.v.n) else None;
    case INil =>
      return Aborted, None;
    case IString(_) =>
      return Aborted, None;
  }

  /** `less`: -1 when the types are refused or a cast fails; otherwise 0 and the answer. */
  method Less(left: Interp, right: Interp) returns (rc: int, less: Option<bool>)
    modifies left, right
    ensures rc == 0 || rc == -1
    ensures rc == -1 <==> LessSpec(old(left.v), old(right.v)).None?
    ensures rc == 0 ==> less == LessSpec(old(left.v), old(right.v)).value
  {
    if !TypesAllowed(left.v, right.v) {
      return -1, None;
    }
    if TagCode(left.v) == Ordinal(STRING) {
      // The tag is never the token kind STRING: `str_less` is not reached.
      assert false;
    }
    var failed := left.NumberCast();
    if failed != 0 {
      return -1, None;
    }
    failed := right.NumberCast();
    if failed != 0 {
      return -1, None;
    }
    rc := 0;
    less := if left.v.n.Some? && right.v.n.Some? then Some(left.v.n.value < right.v.n.value) else None;
  }

  /** `interpret`: the status it returns and, on success, the value it leaves in `i`. */
  method Interpret(e: Expr, i: Interp) returns (st: Status)
    modifies i
    decreases e, 1
    ensures st == StatusOf(Eval(e))
    ensures st == Done ==> i.v == Eval(e).v
  {
    match e
    case Lit(l) =>
      i.Literal(l);
      st := Done;
    case Unary(op, x) =>
      st := InterpretUnary(op, x, i);
    case Binary(l, op, r) =>
      st := InterpretBinary(l, op, r, i);
    case Grouping(x) =>
      st := Interpret(x, i);
    case Variable(_) =>
      st := Aborted;
  }

  /** `interpret_unary`: evaluate the operand into `i`, then cast and negate it in place. */
  method InterpretUnary(op: UnaryOp, x: Expr, i: Interp) returns (st: Status)
    modifies i
    decreases Unary(op, x), 0
    ensures st == StatusOf(Eval(Unary(op, x)))
    ensures st == Done ==> i.v == Eval(Unary(op, x)).v
  {
    st := Interpret(x, i);
    if st != Done {
      return;
    }
    if op == MINUS {
      var failed := i.NumberCast();
      if failed != 0 {
        return Failed;
      }
      i.MinusNumber();
    } else {
      i.BoolCast();
      i.BangBool();
    }
  }

  /** `interpret_binary`: evaluate the left operand into a local and the right one into `i`, then combine them in `i`. */
  method InterpretBinary(l: Expr, op: BinaryOp, r: Expr, i: Interp) returns (st: Status)
    modifies i
    decreases Binary(l, op, r), 0
    ensures st == StatusOf(Eval(Binary(l, op, r)))
    ensures st == Done ==> i.v == Eval(Binary(l, op, r)).v
  {
    var left := new Interp(INil);
    st := Interpret(l, left);
    if st != Done {
      return;
    }
    st := Interpret(r, i);
    if st != Done {
      return;
    }
    st := Combine(op, left, i);
  }

  /** The `switch` of `interpret_binary`: combine the two operand values into `i`. */
  method Combine(op: BinaryOp, left: Interp, i: Interp) returns (st: Status)
    requires left != i
    modifies left, i
    ensures st == StatusOf(BinarySpec(op, old(left.v), old(i.v)))
    ensures st == Done ==> i.v == BinarySpec(op, old(left.v), old(i.v)).v
  {
    match op
    case EQUAL_EQUAL =>
      st := EqualInto(left, i, false);
    case BANG_EQUAL =>
      st := EqualInto(left, i, true);
    case LESS =>
      st := LessInto(left, i, false);
    case LESS_EQUAL =>
      st := LessInto(left, i, true);
    case GREATER =>
      st := LessInto(left, i, false);
    case GREATER_EQUAL =>
      st := LessInto(left, i, false);
    case _ =>
      st := Aborted;
  }

  /** The `==` and `!=` cases: store the answer of `equal_equal`, negated for `!=`, as a Bool. */
  method EqualInto(left: Interp, i: Interp, negate: bool) returns (st: Status)
    modifies i
    ensures st == Aborted <==> EqualSpec(old(left.v), old(i.v)).EqAbort?
    ensures st != Aborted ==> st == Done
    ensures st == Done ==> i.v == IBool(if negate then NotOpt(EqualSpec(old(left.v), old(i.v)).answer)
                                        else EqualSpec(old(left.v), old(i.v)).answer)
  {
    var eq;
    st, eq := EqualEqual(left, i);
    if st == Done {
      i.v := IBool(if negate then NotOpt(eq) else eq);
    }
  }

  /** The `<`, `<=`, `>` and `>=` cases: store the answer of `less`, negated for `<=`, as a Bool. */
  method LessInto(left: Interp, i: Interp, negate: bool) returns (st: Status)
    requires left != i
    modifies left, i
    ensures st == Done || st == Failed
    ensures st == Failed <==> LessSpec(old(left.v), old(i.v)).None?
    ensures st == Done ==> i.v == IBool(if negate then NotOpt(LessSpec(old(left.v), old(i.v)).value)
                                        else LessSpec(old(left.v), old(i.v)).value)
  {
    var rc, less := Less(left, i);
    if rc != 0 {
      return Failed;
    }
    i.v := IBool(if negate then NotOpt(less) else less);
    st := Done;
  }
}
