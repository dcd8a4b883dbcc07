/**
  The runtime values of value.c and the operations on them.

  A `value` is a tagged union; here the tag is the constructor. The C
  functions change a `value` through a pointer, so a `ValueCell` is the
  object they change, and each operation is specified by a function of the
  old contents (`NumberCast`, `Truthy`, `EqualSpec`, `ArithSpec`, `PlusSpec`,
  `CompareSpec`) about which the properties are proved.

  Characters are C `char`s: the model stores a character as its low byte,
  and `char` is signed (x86-64), so a byte of 128 or more compares as a
  negative number. The text of a C string holds no NUL byte; a `VString`
  holds that text. A number is a `real`.
*/
module Values {
  import opened Wrappers
  import Memory

  /** `value` with its `value_t` tag: V_STRING, V_NUMBER, V_NIL, V_BOOL. */
  datatype Value = VString(s: string) | VNumber(d: real) | VNil | VBool(b: bool)

  // ---------------------------------------------------------------------
  // Characters and C strings

  /** The byte a character is stored as. */
  function ByteOf(c: char): (b: nat)
    ensures b < 256
  {
    (c as int) % 256
  }

  /** The value of a signed 8-bit `char` holding `c`. */
  function CharCode(c: char): (k: int)
    ensures -128 <= k < 128
    ensures k == 0 <==> ByteOf(c) == 0
  {
    var b := ByteOf(c);
    if b < 128 then b else b - 256
  }

  /** The text of a C string: no NUL byte before the terminator. */
  predicate CText(s: string)
  {
    forall i :: 0 <= i < |s| ==> ByteOf(s[i]) != 0
  }

  /** A value whose string, if any, is the text of a C string. */
  predicate WellFormed(v: Value)
  {
    v.VString? ==> CText(v.s)
  }

  /** The signed codes of the characters of `s`. */
  function Codes(s: string): (c: seq<int>)
    ensures |c| == |s|
    ensures forall i :: 0 <= i < |s| ==> c[i] == CharCode(s[i])
  {
    if |s| == 0 then [] else [CharCode(s[0])] + Codes(s[1..])
  }

  lemma CodesOfCText(s: string)
    requires CText(s)
    ensures forall i :: 0 <= i < |s| ==> Codes(s)[i] != 0
  {
  }

  function Head(p: seq<int>): int
  {
    if |p| == 0 then 0 else p[0]
  }

  /**
    Strict lexicographic order on code sequences, each followed by the
    terminator 0: the first position where the codes differ, or where one
    sequence ends, decides.
  */
  function LexLess(p: seq<int>, q: seq<int>): bool
  {
    if |p| == 0 || |q| == 0 then Head(p) < Head(q)
    else if p[0] != q[0] then p[0] < q[0]
    else LexLess(p[1..], q[1..])
  }

  predicate NoZero(p: seq<int>)
  {
    forall i :: 0 <= i < |p| ==> p[i] != 0
  }

  lemma {:induction false} LexLessIrreflexive(p: seq<int>)
    ensures !LexLess(p, p)
    decreases |p|
  {
    if |p| > 0 {
      LexLessIrreflexive(p[1..]);
    }
  }

  lemma {:induction false} LexLessAsymmetric(p: seq<int>, q: seq<int>)
    requires LexLess(p, q)
    ensures !LexLess(q, p)
    decreases |p|
  {
    if |p| > 0 && |q| > 0 && p[0] == q[0] {
      LexLessAsymmetric(p[1..], q[1..]);
    }
  }

  /** Two different texts without NUL are ordered one way or the other. */
  lemma {:induction false} LexLessTotal(p: seq<int>, q: seq<int>)
    requires NoZero(p) && NoZero(q) && p != q
    ensures LexLess(p, q) || LexLess(q, p)
    decreases |p|
  {
    if |p| > 0 && |q| > 0 && p[0] == q[0] {
      assert p == [p[0]] + p[1..] && q == [q[0]] + q[1..];
      LexLessTotal(p[1..], q[1..]);
    }
  }

  lemma {:induction false} LexLessTransitive(p: seq<int>, q: seq<int>, r: seq<int>)
    requires NoZero(p) && NoZero(q) && NoZero(r)
    requires LexLess(p, q) && LexLess(q, r)
    ensures LexLess(p, r)
    decreases |p|
  {
    if |p| > 0 && |q| > 0 && |r| > 0 && p[0] == q[0] && q[0] == r[0] {
      LexLessTransitive(p[1..], q[1..], r[1..]);
    }
  }

  /** What is left to compare once the first `i` codes have matched. */
  lemma LexLessFrom(p: seq<int>, q: seq<int>, i: nat)
    requires i < |p| && i < |q| && p[i] == q[i]
    ensures LexLess(p[i..], q[i..]) == LexLess(p[i + 1..], q[i + 1..])
  {
    assert p[i..][1..] == p[i + 1..] && q[i..][1..] == q[i + 1..];
  }

  /** `str_less`: walk both strings while neither has ended and the characters agree. */
  method StrLess(left: string, right: string) returns (less: bool)
    requires CText(left) && CText(right)
    ensures less == LexLess(Codes(left), Codes(right))
  {
    var p, q := Codes(left), Codes(right);
    var i := 0;
    while i < |left| && i < |right|
      invariant i <= |left| && i <= |right|
      invariant LexLess(p[i..], q[i..]) == LexLess(p, q)
    {
      if CharCode(left[i]) != CharCode(right[i]) {
        return CharCode(left[i]) < CharCode(right[i]);
      }
      LexLessFrom(p, q, i);
      i := i + 1;
    }
    less := Head(p[i..]) < Head(q[i..]);
  }

  /** `str_greater`: the same walk with the comparison reversed. */
  method StrGreater(left: string, right: string) returns (greater: bool)
    requires CText(left) && CText(right)
    ensures greater == LexLess(Codes(right), Codes(left))
  {
    var p, q := Codes(left), Codes(right);
    var i := 0;
    while i < |left| && i < |right|
      invariant i <= |left| && i <= |right|
      invariant LexLess(q[i..], p[i..]) == LexLess(q, p)
    {
      if CharCode(left[i]) != CharCode(right[i]) {
        return CharCode(left[i]) > CharCode(right[i]);
      }
      LexLessFrom(q, p, i);
      i := i + 1;
    }
    greater := Head(p[i..]) > Head(q[i..]);
  }

  /** `str_less(a, b)` and `str_greater(b, a)` agree, and no string is less than itself. */
  method StrLessMirrorsGreater(a: string, b: string) returns (less: bool, greater: bool)
    requires CText(a) && CText(b)
    ensures less == greater
    ensures a == b ==> !less
  {
    less := StrLess(a, b);
    greater := StrGreater(b, a);
    if a == b {
      LexLessIrreflexive(Codes(a));
    }
  }

  // ---------------------------------------------------------------------
  // Casts

  /** The number `number_cast` turns `v` into; `None` when it fails (Nil and String). */
  function NumberCast(v: Value): Option<real>
  {
    match v
    case VNumber(d) => Some(d)
    case VBool(b) => Some(if b then 1.0 else 0.0)
    case VNil => None
    case VString(_) => None
  }

  /** The truth `bool_cast` turns `v` into. */
  function Truthy(v: Value): bool
  {
    match v
    case VNumber(d) => d != 0.0
    case VBool(b) => b
    case VNil => false
    case VString(s) => |s| > 0
  }

  /** A cast that succeeds gives a number that casts back to itself and keeps the truth of the original. */
  lemma NumberCastKeepsTruth(v: Value)
    requires NumberCast(v).Some?
    ensures NumberCast(VNumber(NumberCast(v).value)) == NumberCast(v)
    ensures Truthy(VNumber(NumberCast(v).value)) == Truthy(v)
  {
  }

  /** `number_cast` fails exactly on Nil and String. */
  lemma NumberCastFailsIff(v: Value)
    ensures NumberCast(v).None? <==> v.VNil? || v.VString?
  {
  }

  /** `bool_cast` twice is `bool_cast` once, and a Bool cast to a number and back is unchanged. */
  lemma BoolCastIdempotent(v: Value)
    ensures Truthy(VBool(Truthy(v))) == Truthy(v)
    ensures forall b: bool :: Truthy(VNumber(NumberCast(VBool(b)).value)) == b
  {
  }

  /** A `value*`: the object that the operations of value.c change in place. */
  class ValueCell {
    var v: Value

    constructor (init: Value)
      ensures v == init
    {
      v := init;
    }

    /** `number_cast`: 0 and a Number on success; -1 and no change on Nil and String. */
    method NumberCastInPlace() returns (rc: int)
      modifies this
      ensures rc == 0 || rc == -1
      ensures rc == -1 <==> NumberCast(old(v)).None?
      ensures rc == -1 ==> v == old(v)
      ensures rc == 0 ==> v == VNumber(NumberCast(old(v)).value)
    {
      match v
      case VNumber(_) =>
        return 0;
      case VBool(b) =>
        v := VNumber(if b then 1.0 else 0.0);
        return 0;
      case VNil =>
        return -1;
      case VString(_) =>
        return -1;
    }

    /** `bool_cast`: always succeeds. */
    method BoolCastInPlace()
      modifies this
      ensures v == VBool(Truthy(old(v)))
    {
      match v
      case VNumber(d) =>
        v := VBool(d != 0.0);
      case VBool(_) =>
      case VNil =>
        v := VBool(false);
      case VString(s) =>
        v := VBool(|s| > 0);
    }

    /** `minus_number`: negate a Number. */
    method MinusNumber()
      requires v.VNumber?
      modifies this
      ensures v == VNumber(-old(v).d)
    {
      v := VNumber(-v.d);
    }

    /** `bang_bool`: negate a Bool. */
    method BangBool()
      requires v.VBool?
      modifies this
      ensures v == VBool(!old(v).b)
    {
      v := VBool(!v.b);
    }
  }

  // ---------------------------------------------------------------------
  // Equality

  /**
    `equal_equal(left, right)`: the answer and what `right` has become.
    The answer is `None` where the source reads a union member the failed
    cast did not set: a Number on the left and a Nil or String on the right.
  */
  function EqualSpec(l: Value, r: Value): (Option<bool>, Value)
  {
    match l
    case VNil => (Some(r.VNil?), r)
    case VString(s) => (Some(r.VString? && r.s == s), r)
    case VBool(b) => (Some(b == Truthy(r)), VBool(Truthy(r)))
    case VNumber(d) =>
      match NumberCast(r)
      case None => (None, r)
      case Some(e) => (Some(d == e), VNumber(e))
  }

  /** Every value equals itself. */
  lemma EqualReflexive(v: Value)
    ensures EqualSpec(v, v).0 == Some(true)
    ensures EqualSpec(v, v).1 == v
  {
  }

  /** The answer is unspecified exactly when a Number is compared with a Nil or a String. */
  lemma EqualUnspecifiedIff(l: Value, r: Value)
    ensures EqualSpec(l, r).0.None? <==> l.VNumber? && (r.VNil? || r.VString?)
  {
  }

  /** The left operand's tag decides the coercion, so `==` is not symmetric. */
  lemma EqualNotSymmetric()
    ensures EqualSpec(VBool(true), VNumber(2.0)).0 == Some(true)
    ensures EqualSpec(VNumber(2.0), VBool(true)).0 == Some(false)
    ensures EqualSpec(VBool(false), VNil).0 == Some(true)
    ensures EqualSpec(VNil, VBool(false)).0 == Some(false)
  {
  }

  /** A Nil or a String on the left equals only a value of its own tag with the same contents. */
  lemma EqualNilOrStringLeft(l: Value, r: Value)
    requires l.VNil? || l.VString?
    ensures EqualSpec(l, r).0 == Some(l == r)
    ensures EqualSpec(l, r).1 == r
  {
  }

  /** `equal_equal`: 1 or 0; only `right` is cast. */
  method EqualEqual(left: ValueCell, right: ValueCell) returns (eq: int)
    modifies right
    ensures eq == 0 || eq == 1
    ensures right.v == EqualSpec(old(left.v), old(right.v)).1
    ensures EqualSpec(old(left.v), old(right.v)).0.Some? ==>
      eq == if EqualSpec(old(left.v), old(right.v)).0.value then 1 else 0
  {
    if left.v.VNil? && right.v.VNil? {
      return 1;
    }
    if left.v.VNil? {
      return 0;
    }
    if left.v.VString? && right.v.VString? {
      return if left.v.s == right.v.s then 1 else 0;
    }
    if left.v.VString? {
      return 0;
    }
    match left.v
    case VBool(b) =>
      right.BoolCastInPlace();
      eq := if left.v.b == right.v.b then 1 else 0;
    case VNumber(d) =>
      var _ := right.NumberCastInPlace();
      if right.v.VNumber? {
        eq := if left.v.d == right.v.d then 1 else 0;
      } else {
        eq :| eq == 0 || eq == 1;
      }
  }

  // ---------------------------------------------------------------------
  // Arithmetic

  datatype ArithOp = Add | Sub | Mul | Div

  /** `dest->dval op= right->dval`; a division by zero gives 0 here. */
  function Apply(op: ArithOp, x: real, y: real): real
  {
    match op
    case Add => x + y
    case Sub => x - y
    case Mul => x * y
    case Div => if y == 0.0 then 0.0 else x / y
  }

  /** The return code of a binary operation and what its two operands have become. */
  datatype BinResult = BinResult(rc: int, dest: Value, right: Value)

  /** `minus`, `star`, `slash` (and `plus` off strings): cast `dest`, then `right`, then combine. */
  function ArithSpec(op: ArithOp, l: Value, r: Value): BinResult
  {
    match NumberCast(l)
    case None => BinResult(-1, l, r)
    case Some(x) =>
      match NumberCast(r)
      case None => BinResult(-1, VNumber(x), r)
      case Some(y) => BinResult(0, VNumber(Apply(op, x, y)), VNumber(y))
  }

  /** An arithmetic operation fails exactly when an operand is Nil or String; a failing `dest` leaves both untouched. */
  lemma ArithFailsIff(op: ArithOp, l: Value, r: Value)
    ensures ArithSpec(op, l, r).rc == -1 <==> l.VNil? || l.VString? || r.VNil? || r.VString?
    ensures ArithSpec(op, l, r).rc == 0 <==> ArithSpec(op, l, r).rc != -1
    ensures (l.VNil? || l.VString?) ==> ArithSpec(op, l, r) == BinResult(-1, l, r)
  {
  }

  /** On success both operands are Numbers and `dest` holds the result. */
  lemma ArithSucceeds(op: ArithOp, l: Value, r: Value)
    requires ArithSpec(op, l, r).rc == 0
    ensures ArithSpec(op, l, r).dest == VNumber(Apply(op, NumberCast(l).value, NumberCast(r).value))
    ensures ArithSpec(op, l, r).right.VNumber?
  {
  }

  /** `minus`, `star` and `slash`: the three functions differ only in the operator. */
  method Arith(op: ArithOp, dest: ValueCell, right: ValueCell) returns (rc: int)
    modifies dest, right
    ensures rc == ArithSpec(op, old(dest.v), old(right.v)).rc
    ensures dest.v == ArithSpec(op, old(dest.v), old(right.v)).dest
    ensures dest != right ==> right.v == ArithSpec(op, old(dest.v), old(right.v)).right
  {
    var failed := dest.NumberCastInPlace();
    if failed != 0 {
      return -1;
    }
    failed := right.NumberCastInPlace();
    if failed != 0 {
      return -1;
    }
    dest.v := VNumber(Apply(op, dest.v.d, right.v.d));
    return 0;
  }

  /** `plus`: two Strings concatenate; otherwise it is the arithmetic `+`. */
  function PlusSpec(l: Value, r: Value): BinResult
  {
    if l.VString? && r.VString? then BinResult(0, VString(l.s + r.s), r)
    else ArithSpec(Add, l, r)
  }

  /** Concatenating two C strings gives a C string as long as both. */
  lemma PlusStrings(l: Value, r: Value)
    requires l.VString? && r.VString? && CText(l.s) && CText(r.s)
    ensures PlusSpec(l, r).rc == 0
    ensures WellFormed(PlusSpec(l, r).dest)
    ensures |PlusSpec(l, r).dest.s| == |l.s| + |r.s|
  {
  }

  /** `str_plus`: allocate `|l| + |r| + 1` bytes in the arena and write both texts and the terminator there. */
  method StrPlus(mem: Memory.Linmem, l: string, r: string) returns (off: nat)
    requires mem.Valid() && mem.data.Length > 0
    requires mem.len + |l| + |r| + 1 < Memory.SIZE_BOUND
    modifies mem, mem.data
    ensures mem.Valid() && mem.data.Length > 0
    ensures off == old(mem.len) && mem.len == off + |l| + |r| + 1
    ensures mem.blocks == old(mem.blocks) + [(off, |l| + |r| + 1)]
    ensures mem.data[..off] == old(mem.data[..mem.len])
    ensures forall i :: 0 <= i < |l + r| ==> mem.data[off + i] == ByteOf((l + r)[i])
    ensures mem.data[off + |l| + |r|] == 0
  {
    off := mem.Malloc(|l| + |r| + 1);
    var text := l + r;
    forall i | 0 <= i < |text| {
      mem.data[off + i] := ByteOf(text[i]);
    }
    mem.data[off + |text|] := 0;
  }

  /** `plus`: on two Strings `dest` becomes the concatenation, built in the arena. */
  method Plus(mem: Memory.Linmem, dest: ValueCell, right: ValueCell) returns (rc: int)
    requires mem.Valid() && mem.data.Length > 0
    requires dest.v.VString? && right.v.VString? ==> mem.len + |dest.v.s| + |right.v.s| + 1 < Memory.SIZE_BOUND
    modifies mem, mem.data, dest, right
    ensures mem.Valid() && mem.data.Length > 0
    ensures rc == PlusSpec(old(dest.v), old(right.v)).rc
    ensures dest.v == PlusSpec(old(dest.v), old(right.v)).dest
    ensures dest != right ==> right.v == PlusSpec(old(dest.v), old(right.v)).right
    ensures old(dest.v).VString? && old(right.v).VString? ==>
      mem.len == old(mem.len) + |old(dest.v).s| + |old(right.v).s| + 1
  {
    if dest.v.VString? && right.v.VString? {
      var _ := StrPlus(mem, dest.v.s, right.v.s);
      dest.v := VString(dest.v.s + right.v.s);
      return 0;
    }
    rc := Arith(Add, dest, right);
  }

  // ---------------------------------------------------------------------
  // Ordering

  /** `less` (or `greater` when `greater` is set): 1 or 0, or -1 when a cast fails. */
  function CompareSpec(greater: bool, l: Value, r: Value): BinResult
  {
    if l.VString? && r.VString? then
      var holds := if greater then LexLess(Codes(r.s), Codes(l.s)) else LexLess(Codes(l.s), Codes(r.s));
      BinResult(if holds then 1 else 0, l, r)
    else
      match NumberCast(l)
      case None => BinResult(-1, l, r)
      case Some(x) =>
        match NumberCast(r)
        case None => BinResult(-1, VNumber(x), r)
        case Some(y) => BinResult(if (if greater then x > y else x < y) then 1 else 0, VNumber(x), VNumber(y))
  }

  /** `less(a, b)` and `greater(b, a)` give the same answer, failures included. */
  lemma LessMirrorsGreater(a: Value, b: Value)
    ensures CompareSpec(false, a, b).rc == CompareSpec(true, b, a).rc
  {
  }

  /** No value is less than itself, and two Strings are never both less than each other. */
  lemma LessIrreflexiveAsymmetric(a: Value, b: Value)
    ensures CompareSpec(false, a, a).rc != 1
    ensures CompareSpec(false, a, b).rc == 1 ==> CompareSpec(false, b, a).rc != 1
  {
    if a.VString? {
      LexLessIrreflexive(Codes(a.s));
    }
    if a.VString? && b.VString? && LexLess(Codes(a.s), Codes(b.s)) {
      LexLessAsymmetric(Codes(a.s), Codes(b.s));
    }
  }

  /** Comparison fails exactly when the operands are not both Strings and one is Nil or String. */
  lemma CompareFailsIff(greater: bool, l: Value, r: Value)
    ensures CompareSpec(greater, l, r).rc == -1 <==>
      !(l.VString? && r.VString?) && (l.VNil? || l.VString? || r.VNil? || r.VString?)
  {
  }

  /** `less` and `greater`: strings compare by `str_less`/`str_greater`, anything else after both casts. */
  method Compare(greater: bool, left: ValueCell, right: ValueCell) returns (rc: int)
    requires WellFormed(left.v) && WellFormed(right.v)
    modifies left, right
    ensures rc == CompareSpec(greater, old(left.v), old(right.v)).rc
    ensures left.v == CompareSpec(greater, old(left.v), old(right.v)).dest
    ensures left != right ==> right.v == CompareSpec(greater, old(left.v), old(right.v)).right
  {
    if left.v.VString? && right.v.VString? {
      var holds;
      if greater {
        holds := StrGreater(left.v.s, right.v.s);
      } else {
        holds := StrLess(left.v.s, right.v.s);
      }
      return if holds then 1 else 0;
    }
    var failed := left.NumberCastInPlace();
    if failed != 0 {
      return -1;
    }
    failed := right.NumberCastInPlace();
    if failed != 0 {
      return -1;
    }
    var holds := if greater then left.v.d > right.v.d else left.v.d < right.v.d;
    rc := if holds then 1 else 0;
  }

  // ---------------------------------------------------------------------
  // Printing

  /** `value_println`: the value's text and a newline; `fmt` is the `%f` conversion. */
  function ValueLine(v: Value, fmt: real -> string): (t: string)
    ensures |t| > 0 && t[|t| - 1] == '\n'
    ensures v.VBool? ==> t == if v.b then "TRUE\n" else "FALSE\n"
    ensures v.VNil? ==> t == "NIL\n"
  {
    match v
    case VString(s) => s + "\n"
    case VNumber(d) => fmt(d) + "\n"
    case VBool(b) => (if b then "TRUE" else "FALSE") + "\n"
    case VNil => "NIL\n"
  }
}
