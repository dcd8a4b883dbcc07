/**
  The expression printer of expression.c, as the text it writes.

  `fprintln_expr_r` writes to a FILE and returns what `fprintf` returned;
  here `ExprText` is the text written and `PrintedCount` the count. The
  `%f` conversion of a number is the parameter `fmt`.
*/
module Printer {
  import opened Wrappers
  import opened Tokens
  import opened Ast
  import ScannerSpec
  import ParserSpec

  function LiteralText(l: Literal, fmt: real -> string): string
  {
    match l
    case LNil => "nil"
    case LFalse => "false"
    case LTrue => "true"
    case LNumber(n) => fmt(n)
    case LString(s) => s
  }

  function UnaryText(op: UnaryOp): string
  {
    if op == BANG then "!" else "-"
  }

  /** The operator of a binary node with one space on each side. */
  function BinaryText(op: BinaryOp): (s: string)
    ensures 3 <= |s| <= 4 && s[0] == ' ' && s[|s| - 1] == ' '
    ensures forall i :: 0 < i < |s| - 1 ==> s[i] != ' ' && s[i] != '(' && s[i] != ')'
  {
    match op
    case EQUAL_EQUAL => " == "
    case BANG_EQUAL => " != "
    case LESS => " < "
    case LESS_EQUAL => " <= "
    case GREATER => " > "
    case GREATER_EQUAL => " >= "
    case PLUS => " + "
    case MINUS => " - "
    case STAR => " * "
    case SLASH => " / "
  }

  /** The text `fprintln_expr_r` writes for `e`. */
  function ExprText(e: Expr, fmt: real -> string): string
  {
    match e
    case Lit(l) => LiteralText(l, fmt)
    case Variable(name) => name
    case Unary(op, x) => UnaryText(op) + ExprText(x, fmt)
    case Binary(l, op, r) => ExprText(l, fmt) + BinaryText(op) + ExprText(r, fmt)
    case Grouping(x) => "(" + ExprText(x, fmt) + ")"
  }

  /** The value `fprintln_expr_r` returns as written: a grouping returns only the count of its `)`. */
  function PrintedCountAsWritten(e: Expr, fmt: real -> string): int
  {
    match e
    case Lit(l) => |LiteralText(l, fmt)|
    case Variable(name) => |name|
    case Unary(op, x) => |UnaryText(op)| + PrintedCountAsWritten(x, fmt)
    case Binary(l, op, r) => PrintedCountAsWritten(l, fmt) + |BinaryText(op)| + PrintedCountAsWritten(r, fmt)
    case Grouping(x) => 1
  }

  /** The count with the grouping's `(` and inner text included: exactly the number of characters written. */
  function PrintedCount(e: Expr, fmt: real -> string): (n: nat)
    ensures n == |ExprText(e, fmt)|
  {
    match e
    case Lit(l) => |LiteralText(l, fmt)|
    case Variable(name) => |name|
    case Unary(op, x) => |UnaryText(op)| + PrintedCount(x, fmt)
    case Binary(l, op, r) => PrintedCount(l, fmt) + |BinaryText(op)| + PrintedCount(r, fmt)
    case Grouping(x) => 1 + PrintedCount(x, fmt) + 1
  }

  /** As written, a grouping reports 1 character whatever it printed: `(nil)` writes 5 and reports 1. */
  lemma GroupingCountAsWritten(fmt: real -> string)
    ensures PrintedCountAsWritten(Grouping(Lit(LNil)), fmt) == 1
    ensures |ExprText(Grouping(Lit(LNil)), fmt)| == 5
  {
  }

  /** As written, the count of any grouping falls short of the text by the inner text and the `(`. */
  lemma GroupingCountShortfall(x: Expr, fmt: real -> string)
    ensures |ExprText(Grouping(x), fmt)| - PrintedCountAsWritten(Grouping(x), fmt) == 1 + |ExprText(x, fmt)|
  {
  }

  /** `fprintln_expr`: the node text and a newline, with the corrected count. */
  function PrintLine(e: Expr, fmt: real -> string): (out: (string, nat))
    ensures out.1 == |out.0| && |out.0| > 0 && out.0[|out.0| - 1] == '\n'
    ensures out.0[..|out.0| - 1] == ExprText(e, fmt)
  {
    var text := ExprText(e, fmt) + "\n";
    (text, PrintedCount(e, fmt) + 1)
  }

  /** `fprintln_expr` as written: the text and a newline, reporting the as-written count plus one. */
  function PrintLineAsWritten(e: Expr, fmt: real -> string): (out: (string, int))
    ensures |out.0| > 0 && out.0[|out.0| - 1] == '\n' && out.0[..|out.0| - 1] == ExprText(e, fmt)
    ensures out.1 <= |out.0|
    ensures out.1 == |out.0| <==> Groupings(e) == 0
  {
    CountAsWrittenExactIff(e, fmt);
    var text := ExprText(e, fmt) + "\n";
    (text, PrintedCountAsWritten(e, fmt) + 1)
  }

  /** As written, the count never exceeds the characters printed, and it is exact just when no grouping is printed. */
  lemma {:induction false} CountAsWrittenExactIff(e: Expr, fmt: real -> string)
    ensures PrintedCountAsWritten(e, fmt) <= PrintedCount(e, fmt)
    ensures PrintedCountAsWritten(e, fmt) == PrintedCount(e, fmt) <==> Groupings(e) == 0
  {
    match e
    case Lit(_) =>
    case Variable(_) =>
    case Unary(_, x) =>
      CountAsWrittenExactIff(x, fmt);
    case Binary(l, _, r) =>
      CountAsWrittenExactIff(l, fmt);
      CountAsWrittenExactIff(r, fmt);
    case Grouping(x) =>
  }

  /** As written, the line `(nil)` and its newline are 6 characters, and `fprintln_expr` reports 2. */
  lemma GroupingLineAsWritten(fmt: real -> string)
    ensures PrintLineAsWritten(Grouping(Lit(LNil)), fmt) == ("(nil)\n", 2)
    ensures PrintLine(Grouping(Lit(LNil)), fmt) == ("(nil)\n", 6)
  {
    assert ExprText(Grouping(Lit(LNil)), fmt) + "\n" == "(nil)\n";
  }

  function CountChar(s: string, c: char): nat
  {
    if |s| == 0 then 0 else CountChar(s[..|s| - 1], c) + (if s[|s| - 1] == c then 1 else 0)
  }

  lemma {:induction false} CountCharAppend(a: string, b: string, c: char)
    ensures CountChar(a + b, c) == CountChar(a, c) + CountChar(b, c)
    decreases |b|
  {
    if |b| == 0 {
      assert a + b == a;
    } else {
      assert (a + b)[..|a + b| - 1] == a + b[..|b| - 1];
      CountCharAppend(a, b[..|b| - 1], c);
    }
  }

  function Groupings(e: Expr): nat
  {
    match e
    case Lit(_) => 0
    case Variable(_) => 0
    case Unary(_, x) => Groupings(x)
    case Binary(l, _, r) => Groupings(l) + Groupings(r)
    case Grouping(x) => 1 + Groupings(x)
  }

  /** Leaf texts without parentheses: string literals, names and formatted numbers. */
  predicate PlainLeaves(e: Expr, fmt: real -> string)
  {
    match e
    case Lit(l) => CountChar(LiteralText(l, fmt), '(') == 0 && CountChar(LiteralText(l, fmt), ')') == 0
    case Variable(name) => CountChar(name, '(') == 0 && CountChar(name, ')') == 0
    case Unary(_, x) => PlainLeaves(x, fmt)
    case Binary(l, _, r) => PlainLeaves(l, fmt) && PlainLeaves(r, fmt)
    case Grouping(x) => PlainLeaves(x, fmt)
  }

  lemma {:induction false} NoParenInFixedText(s: string, c: char)
    requires c == '(' || c == ')'
    requires forall i :: 0 <= i < |s| ==> s[i] != c
    ensures CountChar(s, c) == 0
    decreases |s|
  {
    if |s| > 0 {
      NoParenInFixedText(s[..|s| - 1], c);
    }
  }

  /** Every `(` and every `)` the printer writes, beyond those inside leaves, comes from a grouping node: one pair each. */
  lemma {:induction false} ParensCountGroupings(e: Expr, fmt: real -> string, c: char)
    requires c == '(' || c == ')'
    requires PlainLeaves(e, fmt)
    ensures CountChar(ExprText(e, fmt), c) == Groupings(e)
  {
    match e
    case Lit(l) =>
    case Variable(name) =>
    case Unary(op, x) =>
      ParensCountGroupings(x, fmt, c);
      NoParenInFixedText(UnaryText(op), c);
      CountCharAppend(UnaryText(op), ExprText(x, fmt), c);
    case Binary(l, op, r) =>
      ParensCountGroupings(l, fmt, c);
      ParensCountGroupings(r, fmt, c);
      NoParenInFixedText(BinaryText(op), c);
      CountCharAppend(ExprText(l, fmt), BinaryText(op), c);
      CountCharAppend(ExprText(l, fmt) + BinaryText(op), ExprText(r, fmt), c);
    case Grouping(x) =>
      ParensCountGroupings(x, fmt, c);
      CountCharAppend("(", ExprText(x, fmt), c);
      CountCharAppend("(" + ExprText(x, fmt), ")", c);
      assert CountChar("(", c) + CountChar(")", c) == 1 by {
        assert "("[..0] == [] && ")"[..0] == [];
      }
  }

  /** The printer writes no parentheses for nesting, so `1 + 2 + 3` reads the same whichever way it is nested. */
  lemma PrintingForgetsNesting(a: Expr, b: Expr, c: Expr, op: BinaryOp, fmt: real -> string)
    ensures ExprText(Binary(Binary(a, op, b), op, c), fmt) == ExprText(Binary(a, op, Binary(b, op, c)), fmt)
  {
  }

  /**
    Printing does not round-trip through the scanner and the parser: a string
    literal is printed without its quotes, so the string `a` prints as `a`,
    which scans as an identifier and parses back as the variable `a`.
  */
  lemma StringPrintsAsVariable(fmt: real -> string)
    ensures ExprText(Lit(LString("a")), fmt) == "a"
    ensures var toks := ScannerSpec.Scan("a").tokens;
            && ParserSpec.EofTerminated(toks)
            && ParserSpec.PExpression(toks, 0).e == Some(Variable("a"))
  {
    var src := "a";
    assert src[0] == 'a';
    assert ScannerSpec.SkipWhile(src, 1, ScannerSpec.AlphaNums) == 1;
    assert src[0..1] == "a";
    assert ScannerSpec.Keyword("a") == None;
    assert ScannerSpec.NextToken(src, 0, 1) == ScannerSpec.Emit(IDENTIFIER, 1, 1);
    var last := ScannerSpec.ScanFrom(src, 0, 1, 1);
    assert last.tokens == [TokenCreate(TT_EOF, "a", 1)];
    ScannerSpec.ScanFromStep(src, 0, 0, 1);
    var toks := ScannerSpec.Scan(src).tokens;
    assert toks == [TokenCreate(IDENTIFIER, "a", 1), TokenCreate(TT_EOF, "a", 1)];
    var v := Variable("a");
    assert ParserSpec.PPrimary(toks, 0) == ParserSpec.PResult(Some(v), 1);
    assert ParserSpec.PUnary(toks, 0) == ParserSpec.PResult(Some(v), 1);
    assert ParserSpec.PBinary(toks, 0, ParserSpec.Factor) == ParserSpec.PResult(Some(v), 1);
    assert ParserSpec.PBinary(toks, 0, ParserSpec.Term) == ParserSpec.PResult(Some(v), 1);
    assert ParserSpec.PBinary(toks, 0, ParserSpec.Comparison) == ParserSpec.PResult(Some(v), 1);
  }
}
