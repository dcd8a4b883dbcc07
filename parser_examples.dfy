/**
  Worked examples of the recursive-descent parser of parser.c on small
  token sequences: how it groups operators of one level, how it ranks
  levels, how it nests unary operators, and how it reads declarations.
*/
module ParserExamples {
  import opened Wrappers
  import opened Tokens
  import opened Ast
  import opened ParserSpec

  /** The tokens of `1 + 2 + 3`. */
  function SumTokens(): (toks: seq<Token>)
    ensures EofTerminated(toks) && |toks| == 6
  {
    [ Token(NUMBER, "1", 1, NumVal(1.0)), Token(PLUS, "+", 1, NoPayload), Token(NUMBER, "2", 1, NumVal(2.0)),
      Token(PLUS, "+", 1, NoPayload), Token(NUMBER, "3", 1, NumVal(3.0)), Token(TT_EOF, "", 1, NoPayload) ]
  }

  /** The tree of `1 + 2 + 3` grouped to the left. */
  function SumTree(): Expr
  {
    Binary(Binary(Lit(LNumber(1.0)), PLUS, Lit(LNumber(2.0))), PLUS, Lit(LNumber(3.0)))
  }

  /** Each number of `1 + 2 + 3` is a whole factor-level operand. */
  lemma SumOperands()
    ensures PBinary(SumTokens(), 0, Factor) == PResult(Some(Lit(LNumber(1.0))), 1)
    ensures PBinary(SumTokens(), 2, Factor) == PResult(Some(Lit(LNumber(2.0))), 3)
    ensures PBinary(SumTokens(), 4, Factor) == PResult(Some(Lit(LNumber(3.0))), 5)
  {
  }

  /** `1 + 2 + 3` groups to the left: `(1 + 2) + 3`. */
  lemma SumGroupsLeft()
    ensures PExpression(SumTokens(), 0) == PResult(Some(SumTree()), 5)
  {
    var toks := SumTokens();
    SumOperands();
    assert PFold(toks, 3, Term, SumTree().left) == PResult(Some(SumTree()), 5);
    assert PBinary(toks, 0, Term) == PResult(Some(SumTree()), 5);
  }

  /** The tokens of `1 + 2 * 3`. */
  function SumOfProductTokens(): (toks: seq<Token>)
    ensures EofTerminated(toks) && |toks| == 6
  {
    [ Token(NUMBER, "1", 1, NumVal(1.0)), Token(PLUS, "+", 1, NoPayload), Token(NUMBER, "2", 1, NumVal(2.0)),
      Token(STAR, "*", 1, NoPayload), Token(NUMBER, "3", 1, NumVal(3.0)), Token(TT_EOF, "", 1, NoPayload) ]
  }

  /** The tree of `1 + 2 * 3`: the product is the right operand of the sum. */
  function SumOfProductTree(): Expr
  {
    Binary(Lit(LNumber(1.0)), PLUS, Binary(Lit(LNumber(2.0)), STAR, Lit(LNumber(3.0))))
  }

  /** In `1 + 2 * 3`, `1` is a whole factor-level operand and `2 * 3` is one factor-level expression. */
  lemma SumOfProductOperands()
    ensures PBinary(SumOfProductTokens(), 0, Factor) == PResult(Some(Lit(LNumber(1.0))), 1)
    ensures PBinary(SumOfProductTokens(), 2, Factor) == PResult(Some(SumOfProductTree().right), 5)
  {
    var toks := SumOfProductTokens();
    assert PUnary(toks, 4) == PResult(Some(Lit(LNumber(3.0))), 5);
    assert PFold(toks, 3, Factor, Lit(LNumber(2.0))) == PResult(Some(SumOfProductTree().right), 5);
  }

  /** `*` binds tighter than `+`: `1 + 2 * 3` is `1 + (2 * 3)`. */
  lemma ProductBindsTighter()
    ensures PExpression(SumOfProductTokens(), 0) == PResult(Some(SumOfProductTree()), 5)
  {
    var toks := SumOfProductTokens();
    SumOfProductOperands();
    assert PFold(toks, 5, Term, SumOfProductTree()) == PResult(Some(SumOfProductTree()), 5);
    assert PFold(toks, 1, Term, Lit(LNumber(1.0))) == PResult(Some(SumOfProductTree()), 5);
    assert PBinary(toks, 0, Term) == PResult(Some(SumOfProductTree()), 5);
  }

  /** The tokens of `- - x`. */
  function NegNegTokens(): (toks: seq<Token>)
    ensures EofTerminated(toks) && |toks| == 4
  {
    [ Token(MINUS, "-", 1, NoPayload), Token(MINUS, "-", 1, NoPayload), Token(IDENTIFIER, "x", 1, NoPayload),
      Token(TT_EOF, "", 1, NoPayload) ]
  }

  /** `- - x` nests its negations: `-(-x)`. */
  lemma DoubleNegationNests()
    ensures PExpression(NegNegTokens(), 0) == PResult(Some(Unary(MINUS, Unary(MINUS, Variable("x")))), 3)
  {
    var toks := NegNegTokens();
    assert PUnary(toks, 1) == PResult(Some(Unary(MINUS, Variable("x"))), 3);
    assert PBinary(toks, 0, Factor) == PResult(Some(Unary(MINUS, Unary(MINUS, Variable("x")))), 3);
    assert PBinary(toks, 0, Comparison) == PResult(Some(Unary(MINUS, Unary(MINUS, Variable("x")))), 3);
  }

  /** The tokens of `var x ;`. */
  function BareVarTokens(): (toks: seq<Token>)
    ensures EofTerminated(toks) && |toks| == 4
  {
    [ Token(VAR, "var", 1, NoPayload), Token(IDENTIFIER, "x", 1, NoPayload), Token(SEMICOLON, ";", 1, NoPayload),
      Token(TT_EOF, "", 1, NoPayload) ]
  }

  /** `var x ;` is one declaration of `x` without an initializer, and it is the whole program. */
  lemma BareVarDeclParses()
    ensures PDecl(BareVarTokens(), 0) == SResult(Some(VarDecl("x", None)), 3)
    ensures PProgram(BareVarTokens(), 0) == [VarDecl("x", None)]
  {
    var toks := BareVarTokens();
    assert PVarDecl(toks, 1) == SResult(Some(VarDecl("x", None)), 3);
    assert PDecl(toks, 0) == SResult(Some(VarDecl("x", None)), 3);
  }
}
