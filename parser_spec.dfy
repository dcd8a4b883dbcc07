/**
  What the recursive-descent parser of parser.c computes, as functions of
  the token sequence and the cursor.

  Each `P...` function takes the cursor before a C `parse_...` call and
  returns the node built (None for the C NULL or -1) together with the
  cursor after the call. The token sequence ends with TT_EOF, which the
  cursor never passes.
*/
module ParserSpec {
  import opened Wrappers
  import opened Tokens
  import opened Ast

  /** The parser's input: a token sequence whose last token is TT_EOF. */
  predicate EofTerminated(toks: seq<Token>)
  {
    |toks| > 0 && toks[|toks| - 1].kind == TT_EOF
  }

  /** `parser_end`. */
  predicate AtEof(toks: seq<Token>, pos: nat)
    requires pos < |toks|
  {
    toks[pos].kind == TT_EOF
  }

  /** `parser_check`: the next token has kind `k`, and it is not TT_EOF. */
  predicate Check(toks: seq<Token>, pos: nat, k: TokenKind)
    requires pos < |toks|
  {
    !AtEof(toks, pos) && toks[pos].kind == k
  }

  /** `parser_advance`: step over one token unless it is TT_EOF. */
  function Advance(toks: seq<Token>, pos: nat): (p: nat)
    requires EofTerminated(toks) && pos < |toks|
    ensures p < |toks|
    ensures AtEof(toks, pos) ==> p == pos
    ensures !AtEof(toks, pos) ==> p == pos + 1
  {
    if AtEof(toks, pos) then pos else pos + 1
  }

  /** `parser_match`: the next token is one of `kinds` (TT_EOF never matches). */
  predicate Matches(toks: seq<Token>, pos: nat, kinds: seq<TokenKind>)
    requires pos < |toks|
  {
    !AtEof(toks, pos) && toks[pos].kind in kinds
  }

  /** The four binary precedence levels, loosest first. */
  datatype Level = Equality | Comparison | Term | Factor

  function Rank(l: Level): (r: nat)
    ensures 1 <= r <= 4
  {
    match l
    case Factor => 1
    case Term => 2
    case Comparison => 3
    case Equality => 4
  }

  /** The operators each level's loop matches, in the order parser.c passes them to `parser_match`. */
  function Ops(l: Level): seq<TokenKind>
  {
    match l
    case Equality => [EQUAL_EQUAL, BANG_EQUAL]
    case Comparison => [LESS, LESS_EQUAL, GREATER, GREATER_EQUAL]
    case Term => [PLUS, MINUS]
    case Factor => [SLASH, STAR]
  }

  /** The level whose operands a level's loop parses. */
  function Lower(l: Level): (m: Level)
    requires l != Factor
    ensures Rank(m) == Rank(l) - 1
  {
    match l
    case Equality => Comparison
    case Comparison => Term
    case Term => Factor
  }

  /** The rank of the level a binary operator belongs to. */
  function OpRank(op: BinaryOp): (r: nat)
    ensures 1 <= r <= 4
  {
    if op in Ops(Factor) then 1
    else if op in Ops(Term) then 2
    else if op in Ops(Comparison) then 3
    else 4
  }

  lemma OpRankOfLevel(op: TokenKind, l: Level)
    requires op in Ops(l)
    ensures IsBinaryOp(op) && OpRank(op) == Rank(l)
  {
  }

  /** The precedence of a node's outermost operator; 0 for unary and primary nodes. */
  function TopRank(e: Expr): nat
  {
    if e.Binary? then OpRank(e.bop) else 0
  }

  /**
    The shape precedence climbing produces: a binary node's left operand
    binds no looser than it (left associativity), its right operand binds
    strictly tighter, and a unary operand is never a bare binary node.
  */
  predicate Shaped(e: Expr)
  {
    match e
    case Binary(l, op, r) => TopRank(l) <= OpRank(op) && TopRank(r) < OpRank(op) && Shaped(l) && Shaped(r)
    case Unary(_, x) => TopRank(x) == 0 && Shaped(x)
    case Grouping(x) => Shaped(x)
    case Lit(_) => true
    case Variable(_) => true
  }

  /** A parse result: the node (None for NULL) and the cursor after the call. */
  datatype PResult = PResult(e: Option<Expr>, pos: nat)

  /** A node, if any, of the shape precedence climbing builds, binding no looser than `rank`. */
  predicate ShapedUpTo(r: PResult, rank: nat)
  {
    r.e.Some? ==> Shaped(r.e.value) && TopRank(r.e.value) <= rank
  }

  /** `parse_expression` (= `parse_equality`). */
  function PExpression(toks: seq<Token>, pos: nat): (r: PResult)
    requires EofTerminated(toks) && pos < |toks|
    ensures pos <= r.pos < |toks|
    ensures !AtEof(toks, pos) ==> pos < r.pos
    decreases |toks| - pos, 17
  {
    PBinary(toks, pos, Equality)
  }

  /** `parse_factor`, `parse_term`, `parse_comparison` and `parse_equality`: an operand, then the folding loop. */
  function PBinary(toks: seq<Token>, pos: nat, l: Level): (r: PResult)
    requires EofTerminated(toks) && pos < |toks|
    ensures pos <= r.pos < |toks|
    ensures !AtEof(toks, pos) ==> pos < r.pos
    decreases |toks| - pos, 4 * Rank(l)
  {
    var o := POperand(toks, pos, l);
    if o.e.None? then o else PFold(toks, o.pos, l, o.e.value)
  }

  /** The operand of a level: `parse_unary` under factor, the next level otherwise. */
  function POperand(toks: seq<Token>, pos: nat, l: Level): (r: PResult)
    requires EofTerminated(toks) && pos < |toks|
    ensures pos <= r.pos < |toks|
    ensures !AtEof(toks, pos) ==> pos < r.pos
    decreases |toks| - pos, 4 * Rank(l) - 2
  {
    if l == Factor then PUnary(toks, pos) else PBinary(toks, pos, Lower(l))
  }

  /** The `while (parser_match(...))` loop of a level, with `left` the expression built so far. */
  function PFold(toks: seq<Token>, pos: nat, l: Level, left: Expr): (r: PResult)
    requires EofTerminated(toks) && pos < |toks|
    ensures pos <= r.pos < |toks|
    decreases |toks| - pos, 4 * Rank(l) - 1
  {
    if Matches(toks, pos, Ops(l)) then
      var op := toks[pos].kind;
      OpRankOfLevel(op, l);
      var o := POperand(toks, pos + 1, l);
      if o.e.None? then PResult(None, o.pos)
      else PFold(toks, o.pos, l, Binary(left, op, o.e.value))
    else PResult(Some(left), pos)
  }

  /** `parse_unary`: `!` or `-` applied to a unary, else a primary. */
  function PUnary(toks: seq<Token>, pos: nat): (r: PResult)
    requires EofTerminated(toks) && pos < |toks|
    ensures pos <= r.pos < |toks|
    ensures !AtEof(toks, pos) ==> pos < r.pos
    decreases |toks| - pos, 1
  {
    if Matches(toks, pos, [BANG, MINUS]) then
      var op := toks[pos].kind;
      var o := PUnary(toks, pos + 1);
      if o.e.None? then PResult(None, o.pos) else PResult(Some(Unary(op, o.e.value)), o.pos)
    else PPrimary(toks, pos)
  }

  /** `parse_primary`: a literal, a variable or a parenthesised expression; otherwise skip one token and fail. */
  function PPrimary(toks: seq<Token>, pos: nat): (r: PResult)
    requires EofTerminated(toks) && pos < |toks|
    ensures pos <= r.pos < |toks|
    ensures !AtEof(toks, pos) ==> pos < r.pos
    decreases |toks| - pos, 0
  {
    match toks[pos].kind
      case TT_EOF => PResult(None, pos)
      case TRUE => PResult(Some(Lit(LTrue)), pos + 1)
      case FALSE => PResult(Some(Lit(LFalse)), pos + 1)
      case NIL => PResult(Some(Lit(LNil)), pos + 1)
      case STRING => PResult(Some(Lit(LString(StrValOf(toks[pos])))), pos + 1)
      case NUMBER => PResult(Some(Lit(LNumber(NumValOf(toks[pos])))), pos + 1)
      case IDENTIFIER => PResult(Some(Variable(toks[pos].lexeme)), pos + 1)
      case LEFT_PAREN =>
        var o := PExpression(toks, pos + 1);
        if o.e.None? then PResult(None, o.pos)
        else if Check(toks, o.pos, RIGHT_PAREN) then PResult(Some(Grouping(o.e.value)), o.pos + 1)
        else PResult(None, o.pos)
      case _ => PResult(None, pos + 1)
  }

  /** Every expression `parse_expression` returns has the shape of precedence climbing. */
  lemma {:induction false} ExpressionShaped(toks: seq<Token>, pos: nat)
    requires EofTerminated(toks) && pos < |toks|
    ensures ShapedUpTo(PExpression(toks, pos), 4)
    decreases |toks| - pos, 17
  {
    BinaryShaped(toks, pos, Equality);
  }

  /** A level's result binds no looser than the level. */
  lemma {:induction false} BinaryShaped(toks: seq<Token>, pos: nat, l: Level)
    requires EofTerminated(toks) && pos < |toks|
    ensures ShapedUpTo(PBinary(toks, pos, l), Rank(l))
    decreases |toks| - pos, 4 * Rank(l)
  {
    OperandShaped(toks, pos, l);
    var o := POperand(toks, pos, l);
    if o.e.Some? {
      FoldShaped(toks, o.pos, l, o.e.value);
    }
  }

  /** An operand binds strictly tighter than its level. */
  lemma {:induction false} OperandShaped(toks: seq<Token>, pos: nat, l: Level)
    requires EofTerminated(toks) && pos < |toks|
    ensures ShapedUpTo(POperand(toks, pos, l), Rank(l) - 1)
    decreases |toks| - pos, 4 * Rank(l) - 2
  {
    if l == Factor {
      UnaryShaped(toks, pos);
    } else {
      BinaryShaped(toks, pos, Lower(l));
    }
  }

  /** Folding keeps the left operand on the left: each new node takes the tree so far as its left child. */
  lemma {:induction false} FoldShaped(toks: seq<Token>, pos: nat, l: Level, left: Expr)
    requires EofTerminated(toks) && pos < |toks|
    requires Shaped(left) && TopRank(left) <= Rank(l)
    ensures ShapedUpTo(PFold(toks, pos, l, left), Rank(l))
    decreases |toks| - pos, 4 * Rank(l) - 1
  {
    if Matches(toks, pos, Ops(l)) {
      var op := toks[pos].kind;
      OpRankOfLevel(op, l);
      OperandShaped(toks, pos + 1, l);
      var o := POperand(toks, pos + 1, l);
      if o.e.Some? {
        FoldShaped(toks, o.pos, l, Binary(left, op, o.e.value));
      }
    }
  }

  /** A unary result is never a bare binary node. */
  lemma {:induction false} UnaryShaped(toks: seq<Token>, pos: nat)
    requires EofTerminated(toks) && pos < |toks|
    ensures ShapedUpTo(PUnary(toks, pos), 0)
    decreases |toks| - pos, 1
  {
    if Matches(toks, pos, [BANG, MINUS]) {
      UnaryShaped(toks, pos + 1);
    } else {
      PrimaryShaped(toks, pos);
    }
  }

  /** A primary result is a literal, a variable or a grouping. */
  lemma {:induction false} PrimaryShaped(toks: seq<Token>, pos: nat)
    requires EofTerminated(toks) && pos < |toks|
    ensures ShapedUpTo(PPrimary(toks, pos), 0)
    decreases |toks| - pos, 0
  {
    if Check(toks, pos, LEFT_PAREN) {
      ExpressionShaped(toks, pos + 1);
    }
  }

  /** The number of tokens an expression is written with; a grouping adds its two parentheses. */
  function Size(e: Expr): (n: nat)
    ensures n >= 1
  {
    match e
    case Lit(_) => 1
    case Variable(_) => 1
    case Unary(_, x) => 1 + Size(x)
    case Binary(l, _, r) => Size(l) + 1 + Size(r)
    case Grouping(x) => Size(x) + 2
  }

  /** The node `parse_primary` builds from a literal or identifier token; `None` for any other token. */
  function Leaf(t: Token): Option<Expr>
  {
    match t.kind
    case TRUE => Some(Lit(LTrue))
    case FALSE => Some(Lit(LFalse))
    case NIL => Some(Lit(LNil))
    case STRING => Some(Lit(LString(StrValOf(t))))
    case NUMBER => Some(Lit(LNumber(NumValOf(t))))
    case IDENTIFIER => Some(Variable(t.lexeme))
    case _ => None
  }

  /**
    The `Size(e)` tokens from `pos` spell `e`: each leaf is the node of its
    token, each operator is its token's kind, and each grouping stands
    between a `(` and a `)`.
  */
  predicate Spells(toks: seq<Token>, pos: nat, e: Expr)
    requires pos + Size(e) <= |toks|
    decreases e
  {
    match e
    case Lit(_) => Leaf(toks[pos]) == Some(e)
    case Variable(_) => Leaf(toks[pos]) == Some(e)
    case Unary(op, x) => toks[pos].kind == op && Spells(toks, pos + 1, x)
    case Binary(l, op, r) =>
      && Spells(toks, pos, l)
      && toks[pos + Size(l)].kind == op
      && Spells(toks, pos + Size(l) + 1, r)
    case Grouping(x) =>
      && toks[pos].kind == LEFT_PAREN
      && Spells(toks, pos + 1, x)
      && toks[pos + 1 + Size(x)].kind == RIGHT_PAREN
  }

  /** The token at `p` continues no binary level of rank up to `rank`: it is no operator of such a level. */
  predicate NoOperatorUpTo(toks: seq<Token>, p: nat, rank: nat)
    requires p < |toks|
  {
    !IsBinaryOp(toks[p].kind) || OpRank(toks[p].kind) > rank
  }

  /** A binary operator belongs to the level of its rank. */
  lemma OpOfRank(op: BinaryOp, l: Level)
    requires OpRank(op) == Rank(l)
    ensures op in Ops(l)
  {
  }

  /** `r`, returned by a call at `pos`, is spelt by exactly the tokens the call consumed. */
  predicate SpeltFrom(toks: seq<Token>, pos: nat, r: PResult)
  {
    r.e.Some? ==> r.pos == pos + Size(r.e.value) && r.pos <= |toks| && Spells(toks, pos, r.e.value)
  }

  /**
    What `parse_expression` returns is spelt by exactly the tokens it
    consumed, and the token after them is no binary operator (the loops
    only stop there).
  */
  lemma {:induction false} ExpressionSpells(toks: seq<Token>, pos: nat)
    requires EofTerminated(toks) && pos < |toks|
    ensures var r := PExpression(toks, pos);
            SpeltFrom(toks, pos, r) && (r.e.Some? ==> NoOperatorUpTo(toks, r.pos, 4))
    decreases |toks| - pos, 17
  {
    BinarySpells(toks, pos, Equality);
  }

  /** A level's result is spelt by the tokens it consumed, and the next token is no operator of this level or below. */
  lemma {:induction false} BinarySpells(toks: seq<Token>, pos: nat, l: Level)
    requires EofTerminated(toks) && pos < |toks|
    ensures var r := PBinary(toks, pos, l);
            SpeltFrom(toks, pos, r) && (r.e.Some? ==> NoOperatorUpTo(toks, r.pos, Rank(l)))
    decreases |toks| - pos, 4 * Rank(l)
  {
    OperandSpells(toks, pos, l);
    var o := POperand(toks, pos, l);
    if o.e.Some? {
      FoldSpells(toks, pos, o.pos, l, o.e.value);
    }
  }

  /** An operand is spelt by the tokens it consumed, and the next token is no operator of a lower level. */
  lemma {:induction false} OperandSpells(toks: seq<Token>, pos: nat, l: Level)
    requires EofTerminated(toks) && pos < |toks|
    ensures var r := POperand(toks, pos, l);
            SpeltFrom(toks, pos, r) && (r.e.Some? ==> NoOperatorUpTo(toks, r.pos, Rank(l) - 1))
    decreases |toks| - pos, 4 * Rank(l) - 2
  {
    if l == Factor {
      UnarySpells(toks, pos);
    } else {
      BinarySpells(toks, pos, Lower(l));
    }
  }

  /** Folding from `left`, spelt from `start`, gives a node spelt from `start` up to where the loop stops. */
  lemma {:induction false} FoldSpells(toks: seq<Token>, start: nat, pos: nat, l: Level, left: Expr)
    requires EofTerminated(toks) && pos < |toks|
    ensures start + Size(left) == pos && Spells(toks, start, left) && NoOperatorUpTo(toks, pos, Rank(l) - 1) ==>
            var r := PFold(toks, pos, l, left);
            SpeltFrom(toks, start, r) && (r.e.Some? ==> NoOperatorUpTo(toks, r.pos, Rank(l)))
    decreases |toks| - pos, 4 * Rank(l) - 1
  {
    if start + Size(left) == pos && Spells(toks, start, left) && NoOperatorUpTo(toks, pos, Rank(l) - 1) {
      if Matches(toks, pos, Ops(l)) {
        var op := toks[pos].kind;
        OpRankOfLevel(op, l);
        OperandSpells(toks, pos + 1, l);
        var o := POperand(toks, pos + 1, l);
        if o.e.Some? {
          NodeSpells(toks, start, pos, left, o.e.value, o.pos);
          FoldSpells(toks, start, o.pos, l, Binary(left, op, o.e.value));
          FoldTurn(toks, pos, l, left, o.e.value, o.pos);
        } else {
          assert PFold(toks, pos, l, left).e.None?;
        }
      } else {
        assert PFold(toks, pos, l, left) == PResult(Some(left), pos);
        if IsBinaryOp(toks[pos].kind) && OpRank(toks[pos].kind) == Rank(l) {
          OpOfRank(toks[pos].kind, l);
        }
      }
    }
  }

  /** `left` spelt up to the operator at `m` and `right` spelt after it up to `q` spell their node from `start`. */
  lemma NodeSpells(toks: seq<Token>, start: nat, m: nat, left: Expr, right: Expr, q: nat)
    requires start + Size(left) == m && m + 1 + Size(right) == q && q < |toks| && IsBinaryOp(toks[m].kind)
    ensures start + Size(Binary(left, toks[m].kind, right)) == q
    ensures Spells(toks, start, left) && Spells(toks, m + 1, right) ==> Spells(toks, start, Binary(left, toks[m].kind, right))
  {
  }

  /** One turn of a level's loop: the operator at `pos`, then the operand up to `q`. */
  lemma FoldTurn(toks: seq<Token>, pos: nat, l: Level, left: Expr, right: Expr, q: nat)
    requires EofTerminated(toks) && pos < |toks| && Matches(toks, pos, Ops(l)) && IsBinaryOp(toks[pos].kind)
    requires POperand(toks, pos + 1, l) == PResult(Some(right), q)
    ensures PFold(toks, pos, l, left) == PFold(toks, q, l, Binary(left, toks[pos].kind, right))
  {
  }

  /** A unary result is spelt by the tokens it consumed. */
  lemma {:induction false} UnarySpells(toks: seq<Token>, pos: nat)
    requires EofTerminated(toks) && pos < |toks|
    ensures SpeltFrom(toks, pos, PUnary(toks, pos))
    decreases |toks| - pos, 1
  {
    if Matches(toks, pos, [BANG, MINUS]) {
      UnarySpells(toks, pos + 1);
    } else {
      PrimarySpells(toks, pos);
    }
  }

  /** A primary result is spelt by the tokens it consumed: its leaf token, or a parenthesised expression. */
  lemma {:induction false} PrimarySpells(toks: seq<Token>, pos: nat)
    requires EofTerminated(toks) && pos < |toks|
    ensures SpeltFrom(toks, pos, PPrimary(toks, pos))
    decreases |toks| - pos, 0
  {
    if Check(toks, pos, LEFT_PAREN) {
      ExpressionSpells(toks, pos + 1);
      GroupedSpells(toks, pos);
    } else {
      LeafSpells(toks, pos);
    }
  }

  /** At `(`, `parse_primary` returns a grouping spelt by its tokens when `parse_expression` after the `(` does. */
  lemma GroupedSpells(toks: seq<Token>, pos: nat)
    requires EofTerminated(toks) && pos < |toks| && Check(toks, pos, LEFT_PAREN)
    ensures pos + 1 < |toks|
    ensures SpeltFrom(toks, pos + 1, PExpression(toks, pos + 1)) ==> SpeltFrom(toks, pos, PPrimary(toks, pos))
  {
    var o := PExpression(toks, pos + 1);
    if o.e.Some? && Check(toks, o.pos, RIGHT_PAREN) && SpeltFrom(toks, pos + 1, o) {
      GroupSpells(toks, pos, o.e.value, o.pos + 1);
      GroupStep(toks, pos, o.e.value, o.pos + 1);
    } else if !(o.e.Some? && Check(toks, o.pos, RIGHT_PAREN)) {
      assert PPrimary(toks, pos).e.None?;
    }
  }

  /** `(`, an expression spelt after it and `)` just before `q` spell its grouping. */
  lemma GroupSpells(toks: seq<Token>, pos: nat, x: Expr, q: nat)
    requires q == pos + 1 + Size(x) + 1 && q < |toks|
    ensures pos + Size(Grouping(x)) == q
    ensures toks[pos].kind == LEFT_PAREN && Spells(toks, pos + 1, x) && toks[q - 1].kind == RIGHT_PAREN ==>
            Spells(toks, pos, Grouping(x))
  {
  }

  /** Away from `(`, `parse_primary` reads at most the one token at `pos`, and what it reads is that token's leaf. */
  lemma LeafSpells(toks: seq<Token>, pos: nat)
    requires EofTerminated(toks) && pos < |toks| && toks[pos].kind != LEFT_PAREN
    ensures SpeltFrom(toks, pos, PPrimary(toks, pos))
  {
  }

  /**
    Every expression of the shape precedence climbing builds, spelt in the
    tokens from `pos` and followed by a token that is no binary operator,
    parses back to itself.
  */
  lemma ExpressionParses(toks: seq<Token>, pos: nat, e: Expr)
    requires EofTerminated(toks) && pos + Size(e) < |toks|
    requires Shaped(e) && Spells(toks, pos, e) && NoOperatorUpTo(toks, pos + Size(e), 4)
    ensures PExpression(toks, pos) == PResult(Some(e), pos + Size(e))
  {
    BinaryParses(toks, pos, Equality, e, pos + Size(e));
  }

  /**
    The tokens from `pos` up to `q` are where `e` would be spelt, and the
    sequence goes on past `q` to its TT_EOF.
  */
  predicate Span(toks: seq<Token>, pos: nat, e: Expr, q: nat)
  {
    EofTerminated(toks) && q == pos + Size(e) && q < |toks|
  }

  /*
    The lemmas below take the end `q` of the spelling as a parameter and
    state all their premises, `Span` first, on the left of an implication,
    so that a call site has nothing to check and needs no arithmetic on
    sizes and no unfolding of the spelling to use them. Each decreases
    clause is the expression, then the stage of the descent.
  */

  /** The stages of the descent through level `l`, above those of every tighter level and of `parse_unary`. */
  function Stage(l: Level, step: nat): nat
  {
    8 * Rank(l) + step
  }

  /** A level parses a spelt expression that binds no looser than the level, when no operator of the level or below follows. */
  lemma {:induction false} BinaryParses(toks: seq<Token>, pos: nat, l: Level, e: Expr, q: nat)
    ensures Span(toks, pos, e, q) && Shaped(e) && TopRank(e) <= Rank(l) && Spells(toks, pos, e) && NoOperatorUpTo(toks, q, Rank(l)) ==>
            PBinary(toks, pos, l) == PResult(Some(e), q)
    decreases e, Stage(l, 5)
  {
    BinaryPrefixParses(toks, pos, l, e, q);
    if Span(toks, pos, e, q) && Matches(toks, q, Ops(l)) {
      OpRankOfLevel(toks[q].kind, l);
    }
  }

  /** A level reads a spelt expression that binds no looser than it, then goes on folding from its end. */
  lemma {:induction false} BinaryPrefixParses(toks: seq<Token>, pos: nat, l: Level, e: Expr, q: nat)
    ensures Span(toks, pos, e, q) && Shaped(e) && TopRank(e) <= Rank(l) && Spells(toks, pos, e) && NoOperatorUpTo(toks, q, Rank(l) - 1) ==>
            PBinary(toks, pos, l) == PFold(toks, q, l, e)
    decreases e, Stage(l, 4)
  {
    if TopRank(e) < Rank(l) {
      OperandParses(toks, pos, l, e, q);
      if Span(toks, pos, e, q) && POperand(toks, pos, l) == PResult(Some(e), q) {
        OperandStartsLevel(toks, pos, l, e, q);
      }
    } else {
      NodePrefixParses(toks, pos, l, e, q);
    }
  }

  /** A node of the level's own rank is read as its left part, then one more turn of the loop. */
  lemma {:induction false} NodePrefixParses(toks: seq<Token>, pos: nat, l: Level, e: Expr, q: nat)
    ensures Span(toks, pos, e, q) && Shaped(e) && TopRank(e) == Rank(l) && Spells(toks, pos, e) && NoOperatorUpTo(toks, q, Rank(l) - 1) ==>
            PBinary(toks, pos, l) == PFold(toks, q, l, e)
    decreases e, Stage(l, 3)
  {
    if e.Binary? && Span(toks, pos, e, q) {
      var m := pos + Size(e.left);
      NodeParts(toks, pos, m, l, e.left, e.bop, e.right, q);
      OperandParses(toks, m + 1, l, e.right, q);
      BinaryPrefixParses(toks, pos, l, e.left, m);
      FoldOver(toks, pos, m, l, e.left, e.bop, e.right, q);
    }
  }

  /** What a well-shaped, spelt node of level `l` says about its two operands and the operator at `m` between them. */
  lemma NodeParts(toks: seq<Token>, pos: nat, m: nat, l: Level, left: Expr, op: BinaryOp, right: Expr, q: nat)
    requires m == pos + Size(left) && q == pos + Size(Binary(left, op, right)) && q <= |toks|
    ensures m + 1 + Size(right) == q
    ensures Shaped(Binary(left, op, right)) && OpRank(op) == Rank(l) && Spells(toks, pos, Binary(left, op, right)) ==>
            && Shaped(left) && TopRank(left) <= Rank(l) && Spells(toks, pos, left)
            && toks[m].kind == op && NoOperatorUpTo(toks, m, Rank(l) - 1)
            && Shaped(right) && TopRank(right) < Rank(l) && Spells(toks, m + 1, right)
  {
  }

  /** A level whose operand parses as `e` goes on folding from the operand's end. */
  lemma OperandStartsLevel(toks: seq<Token>, pos: nat, l: Level, e: Expr, q: nat)
    requires EofTerminated(toks) && pos < |toks| && q < |toks|
    requires POperand(toks, pos, l) == PResult(Some(e), q)
    ensures PBinary(toks, pos, l) == PFold(toks, q, l, e)
  {
  }

  /** Having read `left` up to the operator `op` at `m`, one more turn of the loop over an operand `right` reads their node. */
  lemma FoldOver(toks: seq<Token>, pos: nat, m: nat, l: Level, left: Expr, op: BinaryOp, right: Expr, q: nat)
    ensures && Span(toks, pos, left, m) && Span(toks, m + 1, right, q)
            && toks[m].kind == op && OpRank(op) == Rank(l)
            && PBinary(toks, pos, l) == PFold(toks, m, l, left)
            && POperand(toks, m + 1, l) == PResult(Some(right), q)
            ==> PBinary(toks, pos, l) == PFold(toks, q, l, Binary(left, op, right))
  {
    if Span(toks, pos, left, m) && Span(toks, m + 1, right, q) && OpRank(op) == Rank(l) {
      OpOfRank(op, l);
    }
  }

  /** An operand of a level parses a spelt expression binding strictly tighter, when no operator of a lower level follows. */
  lemma {:induction false} OperandParses(toks: seq<Token>, pos: nat, l: Level, e: Expr, q: nat)
    ensures Span(toks, pos, e, q) && Shaped(e) && TopRank(e) < Rank(l) && Spells(toks, pos, e) && NoOperatorUpTo(toks, q, Rank(l) - 1) ==>
            POperand(toks, pos, l) == PResult(Some(e), q)
    decreases e, Stage(l, 1)
  {
    if l == Factor {
      UnaryParses(toks, pos, e, q);
    } else {
      BinaryParses(toks, pos, Lower(l), e, q);
    }
  }

  /** `parse_unary` parses a spelt expression that is no bare binary node, whatever follows it. */
  lemma {:induction false} UnaryParses(toks: seq<Token>, pos: nat, e: Expr, q: nat)
    ensures Span(toks, pos, e, q) && Shaped(e) && TopRank(e) == 0 && Spells(toks, pos, e) ==> PUnary(toks, pos) == PResult(Some(e), q)
    decreases e, 3
  {
    if e.Unary? {
      UnaryParses(toks, pos + 1, e.operand, q);
    } else {
      PrimaryParses(toks, pos, e, q);
    }
  }

  /** `parse_primary` parses a spelt literal, variable or grouping, whatever follows it. */
  lemma {:induction false} PrimaryParses(toks: seq<Token>, pos: nat, e: Expr, q: nat)
    ensures Span(toks, pos, e, q) && Shaped(e) && !e.Binary? && !e.Unary? && Spells(toks, pos, e) ==> PPrimary(toks, pos) == PResult(Some(e), q)
    decreases e, 2
  {
    if e.Grouping? {
      GroupingParses(toks, pos, e.inner, q);
    } else if e.Lit? || e.Variable? {
      LeafParses(toks, pos, e, q);
    }
  }

  /** `parse_primary` parses a spelt grouping: `(`, the inner expression `x`, `)`. */
  lemma {:induction false} GroupingParses(toks: seq<Token>, pos: nat, x: Expr, q: nat)
    ensures Span(toks, pos, Grouping(x), q) && Shaped(Grouping(x)) && Spells(toks, pos, Grouping(x)) ==>
            PPrimary(toks, pos) == PResult(Some(Grouping(x)), q)
    decreases Grouping(x), 1
  {
    GroupParts(toks, pos, x, q);
    if q >= 1 {
      BinaryParses(toks, pos + 1, Equality, x, q - 1);
      GroupStep(toks, pos, x, q);
    }
  }

  /** What a well-shaped, spelt grouping says about its parentheses and its inner expression. */
  lemma GroupParts(toks: seq<Token>, pos: nat, x: Expr, q: nat)
    ensures Span(toks, pos, Grouping(x), q) && Shaped(Grouping(x)) && Spells(toks, pos, Grouping(x)) ==>
            && q >= 1 && Span(toks, pos + 1, x, q - 1)
            && toks[pos].kind == LEFT_PAREN && toks[q - 1].kind == RIGHT_PAREN
            && Shaped(x) && TopRank(x) <= Rank(Equality) && Spells(toks, pos + 1, x) && NoOperatorUpTo(toks, q - 1, Rank(Equality))
  {
  }

  /** `(` at `pos`, an expression read up to `q - 1` and `)` there make a grouping up to `q`. */
  lemma GroupStep(toks: seq<Token>, pos: nat, x: Expr, q: nat)
    ensures && q >= 1 && Span(toks, pos + 1, x, q - 1)
            && toks[pos].kind == LEFT_PAREN && toks[q - 1].kind == RIGHT_PAREN
            && PBinary(toks, pos + 1, Equality) == PResult(Some(x), q - 1)
            ==> PPrimary(toks, pos) == PResult(Some(Grouping(x)), q)
  {
    if q >= 1 && Span(toks, pos + 1, x, q - 1) {
      assert PExpression(toks, pos + 1) == PBinary(toks, pos + 1, Equality);
    }
  }

  /** `parse_primary` parses a spelt literal or variable from its one token. */
  lemma LeafParses(toks: seq<Token>, pos: nat, e: Expr, q: nat)
    requires e.Lit? || e.Variable?
    ensures Span(toks, pos, e, q) && Spells(toks, pos, e) ==> PPrimary(toks, pos) == PResult(Some(e), q)
  {
  }

  /**
    `e` is what `parse_expression` reads from `pos`: the tokens from `pos`
    spell it in the shape precedence climbing builds, and the token after
    them is no binary operator.
  */
  predicate Parseable(toks: seq<Token>, pos: nat, e: Expr)
  {
    pos + Size(e) < |toks| && Shaped(e) && Spells(toks, pos, e) && NoOperatorUpTo(toks, pos + Size(e), 4)
  }

  /** `parse_expression` and spelling are inverse: it returns `e` exactly when the tokens from `pos` spell `e`. */
  lemma ExpressionParsesIff(toks: seq<Token>, pos: nat, e: Expr)
    requires EofTerminated(toks) && pos < |toks|
    ensures PExpression(toks, pos).e == Some(e) <==> Parseable(toks, pos, e)
  {
    ParsedIsSpelt(toks, pos, e);
    ParseableParts(toks, pos, e);
    BinaryParses(toks, pos, Equality, e, pos + Size(e));
  }

  /** What `Parseable` says, in the terms the loosest level's lemma takes. */
  lemma ParseableParts(toks: seq<Token>, pos: nat, e: Expr)
    requires EofTerminated(toks)
    ensures Parseable(toks, pos, e) ==>
            && Span(toks, pos, e, pos + Size(e)) && Shaped(e) && TopRank(e) <= Rank(Equality) && Spells(toks, pos, e)
            && NoOperatorUpTo(toks, pos + Size(e), Rank(Equality))
  {
  }

  /** The forward half of `ExpressionParsesIff`: what `parse_expression` returns is well shaped and spelt by the tokens it consumed. */
  lemma ParsedIsSpelt(toks: seq<Token>, pos: nat, e: Expr)
    requires EofTerminated(toks) && pos < |toks|
    ensures PExpression(toks, pos).e == Some(e) ==> Parseable(toks, pos, e)
  {
    ExpressionSpells(toks, pos);
    ExpressionShaped(toks, pos);
  }

  /** A statement parse result: the statement (None for -1) and the cursor after the call. */
  datatype SResult = SResult(s: Option<Stmt>, pos: nat)

  /** A statement result that stays in bounds and, when it succeeds, ends just after a `;`. */
  predicate StmtParsed(toks: seq<Token>, pos: nat, r: SResult)
  {
    && pos <= r.pos < |toks|
    && (r.s.Some? ==> 0 < r.pos && toks[r.pos - 1].kind == SEMICOLON)
  }

  /** `parse_expr_stmt`: an expression and a `;`. */
  function PExprStmt(toks: seq<Token>, pos: nat): (r: SResult)
    requires EofTerminated(toks) && pos < |toks|
    ensures StmtParsed(toks, pos, r)
    ensures !AtEof(toks, pos) ==> pos < r.pos
    ensures r.s.Some? ==> r.s.value.ExprStmt?
  {
    var o := PExpression(toks, pos);
    if o.e.None? then SResult(None, o.pos)
    else if Check(toks, o.pos, SEMICOLON) then SResult(Some(ExprStmt(o.e.value)), o.pos + 1)
    else SResult(None, o.pos)
  }

  /** `parse_print_stmt`: the `print` keyword is already consumed; an expression and a `;`. */
  function PPrintStmt(toks: seq<Token>, pos: nat): (r: SResult)
    requires EofTerminated(toks) && pos < |toks|
    ensures StmtParsed(toks, pos, r)
    ensures !AtEof(toks, pos) ==> pos < r.pos
    ensures r.s.Some? ==> r.s.value.PrintStmt?
  {
    var o := PExpression(toks, pos);
    if o.e.None? then SResult(None, o.pos)
    else if Check(toks, o.pos, SEMICOLON) then SResult(Some(PrintStmt(o.e.value)), o.pos + 1)
    else SResult(None, o.pos)
  }

  /** `parse_stmt`: a print statement after `print`, else an expression statement. */
  function PStmt(toks: seq<Token>, pos: nat): (r: SResult)
    requires EofTerminated(toks) && pos < |toks|
    ensures StmtParsed(toks, pos, r)
    ensures !AtEof(toks, pos) ==> pos < r.pos
    ensures r.s.Some? ==> (r.s.value.PrintStmt? <==> Check(toks, pos, PRINT))
  {
    if Check(toks, pos, PRINT) then PPrintStmt(toks, pos + 1) else PExprStmt(toks, pos)
  }

  /**
    `parse_var_decl` as written: a failed initializer expression leaves the
    initializer NULL and the declaration still succeeds if a `;` follows.
  */
  function PVarDeclAsWritten(toks: seq<Token>, pos: nat): SResult
    requires EofTerminated(toks) && pos < |toks|
  {
    if !Check(toks, pos, IDENTIFIER) then SResult(None, pos)
    else
      var p := pos + 1;
      var init := if Check(toks, p, EQUAL) then PExpression(toks, p + 1) else PResult(None, p);
      if Check(toks, init.pos, SEMICOLON) then SResult(Some(VarDecl(toks[pos].lexeme, init.e)), init.pos + 1)
      else SResult(None, init.pos)
  }

  /**
    `parse_var_decl` (after `var`): a name, an optional `= expression`, a `;`.
    A failed initializer fails the declaration.
  */
  function PVarDecl(toks: seq<Token>, pos: nat): (r: SResult)
    requires EofTerminated(toks) && pos < |toks|
    ensures StmtParsed(toks, pos, r)
    ensures r.s.Some? ==> && r.s.value.VarDecl?
                          && r.s.value.name == toks[pos].lexeme && Check(toks, pos, IDENTIFIER)
                          && (r.s.value.init.Some? <==> Check(toks, pos + 1, EQUAL))
  {
    if !Check(toks, pos, IDENTIFIER) then SResult(None, pos)
    else
      var p := pos + 1;
      if Check(toks, p, EQUAL) then
        var o := PExpression(toks, p + 1);
        if o.e.None? then SResult(None, o.pos)
        else if Check(toks, o.pos, SEMICOLON) then SResult(Some(VarDecl(toks[pos].lexeme, o.e)), o.pos + 1)
        else SResult(None, o.pos)
      else if Check(toks, p, SEMICOLON) then SResult(Some(VarDecl(toks[pos].lexeme, None)), p + 1)
      else SResult(None, p)
  }

  /** The keywords `parser_synchronize` stops in front of. */
  predicate StatementKeyword(k: TokenKind)
  {
    k == CLASS || k == FUN || k == VAR || k == FOR || k == IF || k == WHILE || k == PRINT || k == RETURN
  }

  /** Where the synchronisation loop may stop: at TT_EOF, after a `;`, or before a statement keyword. */
  predicate SyncPoint(toks: seq<Token>, p: nat)
    requires p < |toks|
  {
    AtEof(toks, p) || (p > 0 && toks[p - 1].kind == SEMICOLON) || StatementKeyword(toks[p].kind)
  }

  /** The loop of `parser_synchronize`: advance to the first sync point. */
  function SyncFrom(toks: seq<Token>, p: nat): (q: nat)
    requires EofTerminated(toks) && p < |toks|
    ensures p <= q < |toks| && SyncPoint(toks, q)
    ensures forall k :: p <= k < q ==> !SyncPoint(toks, k)
    decreases |toks| - p
  {
    if SyncPoint(toks, p) then p else SyncFrom(toks, Advance(toks, p))
  }

  /** `parser_synchronize`: skip one token, then advance to the first sync point. */
  function Synchronize(toks: seq<Token>, pos: nat): (q: nat)
    requires EofTerminated(toks) && pos < |toks|
    ensures Advance(toks, pos) <= q < |toks| && SyncPoint(toks, q)
    ensures forall k :: Advance(toks, pos) <= k < q ==> !SyncPoint(toks, k)
  {
    SyncFrom(toks, Advance(toks, pos))
  }

  /** `parse_decl`: a `var` declaration (synchronising after a failure) or a statement. */
  function PDecl(toks: seq<Token>, pos: nat): (r: SResult)
    requires EofTerminated(toks) && pos < |toks|
    ensures pos <= r.pos < |toks|
    ensures !AtEof(toks, pos) ==> pos < r.pos
    ensures r.s.Some? ==> (r.s.value.VarDecl? <==> Check(toks, pos, VAR))
  {
    if Check(toks, pos, VAR) then
      var d := PVarDecl(toks, pos + 1);
      if d.s.None? then SResult(None, Synchronize(toks, d.pos)) else d
    else PStmt(toks, pos)
  }

  /** The `parse_tokens` loop: every successful declaration, in order, until TT_EOF. */
  function PProgram(toks: seq<Token>, pos: nat): (ss: seq<Stmt>)
    requires EofTerminated(toks) && pos < |toks|
    decreases |toks| - pos
  {
    if AtEof(toks, pos) then []
    else
      var d := PDecl(toks, pos);
      (if d.s.Some? then [d.s.value] else []) + PProgram(toks, d.pos)
  }

  /** `parse_decl` as written: over `PVarDeclAsWritten`, so a failed initializer does not fail the declaration. */
  function PDeclAsWritten(toks: seq<Token>, pos: nat): (r: SResult)
    requires EofTerminated(toks) && pos < |toks|
    ensures pos <= r.pos < |toks|
    ensures !AtEof(toks, pos) ==> pos < r.pos
    ensures r.s.Some? ==> (r.s.value.VarDecl? <==> Check(toks, pos, VAR))
  {
    if Check(toks, pos, VAR) then
      var d := PVarDeclAsWritten(toks, pos + 1);
      if d.s.None? then SResult(None, Synchronize(toks, d.pos)) else d
    else PStmt(toks, pos)
  }

  /** `parse_tokens` as written: the loop over `PDeclAsWritten`. */
  function PProgramAsWritten(toks: seq<Token>, pos: nat): (ss: seq<Stmt>)
    requires EofTerminated(toks) && pos < |toks|
    decreases |toks| - pos
  {
    if AtEof(toks, pos) then []
    else
      var d := PDeclAsWritten(toks, pos);
      (if d.s.Some? then [d.s.value] else []) + PProgramAsWritten(toks, d.pos)
  }

  /** One turn of the `parse_tokens` loop: the statements from `pos` are the first declaration's, then the rest. */
  lemma ProgramStep(toks: seq<Token>, pos: nat, kept: seq<Stmt>, s: Option<Stmt>, next: nat)
    requires EofTerminated(toks) && pos < |toks| && !AtEof(toks, pos)
    requires SResult(s, next) == PDecl(toks, pos)
    ensures next < |toks|
    ensures s.Some? ==> (kept + [s.value]) + PProgram(toks, next) == kept + PProgram(toks, pos)
    ensures s.None? ==> kept + PProgram(toks, next) == kept + PProgram(toks, pos)
  {
    var rest := PProgram(toks, next);
    assert PProgram(toks, pos) == (if s.Some? then [s.value] else []) + rest;
    if s.Some? {
      assert (kept + [s.value]) + rest == kept + ([s.value] + rest);
    } else {
      assert [] + rest == rest;
    }
  }

  /** Every turn of `parse_tokens` consumes a token, so there are at most as many statements as tokens before TT_EOF. */
  lemma {:induction false} ProgramBounded(toks: seq<Token>, pos: nat)
    requires EofTerminated(toks) && pos < |toks|
    ensures |PProgram(toks, pos)| <= |toks| - 1 - pos
    decreases |toks| - pos
  {
    if !AtEof(toks, pos) {
      var d := PDecl(toks, pos);
      ProgramBounded(toks, d.pos);
    }
  }

  /** A failed `var` declaration consumes at least the `var` and stops at a sync point. */
  lemma FailedDeclSynchronizes(toks: seq<Token>, pos: nat)
    requires EofTerminated(toks) && pos < |toks| && Check(toks, pos, VAR)
    requires PVarDecl(toks, pos + 1).s.None?
    ensures var r := PDecl(toks, pos);
            r.s.None? && pos < r.pos && SyncPoint(toks, r.pos)
  {
  }

  /** The tokens of `var x = (1;`. */
  function UnclosedInitializer(): (toks: seq<Token>)
    ensures EofTerminated(toks) && |toks| == 7
  {
    [ Token(VAR, "var", 1, NoPayload), Token(IDENTIFIER, "x", 1, NoPayload), Token(EQUAL, "=", 1, NoPayload),
      Token(LEFT_PAREN, "(", 1, NoPayload), Token(NUMBER, "1", 1, NumVal(1.0)),
      Token(SEMICOLON, ";", 1, NoPayload), Token(TT_EOF, "", 1, NoPayload) ]
  }

  /** In `(1;` the `1` parses as a whole expression that stops at the `;`. */
  lemma UnclosedGroupInner()
    ensures PExpression(UnclosedInitializer(), 4) == PResult(Some(Lit(LNumber(1.0))), 5)
  {
    var toks := UnclosedInitializer();
    var one := Lit(LNumber(1.0));
    assert PPrimary(toks, 4) == PResult(Some(one), 5);
    assert PUnary(toks, 4) == PResult(Some(one), 5);
    assert PBinary(toks, 4, Factor) == PResult(Some(one), 5);
    assert PBinary(toks, 4, Term) == PResult(Some(one), 5);
    assert PBinary(toks, 4, Comparison) == PResult(Some(one), 5);
  }

  /** In `(1;` the group is not closed, so the expression after `=` fails at the `;`. */
  lemma UnclosedGroupFails()
    ensures PExpression(UnclosedInitializer(), 3) == PResult(None, 5)
  {
    var toks := UnclosedInitializer();
    UnclosedGroupInner();
    assert PPrimary(toks, 3) == PResult(None, 5);
    assert PUnary(toks, 3) == PResult(None, 5);
    assert PBinary(toks, 3, Factor) == PResult(None, 5);
    assert PBinary(toks, 3, Term) == PResult(None, 5);
    assert PBinary(toks, 3, Comparison) == PResult(None, 5);
  }

  /** As written, `var x = (1;` is accepted as `var x;`; the corrected parser rejects it at the `;`. */
  lemma FailedInitializerAccepted()
    ensures PVarDeclAsWritten(UnclosedInitializer(), 1) == SResult(Some(VarDecl("x", None)), 6)
    ensures PVarDecl(UnclosedInitializer(), 1) == SResult(None, 5)
  {
    UnclosedGroupFails();
  }

  /** As written, the program `var x = (1;` parses to the declaration `var x;`; the corrected parser keeps nothing. */
  lemma ProgramKeepsFailedInitializer()
    ensures PProgramAsWritten(UnclosedInitializer(), 0) == [VarDecl("x", None)]
    ensures PProgram(UnclosedInitializer(), 0) == []
  {
    var toks := UnclosedInitializer();
    FailedInitializerAccepted();
    assert PDeclAsWritten(toks, 0) == SResult(Some(VarDecl("x", None)), 6);
    assert Synchronize(toks, 5) == 6;
    assert PDecl(toks, 0) == SResult(None, 6);
  }

  /** An expression spelt before a `;` parses as an expression statement ending after the `;`. */
  lemma ExprStmtParses(toks: seq<Token>, pos: nat, e: Expr)
    requires EofTerminated(toks) && pos + Size(e) < |toks|
    requires Shaped(e) && Spells(toks, pos, e) && toks[pos + Size(e)].kind == SEMICOLON
    ensures PExprStmt(toks, pos) == SResult(Some(ExprStmt(e)), pos + Size(e) + 1)
  {
    ExpressionParses(toks, pos, e);
  }

  /** `print`, an expression spelt after it and a `;` parse as a print statement. */
  lemma PrintStmtParses(toks: seq<Token>, pos: nat, e: Expr)
    requires EofTerminated(toks) && pos + 1 + Size(e) < |toks|
    requires toks[pos].kind == PRINT && Shaped(e) && Spells(toks, pos + 1, e) && toks[pos + 1 + Size(e)].kind == SEMICOLON
    ensures PStmt(toks, pos) == SResult(Some(PrintStmt(e)), pos + Size(e) + 2)
  {
    ExpressionParses(toks, pos + 1, e);
    PrintStmtStep(toks, pos, e, pos + 1 + Size(e));
  }

  /** A print statement whose expression parses up to a `;` at `q` ends after that `;`. */
  lemma PrintStmtStep(toks: seq<Token>, pos: nat, e: Expr, q: nat)
    requires EofTerminated(toks) && pos + 1 <= q < |toks|
    requires toks[pos].kind == PRINT && PExpression(toks, pos + 1) == PResult(Some(e), q) && toks[q].kind == SEMICOLON
    ensures PStmt(toks, pos) == SResult(Some(PrintStmt(e)), q + 1)
  {
    assert PPrintStmt(toks, pos + 1) == SResult(Some(PrintStmt(e)), q + 1);
  }

  /** `var`, a name, `=`, an expression spelt after it and a `;` parse as a declaration with that initializer. */
  lemma VarDeclParses(toks: seq<Token>, pos: nat, e: Expr)
    requires EofTerminated(toks) && pos + 3 + Size(e) < |toks|
    requires toks[pos].kind == VAR && toks[pos + 1].kind == IDENTIFIER && toks[pos + 2].kind == EQUAL
    requires Shaped(e) && Spells(toks, pos + 3, e) && toks[pos + 3 + Size(e)].kind == SEMICOLON
    ensures PDecl(toks, pos) == SResult(Some(VarDecl(toks[pos + 1].lexeme, Some(e))), pos + Size(e) + 4)
  {
    ExpressionParses(toks, pos + 3, e);
    InitializedDeclStep(toks, pos, e, pos + 3 + Size(e));
  }

  /** A declaration whose initializer parses up to a `;` at `q` ends after that `;`. */
  lemma InitializedDeclStep(toks: seq<Token>, pos: nat, e: Expr, q: nat)
    requires EofTerminated(toks) && pos + 3 <= q < |toks|
    requires toks[pos].kind == VAR && toks[pos + 1].kind == IDENTIFIER && toks[pos + 2].kind == EQUAL
    requires PExpression(toks, pos + 3) == PResult(Some(e), q) && toks[q].kind == SEMICOLON
    ensures PDecl(toks, pos) == SResult(Some(VarDecl(toks[pos + 1].lexeme, Some(e))), q + 1)
  {
    assert PVarDecl(toks, pos + 1) == SResult(Some(VarDecl(toks[pos + 1].lexeme, Some(e))), q + 1);
  }
}
