/**
  The recursive-descent parser of parser.c: a cursor over the token array
  and one method per `parse_...` function.

  Each method is proved to return what the matching function of
  `ParserSpec` computes and to leave the cursor where that function says.
  The four binary levels (`parse_factor`, `parse_term`, `parse_comparison`,
  `parse_equality`) share one loop, `ParseBinary(l)`, parameterised by the
  level. The arena `mem` the C parser allocates nodes from is not part of
  this class: nodes are datatype values.
*/
module Parser {
  import opened Wrappers
  import opened Tokens
  import opened Ast
  import opened ParserSpec
  import TokenArray
  import Statements

  class ParserState {
    const tokens: seq<Token>
    var cur: nat

    /** `parser_ASSERT`: the cursor is on a token; the last token is TT_EOF. */
    ghost predicate Valid()
      reads this
    {
      EofTerminated(tokens) && cur < |tokens|
    }

    /** `parser_create`: the cursor at the first token. */
    constructor (tokens: seq<Token>)
      requires EofTerminated(tokens)
      ensures Valid() && this.tokens == tokens && cur == 0
    {
      this.tokens := tokens;
      cur := 0;
    }

    /** `parser_end`. */
    function AtEnd(): (r: bool)
      reads this
      requires Valid()
      ensures r <==> AtEof(tokens, cur)
    {
      tokens[cur].kind == TT_EOF
    }

    /** `parser_prev_t`: the token just consumed. */
    function PrevToken(): (t: Token)
      reads this
      requires Valid() && cur > 0
      ensures t == tokens[cur - 1]
    {
      tokens[cur - 1]
    }

    /** `parser_check`: the next token has kind `k` and is not TT_EOF. */
    function CheckKind(k: TokenKind): (r: bool)
      reads this
      requires Valid()
      ensures r <==> Check(tokens, cur, k)
    {
      if AtEnd() then false else tokens[cur].kind == k
    }

    /** `parser_advance`: step over the next token unless it is TT_EOF, returning its kind. */
    method Advance() returns (k: TokenKind)
      requires Valid()
      modifies this
      ensures Valid() && cur == ParserSpec.Advance(tokens, old(cur))
      ensures k == tokens[old(cur)].kind
    {
      if AtEnd() {
        return TT_EOF;
      }
      k := tokens[cur].kind;
      cur := cur + 1;
    }

    /** `parser_match`: try each kind in turn; on the first that checks, advance. */
    method Match(kinds: seq<TokenKind>) returns (matched: bool)
      requires Valid()
      modifies this
      ensures Valid() && (matched <==> Matches(tokens, old(cur), kinds))
      ensures cur == old(cur) + (if matched then 1 else 0)
    {
      for i := 0 to |kinds|
        invariant cur == old(cur)
        invariant forall j :: 0 <= j < i ==> !Check(tokens, cur, kinds[j])
      {
        var ok := CheckKind(kinds[i]);
        if ok {
          var _ := Advance();
          return true;
        }
      }
      return false;
    }

    /** `parser_synchronize`: skip a token, then stop at TT_EOF, after a `;` or before a statement keyword. */
    method Synchronize()
      requires Valid()
      modifies this
      ensures Valid() && cur == ParserSpec.Synchronize(tokens, old(cur))
    {
      var _ := Advance();
      ghost var from := cur;
      while !AtEnd()
        invariant Valid() && from <= cur
        invariant cur > 0 || AtEof(tokens, cur)
        invariant SyncFrom(tokens, cur) == SyncFrom(tokens, from)
        decreases |tokens| - cur
      {
        if PrevToken().kind == SEMICOLON {
          return;
        }
        if StatementKeyword(tokens[cur].kind) {
          return;
        }
        var _ := Advance();
      }
    }

    /** `parse_expression`: `parse_equality`. */
    method ParseExpression() returns (e: Option<Expr>)
      requires Valid()
      modifies this
      ensures Valid() && PResult(e, cur) == PExpression(tokens, old(cur))
      decreases |tokens| - cur, 17
    {
      e := ParseBinary(Equality);
    }

    /** `parse_factor`, `parse_term`, `parse_comparison`, `parse_equality`: an operand, then fold while an operator of the level follows. */
    method ParseBinary(l: Level) returns (e: Option<Expr>)
      requires Valid()
      modifies this
      ensures Valid() && PResult(e, cur) == PBinary(tokens, old(cur), l)
      decreases |tokens| - cur, 4 * Rank(l)
    {
      var first := ParseOperand(l);
      if first.None? {
        return None;
      }
      var acc := first.value;
      while true
        invariant Valid() && old(cur) <= cur
        invariant PFold(tokens, cur, l, acc) == PBinary(tokens, old(cur), l)
        decreases |tokens| - cur
      {
        var more, r := FoldTurn(l, acc);
        if !more {
          return r;
        }
        acc := r.value;
      }
    }

    /**
      One turn of a level's `while (parser_match(...))` loop: stop when no
      operator of the level follows; otherwise parse the right operand and
      build the node. `more` is false once the loop is over, with `r` the
      level's result.
    */
    method FoldTurn(l: Level, acc: Expr) returns (more: bool, r: Option<Expr>)
      requires Valid()
      modifies this
      ensures Valid() && old(cur) <= cur
      ensures !more ==> PResult(r, cur) == PFold(tokens, old(cur), l, acc)
      ensures more ==> && r.Some? && old(cur) < cur
                       && PFold(tokens, cur, l, r.value) == PFold(tokens, old(cur), l, acc)
      decreases |tokens| - cur, 4 * Rank(l) - 1
    {
      ghost var at := cur;
      var ops := Ops(l);
      var matched := Match(ops);
      if !matched {
        return false, Some(acc);
      }
      var op := PrevToken().kind;
      OpRankOfLevel(op, l);
      ghost var next := POperand(tokens, at + 1, l);
      assert PFold(tokens, at, l, acc) == if next.e.None? then PResult(None, next.pos) else PFold(tokens, next.pos, l, Binary(acc, op, next.e.value));
      var right := ParseOperand(l);
      if right.None? {
        return false, None;
      }
      return true, Some(Binary(acc, op, right.value));
    }

    /** The operand of a level: `parse_unary` under factor, the next level's function otherwise. */
    method ParseOperand(l: Level) returns (e: Option<Expr>)
      requires Valid()
      modifies this
      ensures Valid() && PResult(e, cur) == POperand(tokens, old(cur), l)
      decreases |tokens| - cur, 4 * Rank(l) - 2
    {
      if l == Factor {
        e := ParseUnary();
      } else {
        e := ParseBinary(Lower(l));
      }
    }

    /** `parse_unary`. */
    method ParseUnary() returns (e: Option<Expr>)
      requires Valid()
      modifies this
      ensures Valid() && PResult(e, cur) == PUnary(tokens, old(cur))
      decreases |tokens| - cur, 1
    {
      ghost var at := cur;
      var m := Match([BANG, MINUS]);
      if m {
        var op := PrevToken().kind;
        ghost var next := PUnary(tokens, at + 1);
        assert PUnary(tokens, at) == if next.e.None? then PResult(None, next.pos) else PResult(Some(Unary(op, next.e.value)), next.pos);
        var x := ParseUnary();
        if x.None? {
          return None;
        }
        return Some(Unary(op, x.value));
      }
      assert PUnary(tokens, at) == PPrimary(tokens, at);
      e := ParsePrimary();
    }

    /** `parse_primary`. */
    method ParsePrimary() returns (e: Option<Expr>)
      requires Valid()
      modifies this
      ensures Valid() && PResult(e, cur) == PPrimary(tokens, old(cur))
      decreases |tokens| - cur, 0
    {
      ghost var at := cur;
      var m := Match([TRUE]);
      if m { return Some(Lit(LTrue)); }
      m := Match([FALSE]);
      if m { return Some(Lit(LFalse)); }
      m := Match([NIL]);
      if m { return Some(Lit(LNil)); }
      m := Match([STRING]);
      if m { return Some(Lit(LString(StrValOf(PrevToken())))); }
      m := Match([NUMBER]);
      if m { return Some(Lit(LNumber(NumValOf(PrevToken())))); }
      m := Match([IDENTIFIER]);
      if m { return Some(Variable(PrevToken().lexeme)); }
      m := Match([LEFT_PAREN]);
      if m {
        ghost var o := PExpression(tokens, at + 1);
        assert PPrimary(tokens, at) == if o.e.None? then PResult(None, o.pos)
          else if Check(tokens, o.pos, RIGHT_PAREN) then PResult(Some(Grouping(o.e.value)), o.pos + 1)
          else PResult(None, o.pos);
        var inner := ParseExpression();
        if inner.None? {
          return None;
        }
        if CheckKind(RIGHT_PAREN) {
          var _ := Advance();
          return Some(Grouping(inner.value));
        }
        return None;
      }
      assert PPrimary(tokens, at) == PResult(None, ParserSpec.Advance(tokens, at));
      var _ := Advance();
      return None;
    }

    /** `parse_print_stmt`: the `print` is already consumed; an expression, then `;`. */
    method ParsePrintStmt() returns (s: Option<Stmt>)
      requires Valid()
      modifies this
      ensures Valid() && SResult(s, cur) == PPrintStmt(tokens, old(cur))
    {
      var e := ParseExpression();
      if e.None? {
        return None;
      }
      var semi := Match([SEMICOLON]);
      if semi {
        return Some(PrintStmt(e.value));
      }
      return None;
    }

    /** `parse_expr_stmt`: an expression, then `;`. */
    method ParseExprStmt() returns (s: Option<Stmt>)
      requires Valid()
      modifies this
      ensures Valid() && SResult(s, cur) == PExprStmt(tokens, old(cur))
    {
      var e := ParseExpression();
      if e.None? {
        return None;
      }
      var semi := Match([SEMICOLON]);
      if semi {
        return Some(ExprStmt(e.value));
      }
      return None;
    }

    /** `parse_stmt`. */
    method ParseStmt() returns (s: Option<Stmt>)
      requires Valid()
      modifies this
      ensures Valid() && SResult(s, cur) == PStmt(tokens, old(cur))
    {
      var isPrint := Match([PRINT]);
      if isPrint {
        s := ParsePrintStmt();
      } else {
        s := ParseExprStmt();
      }
    }

    /** `parse_var_decl` with a failed initializer failing the declaration. */
    method ParseVarDecl() returns (s: Option<Stmt>)
      requires Valid()
      modifies this
      ensures Valid() && SResult(s, cur) == PVarDecl(tokens, old(cur))
    {
      var named := Match([IDENTIFIER]);
      if !named {
        return None;
      }
      var name := PrevToken().lexeme;
      var init: Option<Expr> := None;
      var eq := Match([EQUAL]);
      if eq {
        init := ParseExpression();
        if init.None? {
          return None;
        }
      }
      var semi := Match([SEMICOLON]);
      if !semi {
        return None;
      }
      return Some(VarDecl(name, init));
    }

    /** `parse_decl`: after `var`, a declaration, synchronising when it fails; otherwise a statement. */
    method ParseDecl() returns (s: Option<Stmt>)
      requires Valid()
      modifies this
      ensures Valid() && SResult(s, cur) == PDecl(tokens, old(cur))
    {
      ghost var at := cur;
      var isVar := Match([VAR]);
      if isVar {
        ghost var d := PVarDecl(tokens, at + 1);
        assert PDecl(tokens, at) == if d.s.None? then SResult(None, ParserSpec.Synchronize(tokens, d.pos)) else d;
        s := ParseVarDecl();
        if s.None? {
          Synchronize();
        }
      } else {
        assert PDecl(tokens, at) == PStmt(tokens, at);
        s := ParseStmt();
      }
    }
  }

  /** `parse_tokens`: parse declarations until TT_EOF, keeping the successful ones in order. */
  method ParseTokens(arr: TokenArray.TokenArr) returns (ret: Statements.StmtArr)
    requires arr.Valid() && EofTerminated(arr.Contents())
    ensures fresh(ret) && ret.Valid() && ret.Contents() == PProgram(arr.Contents(), 0)
  {
    var p := new ParserState(arr.tokens[..arr.len]);
    ret := new Statements.StmtArr();
    while !p.AtEnd()
      invariant p.Valid() && p.tokens == arr.Contents()
      invariant fresh(ret) && fresh(ret.stmts) && ret.Valid() && ret.stmts.Length > 0
      invariant ret.Contents() + PProgram(p.tokens, p.cur) == PProgram(p.tokens, 0)
      decreases |p.tokens| - p.cur
    {
      ghost var at := p.cur;
      ghost var kept := ret.Contents();
      var s := p.ParseDecl();
      if s.Some? {
        ret.Push(s.value);
      }
      ProgramStep(p.tokens, at, kept, s, p.cur);
    }
  }
}
