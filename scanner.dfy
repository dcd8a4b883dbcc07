/**
  The scanner of scanner.c: a cursor over the source text that pushes one
  token per lexeme into a token array.

  `data` is the C string up to (not including) its terminating NUL, so it
  holds no NUL; `CharOrNul(i)` reads that terminator at `i == |data|`. Each
  method is proved to do what the matching function of `ScannerSpec` says.
*/
module Scanner {
  import opened Wrappers
  import opened Tokens
  import opened ScannerSpec
  import TokenArray

  class ScannerState {
    const data: string
    var start: nat
    var current: nat
    var line: nat
    var error: bool

    /** `scanner_state_ASSERT`: the lexeme start never passes the cursor. */
    ghost predicate Valid()
      reads this
    {
      start <= current <= |data| && NoNul(data)
    }

    /** `scanner_state_create`: both cursors at 0, line 1, no error. */
    constructor (data: string)
      requires NoNul(data)
      ensures Valid() && this.data == data
      ensures start == 0 && current == 0 && line == 1 && !error
    {
      this.data := data;
      start := 0;
      current := 0;
      line := 1;
      error := false;
    }

    /** The character at `i`, or the terminating NUL at the end. */
    function CharOrNul(i: nat): char
      requires i <= |data|
    {
      if i < |data| then data[i] else '\0'
    }

    /** `ss_end`: the cursor is on the terminating NUL. */
    function AtEnd(): (r: bool)
      reads this
      requires Valid()
      ensures r <==> current == |data|
    {
      CharOrNul(current) == '\0'
    }

    /** `ss_peek_ch`. */
    function PeekCh(): (c: char)
      reads this
      requires Valid()
      ensures c == '\0' <==> current == |data|
      ensures current < |data| ==> c == data[current]
    {
      CharOrNul(current)
    }

    /** `ss_peek2_ch`: the character after the cursor, NUL when there is none. */
    function Peek2Ch(): (c: char)
      reads this
      requires Valid()
      ensures c == (if current + 1 < |data| then data[current + 1] else '\0')
    {
      if AtEnd() || CharOrNul(current + 1) == '\0' then '\0' else data[current + 1]
    }

    /** `ss_next_ch`: consume one character. */
    method NextCh() returns (c: char)
      requires Valid() && !AtEnd()
      modifies this
      ensures Valid() && c == data[old(current)] && current == old(current) + 1
      ensures start == old(start) && line == old(line) && error == old(error)
    {
      c := data[current];
      current := current + 1;
    }

    /** `ss_match_ch`: consume `c` if it is next. */
    method MatchCh(c: char) returns (matched: bool)
      requires Valid()
      modifies this
      ensures Valid() && (matched <==> CharAt(data, old(current), c))
      ensures current == old(current) + (if matched then 1 else 0)
      ensures start == old(start) && line == old(line) && error == old(error)
    {
      if AtEnd() {
        return false;
      }
      if data[current] == c {
        current := current + 1;
        return true;
      }
      return false;
    }

    /** `ss_parse_string`: consume up to and including the closing quote, counting newlines; flag an unterminated string. */
    method ParseString()
      requires Valid()
      modifies this
      ensures Valid() && start == old(start)
      ensures var q := SkipWhile(data, old(current), NotQuote);
              && current == (if q == |data| then q else q + 1)
              && line == old(line) + CountNewlines(data[old(current)..q])
              && error == (old(error) || q == |data|)
    {
      ghost var from := current;
      while !AtEnd() && PeekCh() != '"'
        invariant Valid() && from <= current && start == old(start) && error == old(error)
        invariant SkipWhile(data, current, NotQuote) == SkipWhile(data, from, NotQuote)
        invariant line == old(line) + CountNewlines(data[from..current])
        decreases |data| - current
      {
        if PeekCh() == '\n' {
          line := line + 1;
        }
        CountNewlinesExtend(data, from, current);
        var _ := NextCh();
      }
      if AtEnd() {
        error := true;
        return;
      }
      var _ := NextCh();
    }

    /** `ss_parse_number`: digits, then a `.` and more digits only when a digit follows the `.`. */
    method ParseNumber()
      requires Valid()
      modifies this
      ensures Valid() && current == NumberEnd(data, old(current))
      ensures start == old(start) && line == old(line) && error == old(error)
    {
      ghost var from := current;
      while IsDigit(PeekCh())
        invariant Valid() && from <= current
        invariant start == old(start) && line == old(line) && error == old(error)
        invariant SkipWhile(data, current, Digits) == SkipWhile(data, from, Digits)
        decreases |data| - current
      {
        var _ := NextCh();
      }
      if PeekCh() == '.' && IsDigit(Peek2Ch()) {
        var _ := NextCh();
        ghost var frac := current;
        while IsDigit(PeekCh())
          invariant Valid() && frac <= current
          invariant start == old(start) && line == old(line) && error == old(error)
          invariant SkipWhile(data, current, Digits) == SkipWhile(data, frac, Digits)
          decreases |data| - current
        {
          var _ := NextCh();
        }
      }
    }

    /** `ss_parse_ident`: consume letters, digits and `_`, then classify the lexeme as a keyword or IDENTIFIER. */
    method ParseIdent() returns (kind: TokenKind)
      requires Valid()
      modifies this
      ensures Valid() && current == SkipWhile(data, old(current), AlphaNums)
      ensures kind == IdentKind(data[start..current])
      ensures start == old(start) && line == old(line) && error == old(error)
    {
      ghost var from := current;
      while IsAlphaNum(PeekCh())
        invariant Valid() && from <= current
        invariant start == old(start) && line == old(line) && error == old(error)
        invariant SkipWhile(data, current, AlphaNums) == SkipWhile(data, from, AlphaNums)
        decreases |data| - current
      {
        var _ := NextCh();
      }
      var keyword := Keyword(data[start..current]);
      if keyword.None? {
        return IDENTIFIER;
      }
      return keyword.value;
    }

    /** `ss_next_tt`: scan one lexeme starting at the cursor; None stands for the C code's -1. */
    method NextTokenKind() returns (kind: Option<TokenKind>)
      requires Valid() && !AtEnd() && start == current
      modifies this
      ensures Valid() && start == old(start)
      ensures var st := NextToken(data, old(current), old(line));
              && kind == st.kind && current == st.next && line == st.line
              && error == (old(error) || st.error)
    {
      var c := NextCh();
      if c == '(' { return Some(LEFT_PAREN); }
      if c == ')' { return Some(RIGHT_PAREN); }
      if c == '{' { return Some(LEFT_BRACE); }
      if c == '}' { return Some(RIGHT_BRACE); }
      if c == ',' { return Some(COMMA); }
      if c == '.' { return Some(DOT); }
      if c == '-' { return Some(MINUS); }
      if c == '+' { return Some(PLUS); }
      if c == ';' { return Some(SEMICOLON); }
      if c == '*' { return Some(STAR); }
      if c == '!' || c == '=' || c == '<' || c == '>' {
        var eq := MatchCh('=');
        kind := Some(OperatorKind(c, eq));
        return;
      }
      if c == '/' {
        var comment := MatchCh('/');
        if comment {
          ghost var from := current;
          while !AtEnd() && PeekCh() != '\n'
            invariant Valid() && from <= current
            invariant start == old(start) && line == old(line) && error == old(error)
            invariant SkipWhile(data, current, NotNewline) == SkipWhile(data, from, NotNewline)
            decreases |data| - current
          {
            var _ := NextCh();
          }
          return None;
        }
        return Some(SLASH);
      }
      if IsWhitespace(c) {
        return None;
      }
      if c == '\n' {
        line := line + 1;
        return None;
      }
      if c == '"' {
        ParseString();
        return Some(STRING);
      }
      if IsDigit(c) {
        ParseNumber();
        return Some(NUMBER);
      }
      if IsAlpha(c) {
        var k := ParseIdent();
        return Some(k);
      }
      error := true;
      return None;
    }

    /** The kind of `!`, `=`, `<` or `>`, with or without a following `=`. */
    static function OperatorKind(c: char, eq: bool): TokenKind
      requires c == '!' || c == '=' || c == '<' || c == '>'
    {
      if c == '!' then (if eq then BANG_EQUAL else BANG)
      else if c == '=' then (if eq then EQUAL_EQUAL else EQUAL)
      else if c == '<' then (if eq then LESS_EQUAL else LESS)
      else (if eq then GREATER_EQUAL else GREATER)
    }

    /** One turn of the `ss_parse` loop: mark the lexeme start, scan a lexeme and push its token if it yields one. */
    method ParseStep(t: TokenArray.TokenArr)
      requires Valid() && !AtEnd() && t.Valid() && t.tokens.Length > 0
      modifies this, t, t.tokens
      ensures Valid() && t.Valid() && t.tokens.Length > 0
      ensures t.tokens == old(t.tokens) || fresh(t.tokens)
      ensures current > old(current)
      ensures var before := ScanFrom(data, old(start), old(current), old(line));
              var after := ScanFrom(data, start, current, line);
              && t.Contents() + after.tokens == old(t.Contents()) + before.tokens
              && (error || after.error) == (old(error) || before.error)
    {
      ghost var s0, pos, l0, e0, before := start, current, line, error, t.Contents();
      start := current;
      var kind := NextTokenKind();
      PushLexeme(t, kind);
      StepAccounts(data, s0, pos, l0, e0, before, kind, current, line, error, t.Contents());
    }

    /** Push the token of the lexeme between `start` and the cursor, if the step yielded a kind. */
    method PushLexeme(t: TokenArray.TokenArr, kind: Option<TokenKind>)
      requires Valid() && t.Valid() && t.tokens.Length > 0
      modifies t, t.tokens
      ensures t.Valid() && t.tokens.Length > 0
      ensures t.tokens == old(t.tokens) || fresh(t.tokens)
      ensures t.Contents() == old(t.Contents()) + (if kind.Some? then [TokenCreate(kind.value, data[start..current], line)] else [])
    {
      if kind.Some? {
        t.Push(data[start..current], kind.value, line);
      } else {
        assert t.Contents() == old(t.Contents()) + [];
      }
    }

    /** Pushing one step's token and moving on accounts for exactly the tokens and errors of `ScanFrom` between the two cursors. */
    static lemma StepAccounts(src: string, s0: nat, pos: nat, l0: nat, e0: bool, before: seq<Token>,
                              kind: Option<TokenKind>, next: nat, l1: nat, e1: bool, after: seq<Token>)
      requires s0 <= pos < |src|
      requires var st := NextToken(src, pos, l0);
               && kind == st.kind && next == st.next && l1 == st.line && e1 == (e0 || st.error)
      requires after == before + (if kind.Some? then [TokenCreate(kind.value, src[pos..next], l1)] else [])
      ensures var r0 := ScanFrom(src, s0, pos, l0);
              var r1 := ScanFrom(src, pos, next, l1);
              && after + r1.tokens == before + r0.tokens
              && (e1 || r1.error) == (e0 || r0.error)
    {
      ScanFromStep(src, s0, pos, l0);
      var pushed := if kind.Some? then [TokenCreate(kind.value, src[pos..next], l1)] else [];
      ConcatAssoc(before, pushed, ScanFrom(src, pos, next, l1).tokens);
    }

    /** `ss_parse`: scan to the end, pushing every token, then push TT_EOF with the last lexeme. */
    method Parse(t: TokenArray.TokenArr)
      requires Valid() && t.Valid() && t.tokens.Length > 0
      modifies this, t, t.tokens
      ensures Valid() && t.Valid() && t.tokens.Length > 0
      ensures var r := ScanFrom(data, old(start), old(current), old(line));
              && t.Contents() == old(t.Contents()) + r.tokens
              && error == (old(error) || r.error)
    {
      ghost var total := ScanFrom(data, start, current, line);
      while !AtEnd()
        invariant Valid() && t.Valid() && t.tokens.Length > 0
        invariant t.tokens == old(t.tokens) || fresh(t.tokens)
        invariant t.Contents() + ScanFrom(data, start, current, line).tokens == old(t.Contents()) + total.tokens
        invariant (error || ScanFrom(data, start, current, line).error) == (old(error) || total.error)
        decreases |data| - current
      {
        ParseStep(t);
      }
      t.Push(data[start..current], TT_EOF, line);
    }
  }

  /** `scanner_parse_tokens`: the token array holds exactly `Scan(data)`; the error flag is not returned. */
  method ScanTokens(data: string) returns (t: TokenArray.TokenArr)
    requires NoNul(data)
    ensures fresh(t) && t.Valid() && t.Contents() == Scan(data).tokens
  {
    t := new TokenArray.TokenArr();
    var s := new ScannerState(data);
    s.Parse(t);
  }
}
