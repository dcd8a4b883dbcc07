/**
  Token kinds and tokens (token.h, token.c).

  `TokenKind` is the closed enumeration `token_t`; `AllKinds` is the
  `ttforeach` list; `KindName` is `tttostr`. A `Token` is the value that
  `token_create` builds: the lexeme copy (`literal` in the C struct), the
  line, and the string or number payload of STRING and NUMBER tokens.
*/
module Tokens {
  import opened Wrappers

  datatype TokenKind =
    // Single-character tokens.
    | LEFT_PAREN | RIGHT_PAREN | LEFT_BRACE | RIGHT_BRACE | COMMA | DOT
    | MINUS | PLUS | SEMICOLON | SLASH | STAR
    // One or two character tokens.
    | BANG | BANG_EQUAL | EQUAL | EQUAL_EQUAL
    | GREATER | GREATER_EQUAL | LESS | LESS_EQUAL
    // Literals.
    | IDENTIFIER | STRING | NUMBER
    // Keywords.
    | AND | CLASS | ELSE | FALSE | FUN | FOR | IF | NIL | OR
    | PRINT | RETURN | SUPER | THIS | TRUE | VAR | WHILE
    | TT_EOF

  const KindCount: nat := 39

  /** The `ttforeach` list: the kind at each position, in declaration order. */
  function KindAt(n: nat): TokenKind
    requires n < KindCount
  {
    if n == 0 then LEFT_PAREN
    else if n == 1 then RIGHT_PAREN
    else if n == 2 then LEFT_BRACE
    else if n == 3 then RIGHT_BRACE
    else if n == 4 then COMMA
    else if n == 5 then DOT
    else if n == 6 then MINUS
    else if n == 7 then PLUS
    else if n == 8 then SEMICOLON
    else if n == 9 then SLASH
    else if n == 10 then STAR
    else if n == 11 then BANG
    else if n == 12 then BANG_EQUAL
    else if n == 13 then EQUAL
    else if n == 14 then EQUAL_EQUAL
    else if n == 15 then GREATER
    else if n == 16 then GREATER_EQUAL
    else if n == 17 then LESS
    else if n == 18 then LESS_EQUAL
    else if n == 19 then IDENTIFIER
    else if n == 20 then STRING
    else if n == 21 then NUMBER
    else if n == 22 then AND
    else if n == 23 then CLASS
    else if n == 24 then ELSE
    else if n == 25 then FALSE
    else if n == 26 then FUN
    else if n == 27 then FOR
    else if n == 28 then IF
    else if n == 29 then NIL
    else if n == 30 then OR
    else if n == 31 then PRINT
    else if n == 32 then RETURN
    else if n == 33 then SUPER
    else if n == 34 then THIS
    else if n == 35 then TRUE
    else if n == 36 then VAR
    else if n == 37 then WHILE
    else TT_EOF
  }

  const AllKinds: seq<TokenKind> := seq(KindCount, n requires 0 <= n < KindCount => KindAt(n))

  /** The integer value C gives the enumerator: its position in the declaration. */
  function Ordinal(k: TokenKind): (n: nat)
    ensures n < KindCount && KindAt(n) == k
  {
    match k
    case LEFT_PAREN => 0
    case RIGHT_PAREN => 1
    case LEFT_BRACE => 2
    case RIGHT_BRACE => 3
    case COMMA => 4
    case DOT => 5
    case MINUS => 6
    case PLUS => 7
    case SEMICOLON => 8
    case SLASH => 9
    case STAR => 10
    case BANG => 11
    case BANG_EQUAL => 12
    case EQUAL => 13
    case EQUAL_EQUAL => 14
    case GREATER => 15
    case GREATER_EQUAL => 16
    case LESS => 17
    case LESS_EQUAL => 18
    case IDENTIFIER => 19
    case STRING => 20
    case NUMBER => 21
    case AND => 22
    case CLASS => 23
    case ELSE => 24
    case FALSE => 25
    case FUN => 26
    case FOR => 27
    case IF => 28
    case NIL => 29
    case OR => 30
    case PRINT => 31
    case RETURN => 32
    case SUPER => 33
    case THIS => 34
    case TRUE => 35
    case VAR => 36
    case WHILE => 37
    case TT_EOF => 38
  }

  /** `ttforeach` lists every kind, each exactly once. */
  lemma AllKindsComplete(k: TokenKind)
    ensures k in AllKinds
    ensures forall i, j :: 0 <= i < j < |AllKinds| ==> AllKinds[i] != AllKinds[j]
  {
    assert AllKinds[Ordinal(k)] == k;
    forall i, j | 0 <= i < j < |AllKinds|
      ensures AllKinds[i] != AllKinds[j]
    {
      PositionsDistinct(i, j);
    }
  }

  lemma PositionsDistinct(i: nat, j: nat)
    requires i < j < KindCount
    ensures KindAt(i) != KindAt(j)
  {
  }

  /** `tttostr`: the enumerator's own name. */
  function KindName(k: TokenKind): string
  {
    match k
    case LEFT_PAREN => "LEFT_PAREN" case RIGHT_PAREN => "RIGHT_PAREN"
    case LEFT_BRACE => "LEFT_BRACE" case RIGHT_BRACE => "RIGHT_BRACE"
    case COMMA => "COMMA" case DOT => "DOT" case MINUS => "MINUS"
    case PLUS => "PLUS" case SEMICOLON => "SEMICOLON" case SLASH => "SLASH"
    case STAR => "STAR" case BANG => "BANG" case BANG_EQUAL => "BANG_EQUAL"
    case EQUAL => "EQUAL" case EQUAL_EQUAL => "EQUAL_EQUAL"
    case GREATER => "GREATER" case GREATER_EQUAL => "GREATER_EQUAL"
    case LESS => "LESS" case LESS_EQUAL => "LESS_EQUAL"
    case IDENTIFIER => "IDENTIFIER" case STRING => "STRING"
    case NUMBER => "NUMBER" case AND => "AND" case CLASS => "CLASS"
    case ELSE => "ELSE" case FALSE => "FALSE" case FUN => "FUN"
    case FOR => "FOR" case IF => "IF" case NIL => "NIL" case OR => "OR"
    case PRINT => "PRINT" case RETURN => "RETURN" case SUPER => "SUPER"
    case THIS => "THIS" case TRUE => "TRUE" case VAR => "VAR"
    case WHILE => "WHILE" case TT_EOF => "TT_EOF"
  }

  /** The kind whose name has this length, first and last character; no two names share all three. */
  function KindOfKey(len: nat, first: char, last: char): Option<TokenKind>
  {
    match len
    case 2 =>
      if first == 'I' && last == 'F' then Some(IF)
      else if first == 'O' && last == 'R' then Some(OR)
      else None
    case 3 =>
      if first == 'D' && last == 'T' then Some(DOT)
      else if first == 'A' && last == 'D' then Some(AND)
      else if first == 'F' && last == 'N' then Some(FUN)
      else if first == 'F' && last == 'R' then Some(FOR)
      else if first == 'N' && last == 'L' then Some(NIL)
      else if first == 'V' && last == 'R' then Some(VAR)
      else None
    case 4 =>
      if first == 'P' && last == 'S' then Some(PLUS)
      else if first == 'S' && last == 'R' then Some(STAR)
      else if first == 'B' && last == 'G' then Some(BANG)
      else if first == 'L' && last == 'S' then Some(LESS)
      else if first == 'E' && last == 'E' then Some(ELSE)
      else if first == 'T' && last == 'S' then Some(THIS)
      else if first == 'T' && last == 'E' then Some(TRUE)
      else None
    case 5 =>
      if first == 'C' && last == 'A' then Some(COMMA)
      else if first == 'M' && last == 'S' then Some(MINUS)
      else if first == 'S' && last == 'H' then Some(SLASH)
      else if first == 'E' && last == 'L' then Some(EQUAL)
      else if first == 'C' && last == 'S' then Some(CLASS)
      else if first == 'F' && last == 'E' then Some(FALSE)
      else if first == 'P' && last == 'T' then Some(PRINT)
      else if first == 'S' && last == 'R' then Some(SUPER)
      else if first == 'W' && last == 'E' then Some(WHILE)
      else None
    case 6 =>
      if first == 'S' && last == 'G' then Some(STRING)
      else if first == 'N' && last == 'R' then Some(NUMBER)
      else if first == 'R' && last == 'N' then Some(RETURN)
      else if first == 'T' && last == 'F' then Some(TT_EOF)
      else None
    case 7 =>
      if first == 'G' && last == 'R' then Some(GREATER)
      else None
    case 9 =>
      if first == 'S' && last == 'N' then Some(SEMICOLON)
      else None
    case 10 =>
      if first == 'L' && last == 'N' then Some(LEFT_PAREN)
      else if first == 'L' && last == 'E' then Some(LEFT_BRACE)
      else if first == 'B' && last == 'L' then Some(BANG_EQUAL)
      else if first == 'L' && last == 'L' then Some(LESS_EQUAL)
      else if first == 'I' && last == 'R' then Some(IDENTIFIER)
      else None
    case 11 =>
      if first == 'R' && last == 'N' then Some(RIGHT_PAREN)
      else if first == 'R' && last == 'E' then Some(RIGHT_BRACE)
      else if first == 'E' && last == 'L' then Some(EQUAL_EQUAL)
      else None
    case 13 =>
      if first == 'G' && last == 'L' then Some(GREATER_EQUAL)
      else None
    case _ => None
  }

  /** Reads a kind back from its name: the left inverse of `KindName`. */
  function KindOfName(s: string): Option<TokenKind>
  {
    if |s| == 0 then None
    else
      match KindOfKey(|s|, s[0], s[|s| - 1])
      case Some(k) => if KindName(k) == s then Some(k) else None
      case None => None
  }

  /** `tttostr` is total and injective: every kind's name reads back as that kind. */
  lemma KindNameRoundTrip(k: TokenKind)
    ensures KindOfName(KindName(k)) == Some(k)
  {
    if Ordinal(k) < 10 {
      NameRoundTripA(k);
    } else if Ordinal(k) < 20 {
      NameRoundTripB(k);
    } else if Ordinal(k) < 30 {
      NameRoundTripC(k);
    } else {
      NameRoundTripD(k);
    }
  }

  /** The round trip for the first ten kinds of `ttforeach`. */
  lemma NameRoundTripA(k: TokenKind)
    requires Ordinal(k) < 10
    ensures KindOfName(KindName(k)) == Some(k)
  {
  }

  /** The round trip for the kinds at positions 10 to 19. */
  lemma NameRoundTripB(k: TokenKind)
    requires 10 <= Ordinal(k) < 20
    ensures KindOfName(KindName(k)) == Some(k)
  {
  }

  /** The round trip for the kinds at positions 20 to 29. */
  lemma NameRoundTripC(k: TokenKind)
    requires 20 <= Ordinal(k) < 30
    ensures KindOfName(KindName(k)) == Some(k)
  {
  }

  /** The round trip for the last kinds, from position 30 to TT_EOF. */
  lemma NameRoundTripD(k: TokenKind)
    requires 30 <= Ordinal(k)
    ensures KindOfName(KindName(k)) == Some(k)
  {
  }

  lemma KindNameInjective(a: TokenKind, b: TokenKind)
    ensures KindName(a) == KindName(b) <==> a == b
  {
    KindNameRoundTrip(a);
    KindNameRoundTrip(b);
  }

  /** `WHITESPACE_C`: the characters the scanner skips without counting a line. */
  predicate IsWhitespace(c: char)
  {
    c == ' ' || c == '\r' || c == '\t'
  }

  /** The union payload of a token: `str_val` for STRING, `n_val` for NUMBER. */
  datatype Payload = NoPayload | StrVal(s: string) | NumVal(n: real)

  /** `token`: kind (`type`), lexeme copy (`literal`), line and payload. */
  datatype Token = Token(kind: TokenKind, lexeme: string, line: nat, payload: Payload)

  /**
    What the parser relies on in a token array: it ends with the one and only
    TT_EOF token, and STRING and NUMBER tokens carry their payloads.
  */
  predicate WellFormedTokens(toks: seq<Token>)
  {
    && |toks| > 0
    && toks[|toks| - 1].kind == TT_EOF
    && (forall i :: 0 <= i < |toks| - 1 ==> toks[i].kind != TT_EOF)
    && (forall i :: 0 <= i < |toks| ==> (toks[i].kind == STRING ==> toks[i].payload.StrVal?))
    && (forall i :: 0 <= i < |toks| ==> (toks[i].kind == NUMBER ==> toks[i].payload.NumVal?))
  }

  /** The `str_val` of a token; every STRING token `TokenCreate` builds has one. */
  function StrValOf(t: Token): string
  {
    if t.payload.StrVal? then t.payload.s else ""
  }

  /** The `n_val` of a token; every NUMBER token `TokenCreate` builds has one. */
  function NumValOf(t: Token): real
  {
    if t.payload.NumVal? then t.payload.n else 0.0
  }

  /** The text between the quotes of a STRING lexeme: its first and last character dropped. */
  function StripQuotes(lexeme: string): (r: string)
    ensures |lexeme| >= 2 ==> |r| == |lexeme| - 2
    ensures |lexeme| < 2 ==> r == []
  {
    if |lexeme| >= 2 then lexeme[1..|lexeme| - 1] else []
  }

  /** A lexeme of two or more characters is its first character, the stripped text and its last character. */
  lemma StripQuotesLayout(lexeme: string)
    requires |lexeme| >= 2
    ensures lexeme == lexeme[..1] + StripQuotes(lexeme) + lexeme[|lexeme| - 1..]
  {
  }

  lemma StripQuotesOfQuoted(s: string)
    ensures StripQuotes(['"'] + s + ['"']) == s
  {
    var q := ['"'] + s + ['"'];
    assert q[1..|q| - 1] == s;
  }

  function DigitValue(c: char): nat
  {
    if '0' <= c <= '9' then (c as int - '0' as int) else 0
  }

  /** The decimal value of a run of digits, most significant first. */
  function DigitsValue(ds: string): nat
  {
    if |ds| == 0 then 0 else DigitsValue(ds[..|ds| - 1]) * 10 + DigitValue(ds[|ds| - 1])
  }

  function Pow10(n: nat): (p: nat)
    ensures p >= 1
  {
    if n == 0 then 1 else 10 * Pow10(n - 1)
  }

  /** Index of the first `.` in `s`, or `|s|`. */
  function DotIndex(s: string): (i: nat)
    ensures i <= |s|
    ensures i < |s| ==> s[i] == '.'
    ensures forall m :: 0 <= m < i ==> s[m] != '.'
  {
    if |s| == 0 then 0
    else if s[0] == '.' then 0
    else 1 + DotIndex(s[1..])
  }

  /** `atof` on a NUMBER lexeme (digits, optionally `.` and digits), as an exact decimal. */
  function Atof(lexeme: string): real
  {
    var i := DotIndex(lexeme);
    var whole := DigitsValue(lexeme[..i]) as real;
    if i == |lexeme| then whole
    else
      var frac := lexeme[i + 1..];
      whole + (DigitsValue(frac) as real) / (Pow10(|frac|) as real)
  }

  /** `token_create`: copies the lexeme and sets the payload of STRING and NUMBER tokens. */
  function TokenCreate(kind: TokenKind, lexeme: string, line: nat): (t: Token)
    ensures t.kind == kind && t.lexeme == lexeme && t.line == line
    ensures kind == STRING <==> t.payload.StrVal?
    ensures kind == NUMBER <==> t.payload.NumVal?
  {
    var payload :=
      if kind == STRING then StrVal(StripQuotes(lexeme))
      else if kind == NUMBER then NumVal(Atof(lexeme))
      else NoPayload;
    Token(kind, lexeme, line, payload)
  }

  /** The `str_val` of a STRING token is its lexeme without the surrounding quote characters. */
  lemma TokenCreateStrVal(lexeme: string, line: nat)
    requires |lexeme| >= 2
    ensures var t := TokenCreate(STRING, lexeme, line);
            lexeme == lexeme[..1] + t.payload.s + lexeme[|lexeme| - 1..]
  {
    StripQuotesLayout(lexeme);
  }

  // ---------------------------------------------------------------------
  // The `str_val` buffer of token.c:29-34, at the level of sizes and indices.
  // `size_t` arithmetic wraps modulo 2^64.

  const SIZE_MOD: int := 0x1_0000_0000_0000_0000

  function SizeT(x: int): (r: nat)
    ensures r < SIZE_MOD
  {
    x % SIZE_MOD
  }

  /** Allocation size, bytes copied, and index of the terminating NUL of a `str_val` block. */
  datatype StrValLayout = StrValLayout(alloc: nat, copied: nat, nulAt: nat)

  /** A layout is sound when the copy and the terminator both stay inside the block. */
  predicate InBounds(l: StrValLayout)
  {
    l.copied <= l.alloc && l.nulAt < l.alloc
  }

  /** The layout token.c:31-33 computes for a lexeme of `len` bytes, as written. */
  function StrValLayoutAsWritten(len: nat): StrValLayout
    requires len < SIZE_MOD
  {
    StrValLayout(SizeT(len + 1 - 2), SizeT(len - 2), SizeT(len - 1))
  }

  /** As written, the terminator lands one past the block for every non-empty lexeme. */
  lemma StrValTerminatorOverruns(len: nat)
    requires 1 <= len < SIZE_MOD
    ensures StrValLayoutAsWritten(len).nulAt == StrValLayoutAsWritten(len).alloc
    ensures !InBounds(StrValLayoutAsWritten(len))
  {
  }

  /** As written, a one-byte STRING lexeme (a lone `"` at the end of the input) copies 2^64-1 bytes. */
  lemma StrValOneByteLexemeWraps()
    ensures StrValLayoutAsWritten(1).copied == SIZE_MOD - 1
    ensures StrValLayoutAsWritten(1).alloc == 0
  {
  }

  /** The intended layout: the unquoted text, then its terminator, in a block one byte longer. */
  function StrValLayoutFor(lexeme: string): (l: StrValLayout)
    ensures InBounds(l)
    ensures l.copied == |StripQuotes(lexeme)| && l.nulAt == l.copied
  {
    var n := |StripQuotes(lexeme)|;
    StrValLayout(n + 1, n, n)
  }

  /** For a lexeme with both quotes, the code as written copies and allocates as intended; only the terminator is one byte off. */
  lemma StrValOffByOne(lexeme: string)
    requires 2 <= |lexeme| < SIZE_MOD
    ensures StrValLayoutAsWritten(|lexeme|).copied == StrValLayoutFor(lexeme).copied
    ensures StrValLayoutAsWritten(|lexeme|).alloc == StrValLayoutFor(lexeme).alloc
    ensures StrValLayoutAsWritten(|lexeme|).nulAt == StrValLayoutFor(lexeme).nulAt + 1
  {
  }
}
