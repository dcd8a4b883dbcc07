/**
  The growable token array of token.c (`token_arr`).

  The array's length is its capacity `cap`; `len` counts the tokens in use.
  The arena `mem` that holds the lexeme copies is not part of this class:
  each `Token` carries its lexeme as a value.
*/
module TokenArray {
  import opened Tokens
  import DoublingArray

  const INITIAL_CAP: nat := 10

  class TokenArr {
    var tokens: array<Token>
    var len: nat

    /** `token_arr_ASSERT` without its `cap > 0` part, which only a freed array breaks. */
    ghost predicate Valid()
      reads this
    {
      len <= tokens.Length
    }

    ghost function Contents(): seq<Token>
      reads this, tokens
      requires Valid()
    {
      tokens[..len]
    }

    /** `token_arr_create`: no tokens, capacity 10. */
    constructor ()
      ensures Valid() && fresh(tokens)
      ensures len == 0 && tokens.Length == INITIAL_CAP
      ensures Contents() == []
    {
      tokens := new Token[INITIAL_CAP];
      len := 0;
    }

    /** `token_arr_push`: grow if full, then store `token_create(...)` at index `len`. */
    method Push(lexeme: string, kind: TokenKind, line: nat)
      requires Valid() && tokens.Length > 0
      modifies this, tokens
      ensures Valid() && tokens.Length > 0
      ensures len == old(len) + 1
      ensures tokens.Length == DoublingArray.GrownCap(old(tokens.Length), old(len) + 1)
      ensures Contents() == old(Contents()) + [TokenCreate(kind, lexeme, line)]
      ensures tokens == old(tokens) || fresh(tokens)
    {
      tokens := DoublingArray.MakeAvailable(tokens, len + 1);
      tokens[len] := TokenCreate(kind, lexeme, line);
      len := len + 1;
    }

    /** `token_arr_free`: releases the storage; length and capacity become 0. */
    method Free()
      requires Valid() && tokens.Length > 0
      modifies this
      ensures Valid() && len == 0 && tokens.Length == 0
    {
      tokens := new Token[0];
      len := 0;
    }
  }
}
