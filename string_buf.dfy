/**
  The growable character string of string.c (`string`).

  The array's length is the capacity `cap`; `len` counts the characters in
  use. A C string argument is a character sequence that holds a NUL: its
  text is everything before the first NUL, as `strlen` counts it.
*/
module StringBuf {
  import DoublingArray

  const INITIAL_CAP: nat := 10

  /** `strlen`: the index of the first NUL. */
  function CStrLen(d: seq<char>): (n: nat)
    requires '\0' in d
    ensures n < |d| && d[n] == '\0'
    ensures forall i :: 0 <= i < n ==> d[i] != '\0'
  {
    if d[0] == '\0' then 0 else 1 + CStrLen(d[1..])
  }

  /** The text of a C string: the characters before its first NUL. */
  function CStrText(d: seq<char>): (t: seq<char>)
    requires '\0' in d
    ensures '\0' !in t
  {
    d[..CStrLen(d)]
  }

  /** A text without NUL, terminated, reads back as itself. */
  lemma {:induction false} CStrOfTerminated(t: seq<char>, rest: seq<char>)
    requires '\0' !in t
    ensures '\0' in t + ['\0'] + rest
    ensures CStrText(t + ['\0'] + rest) == t
    decreases |t|
  {
    var d := t + ['\0'] + rest;
    assert d[|t|] == '\0';
    if |t| > 0 {
      assert d[1..] == t[1..] + ['\0'] + rest;
      CStrOfTerminated(t[1..], rest);
    }
  }

  class Str {
    var data: array<char>
    var len: nat

    /** `string_ASSERT`: the length fits the capacity and the capacity is positive. */
    ghost predicate Valid()
      reads this
    {
      len <= data.Length && data.Length > 0
    }

    ghost function Contents(): seq<char>
      reads this, data
      requires Valid()
    {
      data[..len]
    }

    /** `string_create`: empty, capacity 10. */
    constructor ()
      ensures Valid() && fresh(data)
      ensures Contents() == [] && data.Length == INITIAL_CAP
    {
      data := new char[INITIAL_CAP];
      len := 0;
    }

    /** `string_make_available`: double the capacity until `newlen` characters fit. */
    method MakeAvailable(newlen: nat)
      requires Valid()
      modifies this
      ensures Valid() && data.Length >= newlen && len == old(len)
      ensures Contents() == old(Contents())
      ensures data.Length == DoublingArray.GrownCap(old(data.Length), newlen)
      ensures data == old(data) || fresh(data)
    {
      ghost var before := data[..];
      data := DoublingArray.MakeAvailable(data, newlen);
      assert data[..len] == data[..|before|][..len];
    }

    /** `memcpy` of `d` to the head of the string, followed by the length update. */
    method CopyToHead(d: seq<char>)
      requires Valid() && len + |d| <= data.Length
      modifies this, data
      ensures Valid() && data == old(data)
      ensures Contents() == old(Contents()) + d
    {
      forall i | 0 <= i < |d| {
        data[len + i] := d[i];
      }
      len := len + |d|;
      assert Contents() == old(Contents()) + d by {
        assert forall i :: 0 <= i < len ==> data[..len][i] == (old(Contents()) + d)[i];
      }
    }

    /** `string_append_cstr`: append the text of the C string `d`. */
    method AppendCstr(d: seq<char>)
      requires Valid() && '\0' in d
      modifies this, data
      ensures Valid()
      ensures Contents() == old(Contents()) + CStrText(d)
      ensures data == old(data) || fresh(data)
    {
      var n := CStrLen(d);
      MakeAvailable(len + n);
      CopyToHead(d[..n]);
    }

    /** `string_append_cstr_len`: append the first `dlen` characters of `d`; nothing happens when `dlen` is 0. */
    method AppendCstrLen(d: seq<char>, dlen: nat)
      requires Valid() && dlen <= |d|
      modifies this, data
      ensures Valid()
      ensures Contents() == old(Contents()) + d[..dlen]
      ensures dlen == 0 ==> data == old(data) && data.Length == old(data.Length)
      ensures data == old(data) || fresh(data)
    {
      if dlen == 0 {
        assert d[..dlen] == [];
        return;
      }
      MakeAvailable(len + dlen);
      CopyToHead(d[..dlen]);
    }

    /** `string_append_ch`: append one character. */
    method AppendCh(c: char)
      requires Valid()
      modifies this, data
      ensures Valid() && len == old(len) + 1
      ensures Contents() == old(Contents()) + [c]
      ensures data.Length == DoublingArray.GrownCap(old(data.Length), old(len) + 1)
      ensures data == old(data) || fresh(data)
    {
      MakeAvailable(len + 1);
      data[len] := c;
      len := len + 1;
      assert Contents() == old(Contents()) + [c] by {
        assert data[..len] == data[..len - 1] + [c];
      }
    }

    /** `string_to_cstr`: terminate the text with a NUL just past it and hand out the storage. */
    method ToCstr() returns (p: array<char>)
      requires Valid()
      modifies this, data
      ensures Valid() && p == data && len == old(len) && len < p.Length
      ensures Contents() == old(Contents()) && p[len] == '\0'
      ensures '\0' !in Contents() ==> '\0' in p[..] && CStrText(p[..]) == Contents()
      ensures data == old(data) || fresh(data)
    {
      MakeAvailable(len + 1);
      data[len] := '\0';
      p := data;
      assert p[..] == Contents() + ['\0'] + p[len + 1..];
      if '\0' !in Contents() {
        CStrOfTerminated(Contents(), p[len + 1..]);
      }
    }

    /** `string_pop_right`: remove and return the last character; an empty string gives NUL and stays empty. */
    method PopRight() returns (c: char)
      requires Valid()
      modifies this
      ensures Valid() && data == old(data)
      ensures old(len) == 0 ==> c == '\0' && len == 0
      ensures old(len) > 0 ==> old(Contents()) == Contents() + [c]
    {
      if len == 0 {
        return '\0';
      }
      len := len - 1;
      c := data[len];
      assert old(Contents()) == data[..len] + [c];
    }

    /** `string_reset`: empty the string, keeping its storage. */
    method Reset()
      requires Valid()
      modifies this
      ensures Valid() && data == old(data) && Contents() == []
    {
      len := 0;
    }
  }

  /** `string_append_ch` followed by `string_pop_right` gives the character back and restores the text. */
  method AppendThenPop(s: Str, c: char) returns (popped: char)
    requires s.Valid()
    modifies s, s.data
    ensures s.Valid() && popped == c && s.Contents() == old(s.Contents())
  {
    s.AppendCh(c);
    popped := s.PopRight();
  }
}
