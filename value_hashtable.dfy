/**
  The variable table of value_hashtable.c: 1000 buckets, each a chain of
  entries, indexed by the djb2 hash of the key.

  A chain is a sequence of entries, newest first, standing for the linked
  list of `entry` nodes. The table and the nodes live in a `linmem` arena;
  the arena is kept so that its length accounts for them, but the nodes
  themselves are values, not bytes in it.
*/
module Hashtable {
  import opened Wrappers
  import Values
  import Memory

  const TABLE_SIZE: nat := 1000

  /** `sizeof(entry *)` on x86-64. */
  const POINTER_SIZE: nat := 8

  /** `sizeof(entry)`: key pointer, 16-byte `value`, next pointer. */
  const ENTRY_SIZE: nat := 32

  /** 2^64: `unsigned long` arithmetic wraps at it. */
  const ULONG_BOUND: nat := 0x1_0000_0000_0000_0000

  /** One `entry` node: the key and the value stored under it. */
  datatype Entry = Entry(ident: string, v: Values.Value)

  /** djb2: start at 5381, then `h * 33 + c` for every (signed) character, modulo 2^64. */
  function Djb2(s: string): (h: nat)
    ensures h < ULONG_BOUND
  {
    if |s| == 0 then 5381
    else (Djb2(s[..|s| - 1]) * 33 + Values.CharCode(s[|s| - 1])) % ULONG_BOUND
  }

  /** The bucket of `key`. */
  function Bucket(key: string): (i: nat)
    ensures i < TABLE_SIZE
  {
    Djb2(key) % TABLE_SIZE
  }

  /** `hash`: the djb2 loop, then the bucket index. */
  method Hash(key: string) returns (index: nat)
    requires Values.CText(key)
    ensures index == Bucket(key) && index < TABLE_SIZE
  {
    var h: nat := 5381;
    var i := 0;
    while i < |key|
      invariant i <= |key|
      invariant h == Djb2(key[..i])
    {
      assert key[..i + 1][..i] == key[..i];
      h := ((h * 32 + h) + Values.CharCode(key[i])) % ULONG_BOUND;
      i := i + 1;
    }
    assert key[..i] == key;
    index := h % TABLE_SIZE;
  }

  /** The value of the first entry of `chain` whose key is `key`: what `vhtbl_get` finds. */
  function Find(chain: seq<Entry>, key: string): (r: Option<Values.Value>)
    ensures r.None? <==> forall j :: 0 <= j < |chain| ==> chain[j].ident != key
  {
    if |chain| == 0 then None
    else if chain[0].ident == key then Some(chain[0].v)
    else Find(chain[1..], key)
  }

  /** The chain after the overwriting walk of `vhtbl_insert`: every entry for `key` now holds `val`. */
  function Overwrite(chain: seq<Entry>, key: string, val: Values.Value): (c: seq<Entry>)
    ensures |c| == |chain|
    ensures forall j :: 0 <= j < |chain| ==> c[j] == (if chain[j].ident == key then Entry(key, val) else chain[j])
  {
    if |chain| == 0 then [] else
      [if chain[0].ident == key then Entry(key, val) else chain[0]] + Overwrite(chain[1..], key, val)
  }

  /** Overwriting the entries for one key leaves what every other key finds. */
  lemma {:induction false} FindOverwriteOther(chain: seq<Entry>, key: string, val: Values.Value, k: string)
    requires k != key
    ensures Find(Overwrite(chain, key, val), k) == Find(chain, k)
    decreases |chain|
  {
    if |chain| > 0 {
      var c := Overwrite(chain, key, val);
      assert c[1..] == Overwrite(chain[1..], key, val);
      FindOverwriteOther(chain[1..], key, val, k);
    }
  }

  /** `value_hashtable`: the bucket array and the arena its nodes are allocated in. */
  class ValueHashtable {
    var table: array<seq<Entry>>
    var mem: Memory.Linmem

    /** Every entry sits in the bucket of its key. */
    ghost predicate Valid()
      reads this, table, mem
    {
      && table.Length == TABLE_SIZE
      && mem.Valid() && mem.data.Length > 0
      && forall i, j :: 0 <= i < TABLE_SIZE && 0 <= j < |table[i]| ==> Bucket(table[i][j].ident) == i
    }

    /** What `vhtbl_get` finds for `key`. */
    ghost function Lookup(key: string): Option<Values.Value>
      reads this, table
      requires table.Length == TABLE_SIZE
    {
      Find(table[Bucket(key)], key)
    }

    /** `vhtbl_create`: the bucket array is allocated in a fresh arena and every bucket is empty. */
    constructor ()
      ensures Valid() && fresh(table) && fresh(mem)
      ensures forall i :: 0 <= i < TABLE_SIZE ==> table[i] == []
      ensures forall k :: Lookup(k) == None
      ensures mem.len == TABLE_SIZE * POINTER_SIZE
    {
      var arena := new Memory.Linmem();
      var _ := arena.Malloc(TABLE_SIZE * POINTER_SIZE);
      mem := arena;
      table := new seq<Entry>[TABLE_SIZE](_ => []);
    }

    /** The overwriting walk of `vhtbl_insert` over the chain of bucket `index`. */
    method OverwriteChain(index: nat, key: string, val: Values.Value)
      requires index < table.Length
      modifies table
      ensures table[index] == Overwrite(old(table[index]), key, val)
      ensures forall i :: 0 <= i < table.Length && i != index ==> table[i] == old(table[i])
    {
      var chain := table[index];
      var c := chain;
      var j := 0;
      while j < |c|
        invariant |c| == |chain| && j <= |chain|
        invariant forall m :: 0 <= m < j ==> c[m] == (if chain[m].ident == key then Entry(key, val) else chain[m])
        invariant forall m :: j <= m < |c| ==> c[m] == chain[m]
      {
        if c[j].ident == key {
          c := c[j := Entry(c[j].ident, val)];
        }
        j := j + 1;
      }
      assert c == Overwrite(chain, key, val);
      table[index] := c;
    }

    /** `vhtbl_insert`: overwrite every entry for `key`, then put a new entry at the front of its chain. */
    method Insert(key: string, val: Values.Value)
      requires Valid() && Values.CText(key)
      requires mem.len + ENTRY_SIZE < Memory.SIZE_BOUND
      modifies table, mem
      ensures Valid() && mem == old(mem)
      ensures table[Bucket(key)] == [Entry(key, val)] + Overwrite(old(table[Bucket(key)]), key, val)
      ensures forall i :: 0 <= i < TABLE_SIZE && i != Bucket(key) ==> table[i] == old(table[i])
      ensures mem.len == old(mem.len) + ENTRY_SIZE
    {
      var index := Hash(key);
      OverwriteChain(index, key, val);
      ghost var walked := table[index];
      var _ := mem.Malloc(ENTRY_SIZE);
      table[index] := [Entry(key, val)] + table[index];
      assert table[index] == [Entry(key, val)] + walked;
    }

    /** `vhtbl_get`: walk the chain of the key's bucket and return the first match, `None` for NULL. */
    method Get(key: string) returns (r: Option<Values.Value>)
      requires Valid() && Values.CText(key)
      ensures r == Lookup(key)
    {
      var index := Hash(key);
      var chain := table[index];
      var j := 0;
      while j < |chain|
        invariant j <= |chain|
        invariant Find(chain, key) == Find(chain[j..], key)
      {
        if chain[j].ident == key {
          return Some(chain[j].v);
        }
        assert chain[j..][1..] == chain[j + 1..];
        j := j + 1;
      }
      return None;
    }
  }

  /** After `vhtbl_insert(k, v)`, `vhtbl_get(k)` finds `v`, and every other key finds what it found before. */
  lemma InsertThenLookup(old_chain: seq<Entry>, key: string, val: Values.Value, k: string)
    ensures Find([Entry(key, val)] + Overwrite(old_chain, key, val), key) == Some(val)
    ensures k != key ==> Find([Entry(key, val)] + Overwrite(old_chain, key, val), k) == Find(old_chain, k)
  {
    if k != key {
      var c := [Entry(key, val)] + Overwrite(old_chain, key, val);
      assert c[1..] == Overwrite(old_chain, key, val);
      FindOverwriteOther(old_chain, key, val, k);
    }
  }

  /** `vhtbl_insert` followed by `vhtbl_get` of the same key gives the value back; other keys are unaffected. */
  method InsertThenGet(t: ValueHashtable, key: string, val: Values.Value, other: string)
    returns (got: Option<Values.Value>, gotOther: Option<Values.Value>)
    requires t.Valid() && Values.CText(key) && Values.CText(other)
    requires t.mem.len + ENTRY_SIZE < Memory.SIZE_BOUND
    modifies t.table, t.mem
    ensures t.Valid()
    ensures got == Some(val)
    ensures other != key ==> gotOther == old(t.Lookup(other))
  {
    t.Insert(key, val);
    got := t.Get(key);
    InsertThenLookup(old(t.table[Bucket(key)]), key, val, other);
    gotOther := t.Get(other);
  }
}
