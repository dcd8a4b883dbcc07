/**
  The two arena allocators of memory.c.

  `linmem` is a bump allocator: blocks are handed out one after the other
  and never freed one by one. `stackmem` also frees its most recent block:
  in front of every block it writes an 8-byte header holding the distance
  from the previous block's start (`top`) to the header, and `free_top`
  reads that header back to restore the previous `len` and `top`.

  Pointers into the arena are byte offsets from its start; `top` is the
  offset of the newest block. The backing store is a byte array whose
  length is the capacity, grown by the doubling loop of doubling_array.h.
  The header is the little-endian layout of a 64-bit `size_t` (x86-64).
*/
module Memory {
  import DoublingArray

  type Byte = b: int | 0 <= b < 256

  /** `INITIAL_CAP` of memory.c. */
  const INITIAL_CAP: nat := 100000

  /** `sizeof(size_t)`: the width of a stack-block header. */
  const HEADER: nat := 8

  /** 2^64: every `size_t` is below it. */
  const SIZE_BOUND: nat := 0x1_0000_0000_0000_0000

  // ---------------------------------------------------------------------
  // The size header.

  function Pow256(k: nat): (p: nat)
    ensures p >= 1
  {
    if k == 0 then 1 else 256 * Pow256(k - 1)
  }

  /** Powers of 256 multiply by adding exponents. */
  lemma {:induction false} Pow256Add(a: nat, b: nat)
    ensures Pow256(a + b) == Pow256(a) * Pow256(b)
    decreases a
  {
    if a > 0 {
      Pow256Add(a - 1, b);
    }
  }

  /** The `k` little-endian bytes of `x`. */
  function EncodeLE(x: nat, k: nat): (bs: seq<Byte>)
    ensures |bs| == k
  {
    if k == 0 then [] else [x % 256] + EncodeLE(x / 256, k - 1)
  }

  /** The number whose little-endian bytes are `bs`. */
  function DecodeLE(bs: seq<Byte>): nat
  {
    if |bs| == 0 then 0 else bs[0] + 256 * DecodeLE(bs[1..])
  }

  lemma HeaderRange()
    ensures Pow256(HEADER) == SIZE_BOUND
  {
  }

  lemma DivMod256(x: nat)
    ensures x == x % 256 + 256 * (x / 256)
  {
  }

  lemma DivBound(x: nat, k: nat)
    requires k > 0 && x < Pow256(k)
    ensures x / 256 < Pow256(k - 1)
  {
  }

  /** Reading back a header gives the size that was written, for every size that fits in `k` bytes. */
  lemma {:induction false} DecodeEncode(x: nat, k: nat)
    requires x < Pow256(k)
    ensures DecodeLE(EncodeLE(x, k)) == x
  {
    if k > 0 {
      DivBound(x, k);
      DecodeEncode(x / 256, k - 1);
      var bs := EncodeLE(x, k);
      assert bs[1..] == EncodeLE(x / 256, k - 1);
      DivMod256(x);
    }
  }

  /** Every `k`-byte header holds a number below 256^k. */
  lemma {:induction false} DecodeBound(bs: seq<Byte>)
    ensures DecodeLE(bs) < Pow256(|bs|)
  {
    if |bs| > 0 {
      DecodeBound(bs[1..]);
    }
  }

  /** Writing back a header read from memory reproduces its bytes. */
  lemma {:induction false} EncodeDecode(bs: seq<Byte>)
    ensures EncodeLE(DecodeLE(bs), |bs|) == bs
  {
    if |bs| > 0 {
      var x := DecodeLE(bs);
      var rest := DecodeLE(bs[1..]);
      DecodeBound(bs[1..]);
      LowByte(bs[0], rest);
      EncodeDecode(bs[1..]);
    }
  }

  lemma LowByte(b: Byte, rest: nat)
    ensures (b + 256 * rest) % 256 == b && (b + 256 * rest) / 256 == rest
  {
  }

  // ---------------------------------------------------------------------
  // linmem

  /** The blocks handed out so far, as (offset, length) pairs, lie end to end from 0 up to `len`. */
  ghost predicate Tiles(blocks: seq<(nat, nat)>, len: nat)
  {
    if |blocks| == 0 then len == 0
    else
      var b := blocks[|blocks| - 1];
      b.0 + b.1 == len && Tiles(blocks[..|blocks| - 1], b.0)
  }

  /** Two blocks of a tiling never overlap: an earlier block ends before a later one starts, and all end by `len`. */
  lemma {:induction false} TiledBlocksDisjoint(blocks: seq<(nat, nat)>, len: nat, i: nat, j: nat)
    requires Tiles(blocks, len) && i < j < |blocks|
    ensures blocks[i].0 + blocks[i].1 <= blocks[j].0
    ensures blocks[j].0 + blocks[j].1 <= len
    decreases |blocks|
  {
    var n := |blocks| - 1;
    var init := blocks[..n];
    if j < n {
      TiledBlocksDisjoint(init, blocks[n].0, i, j);
    } else {
      TiledBlockBelow(init, blocks[n].0, i);
    }
  }

  /** Every block of a tiling ends by `len`. */
  lemma {:induction false} TiledBlockBelow(blocks: seq<(nat, nat)>, len: nat, i: nat)
    requires Tiles(blocks, len) && i < |blocks|
    ensures blocks[i].0 + blocks[i].1 <= len
    decreases |blocks|
  {
    var n := |blocks| - 1;
    if i < n {
      TiledBlockBelow(blocks[..n], blocks[n].0, i);
    }
  }

  /** `linmem`: a byte array of capacity `data.Length` of which the first `len` bytes are handed out. */
  class Linmem {
    var data: array<Byte>
    var len: nat
    ghost var blocks: seq<(nat, nat)>

    /** `linmem_ASSERT`, with the blocks handed out tiling the used prefix. */
    ghost predicate Valid()
      reads this
    {
      len <= data.Length && Tiles(blocks, len)
    }

    /** `linmem_create`: capacity 100000, nothing handed out. */
    constructor ()
      ensures Valid() && fresh(data)
      ensures len == 0 && data.Length == INITIAL_CAP && blocks == []
    {
      data := new Byte[INITIAL_CAP];
      len := 0;
      blocks := [];
    }

    /** `linmem_malloc`: the block starts at the old `len`; earlier bytes are kept, the capacity doubles as needed. */
    method Malloc(n: nat) returns (off: nat)
      requires Valid() && (data.Length > 0 || len + n <= data.Length)
      requires len + n < SIZE_BOUND
      modifies this
      ensures Valid()
      ensures off == old(len) && len == old(len) + n
      ensures data.Length == DoublingArray.GrownCap(old(data.Length), old(len) + n)
      ensures data[..off] == old(data[..len])
      ensures blocks == old(blocks) + [(off, n)]
      ensures data == old(data) || fresh(data)
    {
      data := DoublingArray.MakeAvailable(data, len + n);
      off := len;
      len := len + n;
      blocks := blocks + [(off, n)];
      assert blocks[..|blocks| - 1] == old(blocks);
    }

    /** `linmem_free`: the storage is released; length and capacity become 0. */
    method Free()
      requires Valid()
      modifies this
      ensures Valid() && len == 0 && data.Length == 0 && blocks == []
    {
      data := new Byte[0];
      len := 0;
      blocks := [];
    }
  }

  // ---------------------------------------------------------------------
  // stackmem

  /**
    The block stack: `frames` holds, for every live block from the oldest,
    the `(len, top)` the arena had before that block was allocated. The
    newest block's header sits at its frame's `len` and holds the distance
    back to its frame's `top`; below it the older blocks are stacked the
    same way.
  */
  ghost predicate Stacked(d: seq<Byte>, frames: seq<(nat, nat)>, len: nat, top: nat)
    decreases |frames|
  {
    if |frames| == 0 then len == 0 && top == 0
    else
      var f := frames[|frames| - 1];
      && top == f.0 + HEADER && top <= len && len <= |d| && f.1 <= f.0
      && DecodeLE(d[f.0..f.0 + HEADER]) == f.0 - f.1
      && Stacked(d, frames[..|frames| - 1], f.0, f.1)
  }

  /** The stack depends only on the bytes below `len`. */
  lemma {:induction false} StackedKeptBelow(d: seq<Byte>, e: seq<Byte>, frames: seq<(nat, nat)>, len: nat, top: nat)
    requires Stacked(d, frames, len, top)
    requires len <= |e| && e[..len] == d[..len]
    ensures Stacked(e, frames, len, top)
    decreases |frames|
  {
    if |frames| > 0 {
      var f := frames[|frames| - 1];
      assert e[f.0..f.0 + HEADER] == e[..len][f.0..f.0 + HEADER];
      assert d[f.0..f.0 + HEADER] == d[..len][f.0..f.0 + HEADER];
      StackedKeptBelow(d, e, frames[..|frames| - 1], f.0, f.1);
    }
  }

  lemma PrefixOfPrefix(a: seq<Byte>, b: seq<Byte>, len: nat)
    requires |b| <= |a| && a[..|b|] == b && len <= |b|
    ensures a[..len] == b[..len]
  {
    assert a[..len] == a[..|b|][..len];
  }

  /** Writing a header at `len` that points back to `top` pushes one frame onto the block stack. */
  lemma StackPush(d: seq<Byte>, e: seq<Byte>, frames: seq<(nat, nat)>, len: nat, top: nat, n: nat)
    requires Stacked(d, frames, len, top)
    requires len + HEADER + n <= |e| && |d| == |e| && e[..len] == d[..len]
    requires top <= len && DecodeLE(e[len..len + HEADER]) == len - top
    ensures Stacked(e, frames + [(len, top)], len + HEADER + n, len + HEADER)
  {
    StackedKeptBelow(d, e, frames, len, top);
    var fs := frames + [(len, top)];
    assert fs[..|fs| - 1] == frames;
  }

  /** The header written at `at` reads back as the size written. */
  lemma HeaderReadsBack(e: seq<Byte>, at: nat, x: nat)
    requires at + HEADER <= |e| && x < SIZE_BOUND && e[at..at + HEADER] == EncodeLE(x, HEADER)
    ensures DecodeLE(e[at..at + HEADER]) == x
  {
    HeaderRange();
    DecodeEncode(x, HEADER);
  }

  lemma StackedTop(d: seq<Byte>, frames: seq<(nat, nat)>, len: nat, top: nat)
    requires Stacked(d, frames, len, top)
    ensures top <= len
  {
  }

  /** `stackmem`: `top` is the offset of the newest block, just past its header. */
  class Stackmem {
    var data: array<Byte>
    var len: nat
    var top: nat
    ghost var frames: seq<(nat, nat)>

    /** `stackmem_ASSERT`, with the headers forming the block stack. */
    ghost predicate Valid()
      reads this, data
    {
      len <= data.Length && Stacked(data[..], frames, len, top)
    }

    /** `stackmem_create`: capacity 100000, empty, `top` at the start of the arena. */
    constructor ()
      ensures Valid() && fresh(data)
      ensures len == 0 && top == 0 && data.Length == INITIAL_CAP && frames == []
    {
      data := new Byte[INITIAL_CAP];
      len := 0;
      top := 0;
      frames := [];
    }

    /** `stackmem_malloc`: write the header at `len`, then hand out the `n` bytes after it. */
    method Malloc(n: nat) returns (block: nat)
      requires Valid() && data.Length > 0
      requires len + n + HEADER < SIZE_BOUND
      modifies this, data
      ensures Valid() && data.Length > 0
      ensures block == top == old(len) + HEADER
      ensures len == old(len) + n + HEADER
      ensures frames == old(frames) + [(old(len), old(top))]
      ensures data[..old(len)] == old(data[..len])
      ensures data.Length == DoublingArray.GrownCap(old(data.Length), old(len) + n + HEADER)
      ensures data == old(data) || fresh(data)
    {
      MakeAvailable(len + n + HEADER);
      block := PushFrame(n);
    }

    /** The header write and the bookkeeping of `stackmem_malloc`, once the room is there. */
    method PushFrame(n: nat) returns (block: nat)
      requires Valid() && len + n + HEADER <= data.Length
      requires len + n + HEADER < SIZE_BOUND
      modifies this, data
      ensures Valid() && data == old(data)
      ensures block == top == old(len) + HEADER
      ensures len == old(len) + n + HEADER
      ensures frames == old(frames) + [(old(len), old(top))]
      ensures data[..old(len)] == old(data[..len])
    {
      var head := len;
      StackedTop(data[..], frames, len, top);
      var prevBlock := head - top;
      ghost var before := data[..];
      WriteHeader(head, prevBlock);
      StackPush(before, data[..], frames, len, top, n);
      frames := frames + [(len, top)];
      top := head + HEADER;
      len := len + n + HEADER;
      block := top;
    }

    /** `stackmem_make_available`: grow the capacity to at least `newlen`, keeping the block stack. */
    method MakeAvailable(newlen: nat)
      requires Valid() && data.Length > 0
      modifies this
      ensures Valid() && data.Length > 0 && data.Length >= newlen
      ensures len == old(len) && top == old(top) && frames == old(frames)
      ensures data[..len] == old(data[..len])
      ensures data.Length == DoublingArray.GrownCap(old(data.Length), newlen)
      ensures data == old(data) || fresh(data)
    {
      ghost var before := data[..];
      data := DoublingArray.MakeAvailable(data, newlen);
      PrefixOfPrefix(data[..], before, len);
      StackedKeptBelow(before, data[..], frames, len, top);
    }

    /** Store the 8-byte header `x` at `at`, leaving every byte below `at` as it was. */
    method WriteHeader(at: nat, x: nat)
      requires at + HEADER <= data.Length && x < SIZE_BOUND
      modifies data
      ensures DecodeLE(data[at..at + HEADER]) == x
      ensures data[..at] == old(data[..at])
    {
      var bs := EncodeLE(x, HEADER);
      forall i | 0 <= i < HEADER {
        data[at + i] := bs[i];
      }
      assert data[at..at + HEADER] == bs;
      HeaderReadsBack(data[..], at, x);
    }

    /** `stackmem_free_top`: read the newest block's header and restore the `len` and `top` from before that block. */
    method FreeTop()
      requires Valid() && len > 0
      modifies this
      ensures Valid() && data == old(data)
      ensures frames == old(frames[..|frames| - 1])
      ensures (len, top) == old(frames[|frames| - 1])
    {
      var head := len;
      var prevSize := DecodeLE(data[top - HEADER..top]);
      len := len - ((head - top) + HEADER);
      top := top - prevSize - HEADER;
      frames := frames[..|frames| - 1];
    }

    /** `stackmem_freeall`: the storage is released and length and capacity become 0; `top` is left as it was. */
    method FreeAll()
      requires Valid()
      modifies this
      ensures len == 0 && data.Length == 0 && top == old(top) && frames == []
    {
      data := new Byte[0];
      len := 0;
      frames := [];
    }
  }

  /** `stackmem_malloc` followed by `stackmem_free_top` leaves `len`, `top` and the block stack exactly as they were. */
  method MallocThenFreeTop(m: Stackmem, n: nat)
    requires m.Valid() && m.data.Length > 0
    requires m.len + n + HEADER < SIZE_BOUND
    modifies m, m.data
    ensures m.Valid()
    ensures m.len == old(m.len) && m.top == old(m.top) && m.frames == old(m.frames)
  {
    var _ := m.Malloc(n);
    m.FreeTop();
  }
}
