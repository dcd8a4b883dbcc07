/**
  The capacity-doubling growth of doubling_array.h.

  `DBL_ARR_MAKE_AVAILABLE` generates, for each growable buffer, a loop that
  doubles the capacity (reallocating the backing store each time) until the
  requested length fits. Here the backing store is a Dafny array whose
  length is the capacity; `MakeAvailable` is the generated loop, written
  once for every element type.
*/
module DoublingArray {

  function Pow2(k: nat): (p: nat)
    ensures p >= 1
  {
    if k == 0 then 1 else 2 * Pow2(k - 1)
  }

  /** Powers of two multiply by adding exponents. */
  lemma {:induction false} Pow2Add(a: nat, b: nat)
    ensures Pow2(a + b) == Pow2(a) * Pow2(b)
    decreases a
  {
    if a > 0 {
      Pow2Add(a - 1, b);
    }
  }

  /** The capacity the doubling loop stops at. */
  function GrownCap(cap: nat, newlen: nat): (c: nat)
    requires cap > 0 || newlen <= cap
    ensures c >= newlen && c >= cap
    ensures newlen <= cap ==> c == cap
    ensures c > cap ==> c < 2 * newlen
    decreases newlen - cap
  {
    if newlen <= cap then cap else GrownCap(2 * cap, newlen)
  }

  /** The number of doublings the loop performs. */
  function Doublings(cap: nat, newlen: nat): nat
    requires cap > 0 || newlen <= cap
    decreases newlen - cap
  {
    if newlen <= cap then 0 else 1 + Doublings(2 * cap, newlen)
  }

  /** The grown capacity is the old one times a power of two. */
  lemma {:induction false} GrownCapIsPowerMultiple(cap: nat, newlen: nat)
    requires cap > 0 || newlen <= cap
    ensures GrownCap(cap, newlen) == cap * Pow2(Doublings(cap, newlen))
    decreases newlen - cap
  {
    if newlen > cap {
      GrownCapIsPowerMultiple(2 * cap, newlen);
      DoubleFactor(cap, Pow2(Doublings(2 * cap, newlen)));
    }
  }

  lemma DoubleFactor(c: nat, p: nat)
    ensures (2 * c) * p == c * (2 * p)
  {
  }

  /** The capacity after `k` turns of the loop body `cap = cap * 2`. */
  function AfterTurns(cap: nat, k: nat): nat
    decreases k
  {
    if k == 0 then cap else AfterTurns(2 * cap, k - 1)
  }

  /** `k` turns of the loop body multiply the capacity by `2^k`. */
  lemma {:induction false} AfterTurnsIsPowerMultiple(cap: nat, k: nat)
    ensures AfterTurns(cap, k) == cap * Pow2(k)
    decreases k
  {
    if k > 0 {
      AfterTurnsIsPowerMultiple(2 * cap, k - 1);
      DoubleFactor(cap, Pow2(k - 1));
    }
  }

  /** The loop stops after `Doublings` turns, at `GrownCap`, and its guard held before every earlier turn. */
  lemma {:induction false} GrownCapAfterTurns(cap: nat, newlen: nat)
    requires cap > 0 || newlen <= cap
    ensures GrownCap(cap, newlen) == AfterTurns(cap, Doublings(cap, newlen))
    ensures forall k :: 0 <= k < Doublings(cap, newlen) ==> newlen > AfterTurns(cap, k)
    decreases newlen - cap
  {
    if newlen > cap {
      GrownCapAfterTurns(2 * cap, newlen);
      forall k | 0 <= k < Doublings(cap, newlen)
        ensures newlen > AfterTurns(cap, k)
      {
        if k > 0 {
          assert AfterTurns(cap, k) == AfterTurns(2 * cap, k - 1);
        }
      }
    }
  }

  /**
    On a freed buffer (capacity 0) the loop guard `newlen > cap` still holds
    after any number of turns, so a non-empty request never ends the loop.
  */
  lemma {:induction false} ZeroCapacityNeverSuffices(k: nat, newlen: nat)
    requires newlen > 0
    ensures AfterTurns(0, k) < newlen
    decreases k
  {
    if k > 0 {
      ZeroCapacityNeverSuffices(k - 1, newlen);
    }
  }

  /** `realloc` to `n` elements: the first `a.Length` elements are carried over. */
  method Resized<T(0)>(a: array<T>, n: nat) returns (b: array<T>)
    requires a.Length <= n
    ensures fresh(b) && b.Length == n
    ensures b[..a.Length] == a[..]
  {
    b := new T[n];
    forall i | 0 <= i < a.Length {
      b[i] := a[i];
    }
  }

  /** `*_make_available(t, newlen)`: double the capacity until `newlen` elements fit. */
  method MakeAvailable<T(0)>(data: array<T>, newlen: nat) returns (grown: array<T>)
    requires data.Length > 0 || newlen <= data.Length
    ensures grown.Length == GrownCap(data.Length, newlen)
    ensures grown.Length >= newlen && grown.Length >= data.Length
    ensures newlen <= data.Length ==> grown == data
    ensures grown == data || fresh(grown)
    ensures grown[..data.Length] == data[..]
  {
    grown := data;
    var cap := data.Length;
    while newlen > cap
      invariant cap == grown.Length
      invariant cap > 0 || newlen <= cap
      invariant GrownCap(cap, newlen) == GrownCap(data.Length, newlen)
      invariant grown == data || fresh(grown)
      invariant newlen <= data.Length ==> grown == data
      invariant data.Length <= grown.Length && grown[..data.Length] == data[..]
      decreases newlen - cap
    {
      grown := Resized(grown, cap * 2);
      cap := cap * 2;
    }
  }
}
