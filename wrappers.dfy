/** Failure-compatible wrapper used wherever the C code returns NULL or -1, and a sequence fact the proofs share. */
module Wrappers {

  datatype Option<+T> = None | Some(value: T)

  /** Concatenation is associative; stated apart so that proofs about token streams need not re-derive it. */
  lemma ConcatAssoc<T>(a: seq<T>, b: seq<T>, c: seq<T>)
    ensures (a + b) + c == a + (b + c)
  {
  }

}
