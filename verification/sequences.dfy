/** Facts about sequences that the proofs of both the reading and the
    writing side use. */
module Sequences {

  /** Regrouping a concatenation of three sequences. */
  lemma SeqAssoc<T>(a: seq<T>, b: seq<T>, c: seq<T>)
    ensures a + b + c == a + (b + c)
  {
  }
}
