/** Shared building blocks: the optional value used throughout the model
    (`None` stands for JavaScript's `null`/`undefined` where the source returns
    one of them), and a sequence lemma the proofs of several modules use. */
module Wrappers {

  datatype Option<+T> = None | Some(value: T)

  /** Sequence concatenation regrouped, for proofs that keep it out of sight
      until it is needed. */
  lemma Associate<T>(a: seq<T>, b: seq<T>, c: seq<T>)
    ensures a + b + c == a + (b + c)
  {
  }
}
