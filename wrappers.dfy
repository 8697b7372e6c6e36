/**
 * Optional values and results, used for Python's None and for raised
 * exceptions, and the regrouping of concatenated sequences.
 */
module Wrappers {

  datatype Option<+T> = None | Some(value: T)

  datatype Result<+R, +E> = Success(value: R) | Failure(error: E)

  /** Called where the pieces are too big for the verifier to regroup unaided. */
  lemma AppendAssoc<T>(a: seq<T>, b: seq<T>, c: seq<T>)
    ensures a + (b + c) == (a + b) + c
  {
  }
}
