/** Failure-carrying values: the model's stand-in for Python's `None` and for exceptions. */
module Wrappers {

  datatype Option<+T> = None | Some(value: T)

  /** A computation that either produced a value or raised an error. */
  datatype Result<+R, +E> = Success(value: R) | Failure(error: E)

  /** A check that either let its input through or raised an error. */
  datatype Outcome<+E> = Pass | Fail(error: E)

  /** Sequence concatenation is associative. */
  lemma ConcatAssoc<T>(x: seq<T>, y: seq<T>, z: seq<T>)
    ensures x + (y + z) == (x + y) + z
  {
  }
}
