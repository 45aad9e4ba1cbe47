/** Failure-carrying result types, and a fact about sequences, shared by the modules of the model. */
module Wrappers {

  /** A value that may be absent: a `nullptr`, a NaN coordinate, a failed conversion. */
  datatype Option<+T> = None | Some(value: T)

  /** The outcome of an operation that either returns a value or raises an error. */
  datatype Result<+T, +E> = Success(value: T) | Failure(error: E)

  /**
   * Concatenation regroups freely; stated once so that loops which append piece by piece need
   * not re-derive it element by element.
   */
  lemma AppendAssociative<T>(a: seq<T>, b: seq<T>, c: seq<T>)
    ensures (a + b) + c == a + (b + c)
  {
  }
}
