/** The Option and Result datatypes used throughout the resolver model. */
module Wrappers {

  /** A value that may be absent: Python's `None`, or a missing dictionary key. */
  datatype Option<+T> = None | Some(value: T)

  /** The outcome of an operation that may raise: `Success` or the exception it raises. */
  datatype Result<+R, +E> = Success(value: R) | Failure(error: E) {

    /** The same exception, re-raised from a caller with a different result type. */
    function PropagateFailure<U>(): Result<U, E>
      requires Failure?
    {
      Failure(error)
    }
  }
}
