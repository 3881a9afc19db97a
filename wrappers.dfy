/** Option and Result values shared by every module of the model. */
module Wrappers {
  /** A Go value that may be nil. */
  datatype Option<T> = None | Some(value: T)

  /** A Go `(value, error)` pair: exactly one side is meaningful. */
  datatype Result<T, E> = Success(value: T) | Failure(error: E)
  {
    predicate IsFailure() { Failure? }
  }

  /** A Go call that either returns a value or panics (an out-of-range slice or index, say). */
  datatype Outcome<T> = Returns(value: T) | Panics
}
