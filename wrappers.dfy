/** Option and Result, the failure-carrying values used across the model. */
module Wrappers {

  /** A value that may be absent (JavaScript's `undefined` result of `find`). */
  datatype Option<+T> = None | Some(value: T)

  /** The outcome of an operation that may throw. */
  datatype Result<+T, +E> = Success(value: T) | Failure(error: E)
}
