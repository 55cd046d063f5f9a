/** Option and Result types shared by the model. */
module Wrappers {

  /** A value that may be absent (JavaScript `undefined`). */
  datatype Option<+T> = None | Some(value: T)

  /** The result of an operation that may throw. */
  datatype Result<+T, +E> = Success(value: T) | Failure(error: E)
}
