/** Option and Result, the two failure-carrying wrappers used across the model. */
module Wrappers {

  datatype Option<+T> = None | Some(value: T)

  /** A value, or the exception that the PHP code would have thrown instead. */
  datatype Result<+T, +E> = Success(value: T) | Failure(error: E)
}
