/** Option and Result wrappers used across the model. */
module Wrappers {

  datatype Option<T> = None | Some(value: T)

  /** The outcome of an operation that may raise: a value, or the error it raised. */
  datatype Result<T, E> = Success(value: T) | Failure(error: E)
}
