/** Failure-compatible wrappers used across the model. */
module Wrappers {

  datatype Option<+T> = None | Some(value: T)

  /** The outcome of a computation that may raise an exception. */
  datatype Result<+T, +E> = Ok(value: T) | Err(error: E)
}
