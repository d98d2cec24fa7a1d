/** Failure-carrying datatypes shared by every module of the model. */
module Wrappers {

  /** A value that may be absent, as a Go nil does. */
  datatype Option<+T> = None | Some(value: T)

  /** The value or error pair that Go functions return as `(T, error)`. */
  datatype Result<+T, +E> = Ok(value: T) | Fail(error: E)
}
