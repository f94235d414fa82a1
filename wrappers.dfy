/** Failure-carrying values shared by every module of the model. */
module Wrappers {

  /** `Some(v)` for a present value, `None` for JavaScript's `undefined`. */
  datatype Option<+T> = None | Some(value: T)

  /** The value of an operation, or the error it throws. */
  datatype Result<+T, +E> = Ok(value: T) | Err(error: E)
}
