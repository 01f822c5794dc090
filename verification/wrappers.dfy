/** Failure-carrying values shared by every module of the model. */
module Wrappers {

  datatype Option<+T> = None | Some(value: T)

  /** The value of a call that either produced `value` or failed with `error`. */
  datatype Result<+T, +E> = Ok(value: T) | Err(error: E)
}
