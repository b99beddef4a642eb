/** Failure-carrying results shared by the whole model. */
module Wrappers {
  datatype Option<+T> = None | Some(value: T)

  /** A Go `(value, error)` pair: the error is the sentinel the caller can test with `errors.Is`. */
  datatype Outcome<+T, +E> = Ok(value: T) | Err(error: E)
}
