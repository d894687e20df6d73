/** Failure-carrying return values, used where the Go code returns `(T, error)`. */
module Wrappers {

  datatype Option<+T> = None | Some(value: T)

  /** `Ok` for a nil error, `Err` for a non-nil one. */
  datatype Result<+T, +E> = Ok(value: T) | Err(error: E)
}
