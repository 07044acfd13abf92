/** Failure-carrying results used where the Go code returns nil or an error. */
module Wrappers {

  /** A value, or nothing (Go's nil interface). */
  datatype Option<+T> = None | Some(value: T)

  /** A value, or the error the operation returns instead. */
  datatype Result<+T, +E> = Ok(value: T) | Err(error: E)
}
