/** Failure-carrying values shared by the modules of this model. */
module Wrappers {

  /** A value that may be absent: a Go `nil` error, an unset flag, a file that could not be opened. */
  datatype Option<+T> = None | Some(value: T)

  /** The `(value, error)` pair a Go function returns, with exactly one side present. */
  datatype Result<+R, +E> = Success(value: R) | Failure(error: E)
}
