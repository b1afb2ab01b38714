/** Failure-carrying values shared by every module: Go's `(value, error)` pairs. */
module Wrappers {

  datatype Option<+T> = None | Some(value: T)

  /** The result of a Go call that returns a value and an error. */
  datatype Result<+R, +E> = Success(value: R) | Failure(error: E)
}
