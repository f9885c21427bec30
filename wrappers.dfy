/** Failure-compatible wrappers used for the error returns of the model. */
module Wrappers {

  /** An optional value: `None` plays the part of Go's nil. */
  datatype Option<+T> = None | Some(value: T)

  /** A value or an error, for Go's `(value, error)` result pairs. */
  datatype Result<+R, +E> = Success(value: R) | Failure(error: E)
}
