/** Presence and failure wrappers used in place of Go's `nil` and `panic`. */
module Wrappers {

  /** A lookup result: Go's `nil` interface value becomes `None`. */
  datatype Option<+T> = None | Some(value: T)

  /** The outcome of a computation that can fail with an error value. */
  datatype Result<+R, +E> = Success(value: R) | Failure(error: E)
}
