/** Failure-carrying values used for the error returns of the program. */
module Wrappers {

  /** A value that may be missing: Go's nil pointer or "not found". */
  datatype Option<+T> = None | Some(value: T)

  /** A value or an error: Go's `(value, error)` return pair. */
  datatype Result<+T, +E> = Success(value: T) | Failure(error: E)
}
