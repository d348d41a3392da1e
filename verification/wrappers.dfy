/** Failure-carrying values: Go's `(value, error)` pairs and nil-able pointers. */
module Wrappers {

  /** A value that may be absent (a nil pointer or a nil error in Go). */
  datatype Option<+T> = None | Some(value: T)

  /** Either a value or the text of the error that replaced it. */
  datatype Result<+T, +E> = Success(value: T) | Failure(error: E)
}
