/** Failure-carrying return values, standing in for Go's `nil` results and `(value, error)` pairs. */
module Wrappers {

  /** A value that may be absent: a Go `*T` that may be nil, or a decode that may fail. */
  datatype Option<+T> = None | Some(value: T)

  /** A value or the error that replaced it. */
  datatype Result<+T, +E> = Success(value: T) | Failure(error: E)
}
