/** Option and Result, the stand-ins for Go's nil pointers and (value, error) pairs. */
module Wrappers {

  /** A Go pointer that may be nil: None is nil, Some(v) points at v. */
  datatype Option<+T> = None | Some(value: T)

  /** A Go `(value, error)` return: Failure carries the non-nil error. */
  datatype Result<+R, +E> = Success(value: R) | Failure(error: E)
}
