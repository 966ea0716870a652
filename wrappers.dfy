/** Optional values and results with an error, standing for Go's nil pointers and (value, error) returns. */
module Wrappers {

  /** A Go pointer that may be nil: None is nil, Some(v) points at v. */
  datatype Option<+T> = None | Some(value: T)

  /** A Go (value, error) pair where exactly one side is meaningful. */
  datatype Result<+T, +E> = Ok(value: T) | Err(error: E)

  /** The way a Go function ends: it returns a value, or it panics. */
  datatype Outcome<+T> = Returned(value: T) | Panicked
}
