/** Option and Result, the two wrappers the model uses for Go's nil-able values and (value, error) pairs. */
module Wrappers {

  /** A value that may be absent, as a Go `error` that may be nil. */
  datatype Option<+T> = None | Some(value: T)

  /** A Go (value, error) pair in which exactly one part matters. */
  datatype Result<+R, +E> = Ok(value: R) | Err(error: E)
}
