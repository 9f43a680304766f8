/** Option and Result, the two ways the modelled Go code reports absence and failure. */
module Wrappers {

  /** A value that may be missing: a Go `nil` slice or pointer, a nil `error`. */
  datatype Option<+T> = None | Some(value: T)

  /** A value or an error, as returned by Go's `(T, error)` pairs. */
  datatype Result<+T, +E> = Ok(value: T) | Err(error: E)
}
