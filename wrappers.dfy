/** Optional values (Go's `*int` and other nil-able pointers) and results with an error. */
module Wrappers {

  /** `None` plays the part of Go's nil pointer. */
  datatype Option<+T> = None | Some(value: T) {
    function GetOr(default: T): T {
      match this
      case Some(v) => v
      case None => default
    }
  }

  /** A value or the error a Go function returns beside it. */
  datatype Result<+T, +E> = Ok(value: T) | Err(error: E)
}
