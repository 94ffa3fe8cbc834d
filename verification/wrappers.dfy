/** Failure-carrying datatypes shared by the whole model. */
module Wrappers {

  /** A value that may be absent: Go's nil pointer, a missing map entry,
      an optional argument. */
  datatype Option<+T> = None | Some(value: T) {
    function GetOr(default: T): T {
      match this
      case Some(v) => v
      case None => default
    }
  }

  /** The value-or-error pair a Go function returns as `(T, error)`. */
  datatype Result<+T, +E> = Ok(value: T) | Err(error: E)
}
