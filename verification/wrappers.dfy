/** Option and Result values shared by every module of the model. */
module Wrappers {

  /** A value that may be missing: Python's `None`, JavaScript's `null`/`undefined`. */
  datatype Option<+T> = None | Some(value: T) {
    function GetOr(default: T): T {
      match this
      case Some(v) => v
      case None => default
    }
  }

  /** The outcome of an operation whose source raises or rejects on failure. */
  datatype Result<+T, +E> = Ok(value: T) | Err(error: E)
}
