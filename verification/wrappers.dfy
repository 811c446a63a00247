/** Failure-compatible wrappers used across the model: `Option` for values the
    source represents as `None`, and `Result` for operations that raise. */
module Wrappers {

  datatype Option<+T> = None | Some(value: T) {

    /** Returns the wrapped value, or `default` when there is none. */
    function GetOr(default: T): T {
      match this
      case Some(v) => v
      case None => default
    }
  }

  /** `Ok(value)` for a normal return, `Err(error)` for a raised exception. */
  datatype Result<+T, +E> = Ok(value: T) | Err(error: E)
}
