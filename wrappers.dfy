/** Failure-compatible wrappers: JavaScript's NaN/undefined become None, thrown
    or returned HTTP errors become Err. */
module Wrappers {

  datatype Option<+T> = None | Some(value: T) {
    /** The value, or `default` when there is none (JavaScript's `x || 0` and `isNaN(x) ? 0 : x`). */
    function GetOr(default: T): T {
      match this
      case Some(v) => v
      case None => default
    }
  }

  datatype Result<+T, +E> = Ok(value: T) | Err(error: E)
}
