/** The result shapes used throughout the model: an optional value, a
    value-or-error result, and a pass-or-fail outcome. */
module Wrappers {

  /** A value that may be absent (Python's `None`). */
  datatype Option<+T> = None | Some(value: T) {

    /** The wrapped value, or `default` when absent. */
    function GetOr(default: T): T {
      match this
      case Some(v) => v
      case None => default
    }
  }

  /** Either a computed value or the error that prevented it. */
  datatype Result<+R, +E> = Success(value: R) | Failure(error: E)

  /** A check that either passes or fails with an error (Python: returns or raises). */
  datatype Outcome<+E> = Pass | Fail(error: E)
}
