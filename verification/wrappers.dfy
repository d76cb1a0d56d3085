/** Absence and failure as values: Python's `None` and a raised exception. */
module Wrappers {

  /** A value or Python's `None`. */
  datatype Option<+T> = None | Some(value: T) {

    /** The value, or `default` when there is none (`dict.get(key, default)`). */
    function GetOr(default: T): T {
      match this
      case Some(v) => v
      case None => default
    }
  }

  /** A result, or the error an external call raised. */
  datatype Result<+T, +E> = Success(value: T) | Failure(error: E)
}
