/** Option and Result values for the absent-value and error returns of the saved-variables tools. */
module Wrappers {

  /** A value that may be missing, like Python's `Optional[T]`. */
  datatype Option<+T> = None | Some(value: T) {

    /** The wrapped value, or `default` when there is none (Python's `d.get(k, default)`). */
    function GetOr(default: T): T {
      match this
      case Some(v) => v
      case None => default
    }
  }

  /** Either a value or the error a Python call would raise. */
  datatype Result<+R, +E> = Success(value: R) | Failure(error: E)
}
