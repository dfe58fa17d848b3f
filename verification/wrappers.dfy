/** Optional values, and results of operations that may throw. */
module Wrappers {

  /** A value that may be absent, as a missing parameter or a failed lookup. */
  datatype Option<+T> = None | Some(value: T) {

    /** Returns the value in Some, or `default` for None. */
    function GetOr(default: T): T {
      match this
      case Some(v) => v
      case None => default
    }
  }

  /** Either a value or an error, as an operation that may throw. */
  datatype Result<+R, +E> = Success(value: R) | Failure(error: E)
}
