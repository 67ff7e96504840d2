/** Optional values and error-or-value results, used in place of JavaScript's
    `undefined` and of thrown exceptions or rejected promises. */
module Wrappers {

  datatype Option<+T> = None | Some(value: T) {

    /** The value when present, else the given default. */
    function GetOr(default: T): T {
      match this
      case Some(v) => v
      case None => default
    }
  }

  datatype Result<+R, +E> = Success(value: R) | Failure(error: E)
}
