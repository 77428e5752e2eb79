/** Optional values, results and the Python exceptions the modelled code can raise. */
module Wrappers {

  datatype Option<+T> = None | Some(value: T) {
    function GetOr(default: T): T {
      match this
      case Some(v) => v
      case None => default
    }
  }

  /** Python exceptions that escape the modelled functions. */
  datatype PyError = IndexError | KeyError | TypeError | ValueError(message: string)

  datatype Result<+R, +E> = Success(value: R) | Failure(error: E)
}
