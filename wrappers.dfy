/** Option and Result values used for the source's `None` and its raised exceptions. */
module Wrappers {

  datatype Option<+T> = None | Some(value: T) {
    function GetOr(default: T): T {
      match this
      case Some(v) => v
      case None => default
    }
  }

  /** A Python call that either returns a value or raises; the error carries `str(e)`. */
  datatype Result<+R> = Success(value: R) | Failure(error: string)
}
