/** Option and Result, used for the extractor's failures and the handler's error paths. */
module Wrappers {

  datatype Option<+T> = None | Some(value: T) {

    /** dict.get(key, default): the value when present, the default otherwise */
    function GetOr(default: T): T {
      match this
      case Some(v) => v
      case None => default
    }
  }

  datatype Result<+T, +E> = Success(value: T) | Failure(error: E)
}
