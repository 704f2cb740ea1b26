/** Optional values and results with an error, used for Go's nil pointers and
    maps, JavaScript's NaN/undefined, and the one JavaScript exception the
    model keeps. */
module Wrappers {

  datatype Option<+T> = None | Some(value: T) {
    function GetOr(default: T): T {
      match this
      case Some(v) => v
      case None => default
    }
  }

  datatype Result<+T, +E> = Ok(value: T) | Err(error: E)
}
