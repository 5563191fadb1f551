/** Optional values and the outcome of a call that may raise. */
module Wrappers {

  datatype Option<+T> = None | Some(value: T) {
    function GetOr(default: T): T {
      match this
      case Some(v) => v
      case None => default
    }
  }

  /** What a Python call gives back: a value, or an exception that propagates to the caller. */
  datatype Attempt<+T> = Ok(value: T) | Raised
}
