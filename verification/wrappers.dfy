/** Optional values: the model's stand-in for pandas' NaN / Python's None. */
module Wrappers {

  datatype Option<+T> = None | Some(value: T) {

    /** Returns the value held in Some, or `default` when None. */
    function GetOr(default: T): (v: T) {
      match this
      case Some(v) => v
      case None => default
    }
  }
}
