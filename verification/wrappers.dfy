/** Optional values: Python's `None` versus a present value, or a dictionary
    key that is absent versus present. */
module Wrappers {

  datatype Option<+T> = None | Some(value: T) {

    /** Returns the value held in Some, or a default for None */
    function GetOr(default: T): T {
      match this
      case Some(v) => v
      case None => default
    }
  }
}
