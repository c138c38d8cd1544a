/** The Some/None datatype used for every parse that can fail. */
module Wrappers {

  datatype Option<+T> = None | Some(value: T) {

    /** The value held by Some, or the given default for None. */
    function GetOr(default: T): T {
      match this
      case Some(v) => v
      case None => default
    }
  }
}
