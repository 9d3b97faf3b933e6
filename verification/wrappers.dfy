/** The conventional Some/None datatype, used where the source yields `null` or `undefined`. */
module Wrappers {

  datatype Option<+T> = None | Some(value: T) {

    /** Returns the value encapsulated in Some, or `default` if None (the `??` operator) */
    function GetOr(default: T): T {
      match this
      case Some(v) => v
      case None => default
    }
  }
}
