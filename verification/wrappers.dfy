/** JavaScript's `null`/`undefined` as a value that may be absent. */
module Wrappers {

  datatype Option<+T> = None | Some(value: T) {

    /** The held value, with `default` standing in for an absent one. */
    function GetOr(default: T): T {
      match this
      case Some(v) => v
      case None => default
    }
  }
}
