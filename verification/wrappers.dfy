/** Failure-compatible optional values, used for command output that may be absent. */
module Wrappers {

  /** `None` models a command that failed (or a Python `None`); `Some(v)` carries a value. */
  datatype Option<+T> = None | Some(value: T) {

    /** Returns the encapsulated value, or `default` when there is none. */
    function GetOr(default: T): T {
      match this
      case Some(v) => v
      case None => default
    }
  }
}
