/** The Option type used for values that may be absent: a lookup that finds
    nothing, or a number that JavaScript would read as NaN. */
module Wrappers {

  datatype Option<+T> = None | Some(value: T) {

    /** The wrapped value, or `default` when there is none (JavaScript's `x || d`
        on an entry that may be missing). */
    function GetOr(default: T): T {
      match this
      case Some(v) => v
      case None => default
    }
  }
}
