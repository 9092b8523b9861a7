/** Small shared types: the optional value used wherever the source has a value that may be `undefined`, and time stamps. */
module Wrappers {

  /** A time as milliseconds since the epoch. */
  type Millis = int

  datatype Option<+T> = None | Some(value: T) {

    /** The value, or `default` when there is none (the source's `x ?? default`). */
    function GetOr(default: T): T
    {
      match this
      case Some(v) => v
      case None => default
    }
  }
}
