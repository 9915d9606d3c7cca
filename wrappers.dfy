/** Optional values shared by the other modules. */
module Wrappers {

  /** A value that may be absent (a missing key, an unreadable file). */
  datatype Option<+T> = None | Some(value: T) {

    /** The carried value, or `default` when there is none. */
    function GetOr(default: T): T {
      match this
      case Some(v) => v
      case None => default
    }
  }
}
