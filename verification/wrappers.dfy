/** The optional-value datatype shared by the other modules. */
module Wrappers {

  /** A value that may be absent: an optional Lua argument, a C pointer
      that may be NULL, an error string that is pushed only sometimes. */
  datatype Option<+T> = None | Some(value: T) {

    /** The carried value, or `default` when there is none. */
    function GetOr(default: T): T {
      match this
      case Some(v) => v
      case None => default
    }
  }
}
