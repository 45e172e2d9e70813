/** The optional value used for the results of external calls that can fail
    (a container inspection, an address lease). */
module Wrappers {

  datatype Option<+T> = None | Some(value: T) {

    /** The value in Some, or a default when None. */
    function GetOr(default: T): T {
      match this
      case Some(v) => v
      case None => default
    }
  }
}
