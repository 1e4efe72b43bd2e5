/** The usual Some/None datatype, standing for a value that may be absent
    (an optional field, `undefined`, a `null` result). */
module Wrappers {

  datatype Option<+T> = None | Some(value: T) {

    /** The encapsulated value, or `default` when there is none. */
    function GetOr(default: T): T {
      match this
      case Some(v) => v
      case None => default
    }
  }
}
