/** The optional value used for a missing spreadsheet cell (pandas NaN) and a missing OFX memo. */
module Wrappers {

  datatype Option<+T> = None | Some(value: T) {

    /** The wrapped value, or `default` when there is none (pandas `combine_first`). */
    function GetOr(default: T): T {
      match this
      case Some(v) => v
      case None => default
    }
  }
}
