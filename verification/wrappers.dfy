/** The optional value used wherever the source has `None` or a missing key. */
module Wrappers {

  datatype Option<+T> = None | Some(value: T) {

    /** `x or default` for a value whose only falsy state is None. */
    function GetOr(default: T): T {
      match this
      case Some(v) => v
      case None => default
    }
  }
}
