/** Failure-carrying results used wherever the scripts raise and then catch an
    exception (a zero-sized image, a malformed colour string). */
module Wrappers {

  datatype Option<+T> = None | Some(value: T) {

    /** The carried value, or `default` when there is none. */
    function GetOr(default: T): T {
      match this
      case Some(v) => v
      case None => default
    }
  }
}
