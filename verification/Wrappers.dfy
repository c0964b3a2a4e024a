/** Option and Result, the two failure-carrying datatypes every other module uses. */
module Wrappers {

  datatype Option<+T> = None | Some(value: T) {
    /** The carried value, or the given default. */
    function GetOr(default: T): T {
      match this
      case Some(v) => v
      case None => default
    }
  }

  datatype Result<+T, +E> = Ok(value: T) | Err(error: E)
}
