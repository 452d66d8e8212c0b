/** Optional values and results with an error, as used throughout the model. */
module Wrappers {

  /** Python's `None` versus a present value. */
  datatype Option<+T> = None | Some(value: T) {
    function GetOr(default: T): T {
      match this
      case Some(v) => v
      case None => default
    }
  }

  /** A computation that either produced a value or raised an exception. */
  datatype Result<+R, +E> = Ok(value: R) | Err(error: E)
}
