/** Failure-carrying results shared by every module of the model. */
module Wrappers {

  /** Python's `None` or a present value. */
  datatype Option<+T> = None | Some(value: T) {
    function GetOr(default: T): T {
      match this
      case Some(v) => v
      case None => default
    }
  }

  /** A value, or the exception the source would raise instead of returning. */
  datatype Result<+T, +E> = Ok(value: T) | Err(error: E)
}
