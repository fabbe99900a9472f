/** Failure-compatible result types shared by the model. */
module Wrappers {

  datatype Option<+T> = None | Some(value: T) {
    function GetOr(default: T): T {
      match this
      case Some(v) => v
      case None => default
    }
  }

  /** A value, or the message of the exception the source raises instead. */
  datatype Result<+R, +E> = Success(value: R) | Failure(error: E)
}
