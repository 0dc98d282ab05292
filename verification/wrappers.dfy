/** Failure-compatible wrappers shared by the whole model: `Option` for the
    source's `null`/`undefined` values and `Result` for operations that can
    throw or reject their input. */
module Wrappers {

  datatype Option<+T> = None | Some(value: T) {
    function GetOr(default: T): T {
      match this
      case Some(v) => v
      case None => default
    }
  }

  datatype Result<+R, +E> = Success(value: R) | Failure(error: E)
}
