/** Wrappers used throughout the model: `Option` for the
    JavaScript values that may be `undefined`, `Result` for operations that
    either produce a value or raise an error. */
module Wrappers {

  datatype Option<+T> = None | Some(value: T) {

    /** The wrapped value, or `default` when there is none. */
    function GetOr(default: T): T {
      match this
      case Some(v) => v
      case None => default
    }
  }

  datatype Result<+R, +E> = Success(value: R) | Failure(error: E)
}
