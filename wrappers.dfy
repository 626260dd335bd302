/** Failure-carrying datatypes shared by the model. */
module Wrappers {

  /** A value that may be missing (a Go nil pointer, a token not yet found). */
  datatype Option<+T> = None | Some(value: T) {

    /** The value, or `default` when there is none. */
    function GetOr(default: T): T {
      match this
      case Some(v) => v
      case None => default
    }
  }

  /** A Go `(value, err)` pair: either a value or the error's message. */
  datatype Result<+R, +E> = Success(value: R) | Failure(error: E)
}
