/** Failure-carrying values shared by every part of the model: an optional
    value (JavaScript's `undefined` or a missing field) and the outcome of a
    step that may throw. */
module Wrappers {

  datatype Option<+T> = None | Some(value: T) {

    /** The value, or `default` when there is none (JavaScript's `x || d`
        when only absence is falsy). */
    function GetOr(default: T): T {
      match this
      case Some(v) => v
      case None => default
    }
  }

  /** A computation that either produces a value or is abandoned with an
      error, as a thrown exception abandons a JavaScript `try` block. */
  datatype Result<+R, +E> = Success(value: R) | Failure(error: E)
}
