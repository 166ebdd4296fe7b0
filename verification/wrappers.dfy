/** Failure-compatible wrappers: an optional value and a success-or-error result. */
module Wrappers {

  /** A value that may be absent, like Python's `Optional[T]`. */
  datatype Option<+T> = None | Some(value: T) {

    /** The carried value, or `default` when there is none. */
    function GetOr(default: T): T {
      match this
      case Some(v) => v
      case None => default
    }
  }

  /** Either a value or the error that stopped the computation. */
  datatype Result<+R, +E> = Success(value: R) | Failure(error: E)
}
