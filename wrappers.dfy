/** Option and Result values standing for Kotlin's nullable types and for
    exceptions that an operation throws instead of returning. */
module Wrappers {

  /** A Kotlin `T?`: `None` is `null`. */
  datatype Option<+T> = None | Some(value: T) {
    function GetOr(default: T): T {
      match this
      case Some(v) => v
      case None => default
    }
  }

  /** An operation that either returns a value or throws. */
  datatype Result<+T, +E> = Ok(value: T) | Thrown(error: E)
}
