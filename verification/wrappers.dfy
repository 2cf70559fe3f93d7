/** Option and Result values used for absent rows, nullable columns and Go `error` returns. */
module Wrappers {

  /** A value that may be absent: a nullable column, a missing map key or a Go nil pointer. */
  datatype Option<+T> = None | Some(value: T) {

    /** The wrapped value, or `default` when there is none. */
    function GetOr(default: T): T {
      match this
      case Some(v) => v
      case None() => default
    }
  }

  /** The outcome of an operation that returns either a value or a Go `error`. */
  datatype Result<+R, +E> = Success(value: R) | Failure(error: E)
}
