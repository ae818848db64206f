/** Failure-carrying result types shared by every module of the relay model. */
module Wrappers {

  /** A value that may be absent (a Go nil pointer, a NULL column, a dropped frame). */
  datatype Option<+T> = None | Some(value: T)

  /** A Go `(T, error)` pair: either a value or an error message. */
  datatype Result<+T, +E> = Success(value: T) | Failure(error: E) {
    /** The value, or `default` for a failure. */
    function GetOr(default: T): T {
      if Success? then value else default
    }
  }

  /** A Go function returning only `error`: nil, or an error message. */
  datatype Outcome<+E> = Pass | Fail(error: E)
}
