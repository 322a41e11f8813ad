/** Option, Result and Outcome: the error-carrying shapes used throughout the model. */
module Wrappers {

  /** A value that may be absent (a Go nil map, a path that does not resolve). */
  datatype Option<+T> = None | Some(value: T)

  /** A value or an error, as a Go `(T, error)` pair where exactly one side is meaningful. */
  datatype Result<+T, +E> = Success(value: T) | Failure(error: E)

  /** An operation that returns only a Go `error`: nil (Pass) or an error value (Fail). */
  datatype Outcome<+E> = Pass | Fail(error: E)
}
