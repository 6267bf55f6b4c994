/** Outcome types shared by the whole model. */
module Outcomes {

  /** A value that may be absent (Go's "ok" idiom, a nil result). */
  datatype Option<+T> = None | Some(value: T)

  /** A Go `(value, error)` pair: either a value or an error message. */
  datatype Result<+T> = Ok(value: T) | Err(message: string)

  /**
   * What an HTTP handler does with a request: answer 200 with a payload
   * (or let the middleware chain go on), answer with an error status and
   * the `{"error": message}` body, or panic at run time (which the
   * router's recovery middleware turns into a 500).
   */
  datatype Reply<+T> = Success(value: T) | Failure(status: int, message: string) | Panic
}
