/** Failure-carrying values used across the model in place of Python's `None`
    results and raised exceptions. */
module Wrappers {

  /** Python's `Optional[T]`: a value or `None`. */
  datatype Option<+T> = None | Some(value: T) {
    function GetOr(default: T): T {
      match this
      case Some(v) => v
      case None => default
    }
  }

  /** The outcome of an operation that may raise: its value, or the text of the
      exception (`str(e)`). */
  datatype Result<+T> = Ok(value: T) | Err(error: string)
}
