/** The two wrapper types the model shares: `Option` for Python's
    `X | None`, and `Result` for "a value, or the error that was raised". */
module Wrappers {

  /** `None` models Python's `None`; `Some(v)` a present value. */
  datatype Option<+T> = None | Some(value: T) {

    /** The value, or `default` when absent (Python's `d.get(key, default)`). */
    function GetOr(default: T): T {
      match this
      case Some(v) => v
      case None => default
    }
  }

  /** A computation that either produced a value or raised an error. */
  datatype Result<+T, +E> = Success(value: T) | Failure(error: E)
}
