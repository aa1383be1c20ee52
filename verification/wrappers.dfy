/** Failure-carrying values shared by every module of the model: Go's
    `(value, ok)` and `(value, error)` return pairs become `Option` and
    `Result`. */
module Wrappers {

  /** A value that may be absent: `(v, true)` is `Some(v)`, `(_, false)` is `None`. */
  datatype Option<+T> = None | Some(value: T) {

    /** Returns the wrapped value, or `default` when there is none. */
    function GetOr(default: T): T {
      match this
      case Some(v) => v
      case None => default
    }
  }

  /** Either a value or an error, the model of Go's `(value, error)` pair. */
  datatype Result<+T, +E> = Ok(value: T) | Err(error: E) {

    /** Forgets the error, keeping only whether a value was produced. */
    function ToOption(): Option<T> {
      match this
      case Ok(v) => Some(v)
      case Err(_) => None
    }
  }
}
