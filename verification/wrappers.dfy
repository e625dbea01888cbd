/** Optional values and results, used wherever the source reads a key that may be
    absent or performs an operation that may fail. */
module Wrappers {

  /** A value that may be absent: a Python `dict.get` miss or a JavaScript `undefined`. */
  datatype Option<+T> = None | Some(value: T) {

    /** The value, or `default` when absent (Python `.get(k, default)`). */
    function GetOr(default: T): T {
      match this
      case Some(v) => v
      case None => default
    }
  }

  /** The outcome of an operation that may fail with an error value. */
  datatype Result<+R, +E> = Ok(value: R) | Err(error: E)
}
