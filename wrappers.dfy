/** Optional values and results, as used across the model. */
module Wrappers {

  /** A value that may be absent (Python's `None`, or a key a dict lacks). */
  datatype Option<+T> = None | Some(value: T) {

    /** The value, or `default` when absent: Python's `d.get(key, default)`. */
    function GetOr(default: T): T {
      if Some? then value else default
    }
  }

  /** A value or an error message. */
  datatype Result<+T, +E> = Ok(value: T) | Err(error: E)
}
