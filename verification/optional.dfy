/** Failure-carrying values shared by the modules of this model: an optional
    value for Python's `None` returns, and a result for calls that raise. */
module Optional {

  /** A value that may be absent (Python's `None`). */
  datatype Option<+T> = None | Some(value: T)

  /** Either a value or the error a Python call raises. */
  datatype Result<+T, +E> = Ok(value: T) | Err(error: E)
}
