/** Option and Result, the stand-ins for Python's `None` and for a raised exception. */
module Wrappers {

  datatype Option<+T> = None | Some(value: T)

  /** `Err` carries the exception the Python code would raise at that point. */
  datatype Result<+T, +E> = Ok(value: T) | Err(error: E)
}
