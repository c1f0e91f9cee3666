/** The two sum types shared by every module: an optional value, and a value
    or the exception the Python code would have raised. */
module Wrappers {
  datatype Option<+T> = None | Some(value: T)

  datatype Result<+T, +E> = Ok(value: T) | Err(error: E)
}
