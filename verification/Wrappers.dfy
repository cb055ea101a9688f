/** Result and option types shared by the modules, standing for Go's (value, error) and (value, ok) returns. */
module Wrappers {
  datatype Option<+T> = None | Some(value: T)

  datatype Result<+T, +E> = Ok(value: T) | Err(error: E)
}
