/** Result shapes shared by the models: Go's (value, ok) and (value, error) returns. */
module Outcomes {

  datatype Option<+T> = None | Some(value: T)

  datatype Result<+T, +E> = Ok(value: T) | Err(error: E)
}
