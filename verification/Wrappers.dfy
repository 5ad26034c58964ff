/** Go's nil pointers, missing keys and failed lookups as an `Option`, its (value, error) results as a `Result`. */
module Wrappers {

  datatype Option<+T> = None | Some(value: T)

  datatype Result<+T, +E> = Ok(value: T) | Err(error: E)
}
