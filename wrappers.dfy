/** Failure-carrying values: Go's `(value, err)` returns and panics become one of these. */
module Wrappers {

  datatype Option<+T> = None | Some(value: T)

  datatype Result<+T, +E> = Ok(value: T) | Err(error: E)
}
