/** Result type for operations whose source raises instead of returning. */
module Wrappers {

  datatype Result<+T, +E> = Ok(value: T) | Err(error: E)
}
