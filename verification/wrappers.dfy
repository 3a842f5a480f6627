/** Optional values and error-carrying results, used by every other module. */
module Wrappers {

  /** A value that may be absent: Go's nil slice, a missing query field, a failed parse. */
  datatype Option<+T> = None | Some(value: T)

  /** The outcome of an operation that returns either a value or an error. */
  datatype Result<+T, +E> = Ok(value: T) | Err(error: E)
}
