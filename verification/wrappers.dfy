/** Optional values and outcomes of service calls. */
module Wrappers {
  datatype Option<+T> = None | Some(value: T)

  /** An exception a service throws is an `Err` carrying which check raised it. */
  datatype Result<+T, +E> = Ok(value: T) | Err(error: E)
}
