/** Failure-carrying results shared by the store and the broker. */
module Wrappers {

  /** Either the value an operation produced or the reason it produced none. */
  datatype Result<+T, +E> = Ok(value: T) | Err(error: E)
}
