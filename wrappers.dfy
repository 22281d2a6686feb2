/** Option and Result, the failure-carrying values used across the model. */
module Wrappers {

  datatype Option<+T> = None | Some(value: T)

  /** An operation that either produces a value or raises an error message,
      standing in for a thrown exception. */
  datatype Result<+T> = Ok(value: T) | Err(error: string)
}
