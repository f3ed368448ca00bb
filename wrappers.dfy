/** Failure-carrying results shared by every module of the model. */
module Wrappers {

  datatype Option<T> = None | Some(value: T)

  /** A computation that either yields a value or raises an error with a message
      (the toolkit's `std::runtime_error`s and assertion messages). */
  datatype Result<T> = Ok(value: T) | Err(error: string)

  /** A check that either passes or fails with a message. */
  datatype Outcome = Pass | Fail(error: string)
}
