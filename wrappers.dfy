/** Failure-carrying results shared by every module of the model. */
module Wrappers {

  datatype Option<+T> = None | Some(value: T)

  /** A computation that either yields a value or stops with the error message
      the program prints before exiting (or the panic it raises). */
  datatype Result<+T> = Ok(value: T) | Fail(message: string)
}
