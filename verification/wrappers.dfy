/** Failure-carrying datatypes shared by the rest of the model. */
module Wrappers {

  /** A value that may be absent: a request field that was not sent, a header that was not set. */
  datatype Option<+T> = None | Some(value: T)

  /** The outcome of a step that may fail with a human-readable message. */
  datatype Result<+T> = Ok(value: T) | Err(message: string)
}
