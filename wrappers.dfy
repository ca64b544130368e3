/** Failure-carrying values shared by the pipeline stages. */
module Wrappers {

  /** A value that may be absent: an unset field, a failed coercion. */
  datatype Option<+T> = None | Some(value: T)

  /** The outcome of a construction that may raise a validation error. */
  datatype Result<+T> = Ok(value: T) | Err(message: string)
}
