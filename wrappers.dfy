/** Failure-carrying values used by the interview service model. */
module Wrappers {

  /** An optional value: a JSON field that may be absent (null/undefined). */
  datatype Option<+T> = None | Some(value: T)

  /** The outcome of an operation that either returns a value or throws an
      `Error` whose `message` is carried here. */
  datatype Result<+T> = Ok(value: T) | Err(message: string)
}
