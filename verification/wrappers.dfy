/** Failure-carrying values used where the source returns `null` or throws. */
module Wrappers {

  /** A value that may be absent: `null`/`undefined` in the source. */
  datatype Option<+T> = None | Some(value: T)

  /** The outcome of a call that may throw: `Err` carries the thrown error's message. */
  datatype Result<+R> = Ok(value: R) | Err(message: string)
}
