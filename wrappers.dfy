/** Optional values and error-carrying results, used wherever the quiz code reads an optional
    field or throws. */
module Wrappers {

  /** A value that may be absent (a JavaScript `undefined` field). */
  datatype Option<+T> = None | Some(value: T)

  /** The outcome of an operation that may throw: the value, or the thrown error's message. */
  datatype Result<+T> = Ok(value: T) | Err(message: string)
}
