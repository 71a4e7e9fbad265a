/** Option and Result, the two wrappers the rest of the model returns. */
module Wrappers {

  /** A value that may be missing: an absent request field, or a `parseInt` that gave NaN. */
  datatype Option<+T> = None | Some(value: T)

  /** The outcome of a handler: a value, or the error the handler reports. */
  datatype Result<+R, +E> = Ok(value: R) | Err(error: E)
}
