/** Optional values and success-or-error results shared by the other modules. */
module Outcomes {

  /** A value that may be absent: a JavaScript `undefined`/`null`, a NaN, a missing record. */
  datatype Option<+T> = None | Some(value: T)

  /** What a validation or a request handler produces: a value, or the error it reports. */
  datatype Result<+T, +E> = Ok(value: T) | Err(error: E)
}
