/** Option and Result values used for JavaScript's `undefined` and for thrown errors. */
module Wrappers {

  /** A value that may be absent: `None` stands for a JavaScript `undefined`. */
  datatype Option<+T> = None | Some(value: T)

  /** The outcome of a computation that may throw: `Err` carries what was thrown. */
  datatype Result<+T, +E> = Ok(value: T) | Err(error: E)
}
