/** The Option and Result types shared by the modules of the model. */
module Wrappers {

  /** A value that may be absent: a missing table cell, a failed parse, no match. */
  datatype Option<+T> = None | Some(value: T)

  /** The outcome of a step that may raise an error instead of returning a value. */
  datatype Result<+T, +E> = Ok(value: T) | Err(error: E)
}
