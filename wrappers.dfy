/** Failure-compatible result types shared by every module of the model. */
module Wrappers {

  /** A value that may be absent: a SQL NULL, a JavaScript `undefined`, a missing row. */
  datatype Option<+T> = None | Some(value: T)

  /** The outcome of an operation that either produces a value or fails with a reason. */
  datatype Result<+T, +E> = Ok(value: T) | Err(error: E)
}
