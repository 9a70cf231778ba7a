/** Option and Result, the two failure-carrying values the model uses for
    JavaScript's `undefined` and for thrown errors. */
module Wrappers {

  /** `None` stands for JavaScript's `undefined`. */
  datatype Option<+T> = None | Some(value: T)

  /** `Err` stands for an exception that escapes the operation. */
  datatype Result<+T, +E> = Ok(value: T) | Err(error: E)
}
