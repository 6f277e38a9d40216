/** Failure-carrying return values shared by every module of the model. */
module Wrappers {

  /** A value that may be absent (Rust's `Option`). */
  datatype Option<+T> = None | Some(value: T)

  /** A value or an error (Rust's `Result`). */
  datatype Result<+T, +E> = Ok(value: T) | Err(error: E)

  /** The outcome of a step that produces nothing but may fail (`Result<(), E>`). */
  datatype Outcome<+E> = Pass | Fail(error: E)
}
