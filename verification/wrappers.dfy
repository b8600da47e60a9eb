/** Failure-compatible result types shared by the other modules. */
module Wrappers {

  /** An optional value, the counterpart of Rust's `Option`. */
  datatype Option<+T> = None | Some(value: T)

  /** A value or an error, the counterpart of Rust's `Result`. */
  datatype Result<+T, +E> = Ok(value: T) | Err(error: E)
}
