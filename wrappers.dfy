/** The two standard result shapes of the crate: Rust's `Option`, and the
    outcome of a constructor that can panic, written as an error value. */
module Wrappers {

  datatype Option<+T> = None | Some(value: T)

  datatype Result<+T, +E> = Ok(value: T) | Err(error: E)
}
