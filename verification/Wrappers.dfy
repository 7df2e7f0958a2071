/** The sum types that stand for Rust's `Option`, `Result` and `Poll`. */
module Wrappers {
  datatype Option<+T> = None | Some(value: T)

  datatype Result<+T, +E> = Ok(value: T) | Err(error: E)

  datatype Poll<+T> = Pending | Ready(value: T)
}
