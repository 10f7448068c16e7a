/** The optional value that `Error::source` returns (Rust's `Option`). */
module Wrappers {

  datatype Option<+T> = None | Some(value: T)
}
