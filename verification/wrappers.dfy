/** The failure-carrying datatypes shared by every layer of the lexer model:
    `Option` for Rust's `Option` and `Result` for Rust's `Result`. */
module Wrappers {

  datatype Option<+T> = None | Some(value: T) {

    /** Returns the value in `Some`, or `default` on `None` (Rust's `unwrap_or`). */
    function UnwrapOr(default: T): T {
      match this
      case Some(v) => v
      case None => default
    }

  }

  datatype Result<+T, +E> = Ok(value: T) | Err(error: E)
}
