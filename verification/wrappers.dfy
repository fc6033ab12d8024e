/** Small failure-carrying datatypes shared by the other modules.
    `Option` stands for Rust's `Option`, `Outcome` for an `anyhow::Result<()>`
    whose error is one of the dispatcher's error kinds. */
module Wrappers {

  datatype Option<+T> = None | Some(value: T) {

    /** The wrapped value, or `default` when there is none (Rust's `unwrap_or`). */
    function GetOr(default: T): T {
      match this
      case Some(v) => v
      case None => default
    }
  }

  datatype Outcome<+E> = Pass | Fail(error: E)
}
