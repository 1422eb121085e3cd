/** Option and Result, the two wrappers the components use for absent values and errors. */
module Wrappers {

  datatype Option<+T> = None | Some(value: T) {
    /** The wrapped value, or `default` when there is none (Rust's `unwrap_or`). */
    function GetOr(default: T): T {
      match this
      case Some(v) => v
      case None => default
    }
  }

  /** `Ok`/`Err` results; errors are carried as their display text. */
  datatype Result<+R, +E> = Success(value: R) | Failure(error: E)
}
