/** Option and Result, used for C#'s nullable references and thrown exceptions. */
module Wrappers {

  /** A nullable reference: `None` stands for C#'s `null`. */
  datatype Option<+T> = None | Some(value: T) {
    function GetOr(default: T): T {
      match this
      case Some(v) => v
      case None => default
    }
  }

  /** The outcome of a call that may throw: `Err` carries the exception. */
  datatype Result<+R, +E> = Ok(value: R) | Err(error: E)
}
