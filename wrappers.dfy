/** Failure-carrying values shared by every module of the broker model. */
module Wrappers {

  /** A value that may be absent: a JavaScript `undefined`/`null` field or a failed lookup. */
  datatype Option<T> = None | Some(value: T) {
    function GetOr(default: T): T {
      match this
      case Some(v) => v
      case None => default
    }
  }

  /** The outcome of a call that may throw: `Err` carries the thrown error's message. */
  datatype Result<T> = Ok(value: T) | Err(message: string)
}
