/** Option and Result. Option is used wherever the JavaScript code has a value that may be missing
    (undefined, null, or a failed lookup). */
module Wrappers {

  datatype Option<+T> = None | Some(value: T) {

    /** The value, or `default` when there is none (JavaScript's `x || default`
        for values whose only falsy form is absence). */
    function GetOr(default: T): T {
      match this
      case Some(v) => v
      case None => default
    }
  }

  /** The outcome of a step that may throw: its value, or the message of the
      `Error` it throws. */
  datatype Result<+T> = Ok(value: T) | Err(error: string)
}
