/** Small failure-carrying datatypes shared by the model. */
module Wrappers {

  /** A value that may be absent: Python's `None` versus a value. */
  datatype Option<+T> = None | Some(value: T) {
    function GetOr(default: T): T {
      match this
      case Some(v) => v
      case None => default
    }
  }

  /** The outcome of a call that may raise: its value, or the message of the exception. */
  datatype Result<+T> = Ok(value: T) | Err(error: string)

  /** The contents of a file as the program sees it when it tries to read it. */
  datatype FileRead = Missing | Unreadable | Contents(text: string)
}
