/** Option and Result, the explicit "absent" and "error" values used instead of None and exceptions. */
module Wrappers {

  datatype Option<+T> = None | Some(value: T)

  /** An exception is carried as its message, the text of str(e). */
  datatype Result<+T> = Ok(value: T) | Err(message: string)
}
