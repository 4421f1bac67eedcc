/** Result types shared by the modules of this model. */
module Wrappers {

  datatype Option<+T> = None | Some(value: T)

  /** The outcome of a call that may throw a JavaScript `Error`: either the
      value returned or the message of the error thrown. */
  datatype Result<+T> = Ok(value: T) | Err(message: string)
}
