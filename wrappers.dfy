/** Kotlin's nullable values and thrown exceptions, as datatypes. */
module Wrappers {

  /** A Kotlin `T?`: `None` stands for `null`. */
  datatype Option<+T> = None | Some(value: T)

  /** The outcome of a call that may throw: `Err` carries the exception's message. */
  datatype Result<+T> = Ok(value: T) | Err(cause: string)
}
