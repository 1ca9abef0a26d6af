/** Failure-compatible result types shared by the model. */
module Wrappers {

  /** An optional value: a Go pointer that may be nil, or a call that may report nothing. */
  datatype Option<+T> = None | Some(value: T)

  /** The `(value, error)` pair a Go function returns: a value when the error is nil, a message otherwise. */
  datatype Result<+T> = Ok(value: T) | Err(message: string)
}
