/** Failure-carrying result types shared by every stage of the model. */
module Wrappers {

  /** An optional value: Python's `None` versus a present value. */
  datatype Option<T> = None | Some(value: T)

  /** The outcome of a computation that can raise: `Err` carries the exception's kind. */
  datatype Result<T> = Ok(value: T) | Err(error: string)
}
