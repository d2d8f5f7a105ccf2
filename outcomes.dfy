/** Values standing for Python's `None` and for raised exceptions. */
module Outcomes {

  /** An optional value: `None` is Python's `None`. */
  datatype Option<+T> = None | Some(value: T)

  /** The value of a call that either returns or raises an exception with a message. */
  datatype Result<+T> = Ok(value: T) | Err(message: string)

  /** The outcome of a call that returns nothing or raises an exception with a message. */
  datatype Outcome = Pass | Fail(message: string)
}
