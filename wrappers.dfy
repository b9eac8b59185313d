/** Option, Result and Outcome: the typed results that stand for Python's `None`
    and for exceptions raised by the application. */
module Wrappers {

  datatype Option<+T> = None | Some(value: T)

  datatype Result<+T, +E> = Ok(value: T) | Err(error: E)

  /** The outcome of a check that either passes or raises with a message. */
  datatype Outcome<+E> = Pass | Fail(error: E)
}
