/** Option, Result and the error values the back end raises. */
module Wrappers {

  datatype Option<+T> = None | Some(value: T)

  /** The exceptions raised by the modelled code. `Crash` stands for a Python
      runtime error (KeyError, IndexError, AttributeError, TypeError) that the
      source does not catch. */
  datatype Error =
    | DevOps(status: int, message: string)
    | NotAllowed(message: string)
    | NotInProject(message: string)
    | NotUserHimself(message: string)
    | ValueErr(message: string)
    | AssertionErr(message: string)
    | Crash(message: string)

  datatype Result<+T> = Ok(value: T) | Err(error: Error)

  /** A computation that returns nothing but may raise. */
  datatype Outcome = Pass | Fail(error: Error)
}
