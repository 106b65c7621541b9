/** Failure-carrying result types shared by the whole model. */
module Wrappers {

  /** A value that may be absent, like Python's `None`. */
  datatype Option<+T> = None | Some(value: T)

  /** The Python exceptions the modelled code can raise on its own. */
  datatype Exception =
    | TypeError          // a callable invoked with the wrong number of arguments
    | ZeroDivisionError  // a float division by zero
    | ValueError         // `range` called with a step of zero

  /** A computation that either returns a value or raises an exception. */
  datatype Result<+T> = Success(value: T) | Failure(error: Exception)
}
