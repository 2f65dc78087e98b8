/** Option and Result values used for the PHP code's nullable values and exceptions. */
module Wrappers {

  datatype Option<+T> = None | Some(value: T) {
    function GetOr(default: T): T {
      match this
      case Some(v) => v
      case None => default
    }
  }

  /** The exception classes the modelled code throws. */
  datatype ExceptionKind =
    | RuntimeException
    | LogicException
    | InvalidArgumentException
    | DivisionByZeroError
    /** PHP's TypeError for a value of the wrong type passed to a typed parameter */
    | TypeError
    /** PHP's Error for a call to a method the object's class does not have */
    | UndefinedMethodError
    /** an exception raised inside a handler or I/O call outside this model */
    | HandlerException

  datatype Exception = Exception(kind: ExceptionKind, message: string)

  datatype Result<+T> = Success(value: T) | Failure(error: Exception)
}
