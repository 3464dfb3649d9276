/** Option and the outcome of an operation that may raise an exception. */
module Wrappers {

  /** A value that may be missing (C# `null` / `T?`, Python `None`). */
  datatype Option<T> = None | Some(value: T) {
    function GetOr(default: T): T {
      match this
      case Some(v) => v
      case None => default
    }
  }

  /** The exceptions the modelled code raises and does not catch itself. */
  datatype Exception =
    | FileNotFound(path: string)
    | ApplicationError(message: string)
    | ValueError(message: string)
    | InvalidOperation(message: string)
    | TypeError(message: string)
    | IndexError(message: string)
    | ArgumentError(message: string)
    | OverflowError(message: string)
    | DivideByZero(message: string)

  /** The outcome of a call that either returns a value or raises. */
  datatype Attempt<T> = Returned(value: T) | Raised(exception: Exception) {
    predicate IsFailure() { Raised? }

    function PropagateFailure<U>(): Attempt<U>
      requires Raised?
    {
      Raised(exception)
    }

    function Extract(): T
      requires Returned?
    {
      value
    }
  }
}
