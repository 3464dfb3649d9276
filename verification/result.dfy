/** The success-or-error wrapper `Result<T>` of TaxAlpha.Core.Types. Its
    constructors are private, so every value is built by one of the three
    factories, and each carries either a value or an error. */
module Results {
  import opened Wrappers

  datatype ErrorCode = RuntimeError | WrongArgument | LogicError | ComputationError

  datatype ErrorType = ErrorType(code: ErrorCode, message: string)

  /** The three properties of a result. C#'s `default` value and `null`
      error are `None`. */
  datatype Result<T> = Result(value: Option<T>, isSuccess: bool, error: Option<ErrorType>)

  predicate IsError<T>(r: Result<T>) {
    !r.isSuccess
  }

  /** What the factories guarantee: a success has a value and no error, a
      failure an error and no value. */
  predicate WellFormed<T>(r: Result<T>) {
    && (r.isSuccess <==> r.error.None?)
    && (r.isSuccess <==> r.value.Some?)
  }

  function Success<T>(value: T): (r: Result<T>)
    ensures WellFormed(r) && !IsError(r) && r.value == Some(value)
  {
    Result(Some(value), true, None)
  }

  /** `Failure(ErrorType)`. */
  function Failure<T>(error: ErrorType): (r: Result<T>)
    ensures WellFormed(r) && IsError(r) && r.error == Some(error)
  {
    Result(None, false, Some(error))
  }

  /** `Failure(string)`: a runtime error with that message. */
  function FailureMessage<T>(message: string): (r: Result<T>)
    ensures WellFormed(r) && IsError(r) && r.error == Some(ErrorType(RuntimeError, message))
  {
    Failure(ErrorType(RuntimeError, message))
  }

  /** A result read as a plain either-or. */
  datatype Outcome<T> = Ok(value: T) | Err(error: ErrorType)

  function AsOutcome<T>(r: Result<T>): (o: Outcome<T>)
    requires WellFormed(r)
    ensures o.Ok? <==> !IsError(r)
  {
    if r.isSuccess then Ok(r.value.value) else Err(r.error.value)
  }

  function FromOutcome<T>(o: Outcome<T>): (r: Result<T>)
    ensures WellFormed(r) && (IsError(r) <==> o.Err?)
  {
    match o
    case Ok(v) => Success(v)
    case Err(e) => Failure(e)
  }

  /** Every well-formed result is exactly one of the factories' results, so
      reading it as an outcome and back loses nothing, and the other way
      round. */
  lemma OutcomeRoundTrip<T>(r: Result<T>, o: Outcome<T>)
    requires WellFormed(r)
    ensures FromOutcome(AsOutcome(r)) == r
    ensures AsOutcome(FromOutcome(o)) == o
  {
  }

  /** The message overload is the error-type overload with RuntimeError,
      and a failure never equals a success. */
  lemma FactoriesDistinct<T>(value: T, error: ErrorType, message: string)
    ensures FailureMessage<T>(message) == Failure(ErrorType(RuntimeError, message))
    ensures Success(value) != Failure(error)
    ensures (Failure<T>(error) == FailureMessage(message)) <==> error == ErrorType(RuntimeError, message)
  {
  }
}
