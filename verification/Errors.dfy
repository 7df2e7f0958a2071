/** Filter errors, and which of them a recovering filter accepts (src/errors.rs). */
module Errors {
  import opened Wrappers
  import opened Http

  /** The dynamic type of an error; `Custom` stands for any error type of the application. */
  datatype ErrorType = RedirectType | BodyType | Custom(id: nat)

  datatype FilterError =
    | Redirect(location: Text)
    | BodyError(cause: Option<int>)
    | CustomError(id: nat, payload: int)
  {
    function Type(): ErrorType {
      match this
      case Redirect(_) => RedirectType
      case BodyError(_) => BodyType
      case CustomError(id, _) => Custom(id)
    }
  }

  /** The type parameter `E: Recoverable`: the boxed error itself or one concrete type. */
  datatype Recoverable = Boxed | Only(ty: ErrorType) {
    predicate Accepts(e: FilterError) { Boxed? || e.Type() == ty }

    /** `RecoverableSealed::recover`: `Ok` hands the error to the function, `Err` gives it back. */
    function Recover(e: FilterError): Result<FilterError, FilterError> {
      match this
      case Boxed => Ok(e)
      case Only(ty) => if e.Type() == ty then Ok(e) else Err(e)
    }
  }
}
