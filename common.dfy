/** Values shared by every service: optional values, the HTTP exception
    taxonomy of the backend, and the small enumerations of its schema. */
module Common {

  datatype Option<+T> = None | Some(value: T) {
    function GetOr(default: T): T {
      match this
      case Some(v) => v
      case None => default
    }
  }

  /** One constructor per exception class of the backend; the argument is the
      string its constructor receives. */
  datatype HttpError =
    | NotFound(subject: string)           // NotFoundException
    | Existed(subject: string)            // ExistedException
    | InvalidateInput(field: string)      // InvalidateInputException
    | CannotDelete(subject: string)       // CannotDeleteException
    | WrongCredentials                    // WrongCredentialsException
    | InvalidToken                        // InvalidTokenException
    | ConfirmPasswordNotMatch             // ConfirmPasswordNotMatchException
  {
    /** The HTTP status each exception class passes to its base class. */
    function StatusCode(): (code: int)
      ensures 400 <= code < 500
      ensures code == 400 <==> Existed? || CannotDelete? || ConfirmPasswordNotMatch?
    {
      match this
      case NotFound(_) => 404
      case Existed(_) => 400
      case InvalidateInput(_) => 422
      case CannotDelete(_) => 400
      case WrongCredentials => 401
      case InvalidToken => 403
      case ConfirmPasswordNotMatch => 400
    }

    /** The message each exception class builds from its argument. */
    function Message(): string {
      match this
      case NotFound(o) => o + " not found"
      case Existed(o) => o + " already exists"
      case InvalidateInput(f) => "Invalidate " + f + " field"
      case CannotDelete(o) => o + " is in use and cannot be deleted. "
      case WrongCredentials => "Email or password is incorrect"
      case InvalidToken => "Invalid authentication token"
      case ConfirmPasswordNotMatch => "Password and confirm password do not match"
    }
  }

  datatype Result<+T> = Ok(value: T) | Err(error: HttpError)

  /** The active/inactive enumeration every catalogue table uses. */
  datatype Status = Active | Inactive {
    function Name(): string {
      if Active? then "active" else "inactive"
    }
  }

  datatype Direction = Asc | Desc
}
