/**
 * GlobalExceptionHandler: the mapping from the exceptions that reach the web
 * layer to the response sent back, and ValidationErrorDTO, the body entry made
 * from one field error.
 */
module ExceptionHandler {
  import opened Outcomes
  import opened Validation

  /** The four exception classes the handler has a method for. */
  datatype ErrorKind =
    | ProductNotFound(message: string)                 // ProductNotFoundException
    | UsernameAlreadyInUse(message: string)            // UsernameAlreadyInUseException
    | BadCredentials(message: string)                  // BadCredentialsException
    | ValidationFailed(fieldErrors: seq<FieldError>)   // MethodArgumentNotValidException

  /** ValidationErrorDTO: one entry of a validation response body. */
  datatype ValidationError = ValidationError(field: string, message: string)

  /** A response body: plain text, or the list of validation errors. */
  datatype Body = Text(text: string) | ErrorList(errors: seq<ValidationError>)

  datatype Response = Response(status: int, body: Body)

  /** The constant body of every bad-credentials response. */
  const BadCredentialsBody := "User or password incorrect."

  /** ValidationErrorDTO's constructor from a field error. */
  function FromFieldError(fe: FieldError): (v: ValidationError)
    ensures v.field == fe.field && v.message == fe.defaultMessage
  {
    ValidationError(fe.field, fe.defaultMessage)
  }

  /**
   * The stream that maps every field error to its ValidationErrorDTO: one
   * entry per field error, in the same order.
   */
  function ToValidationErrors(fes: seq<FieldError>): (vs: seq<ValidationError>)
    ensures |vs| == |fes|
    ensures forall i :: 0 <= i < |fes| ==> vs[i].field == fes[i].field && vs[i].message == fes[i].defaultMessage
  {
    if fes == [] then [] else [FromFieldError(fes[0])] + ToValidationErrors(fes[1..])
  }

  /**
   * The handler methods taken together. Not-found answers 404 and username
   * conflicts 400, both with the exception's message; bad credentials answer
   * 401 with a fixed text whatever the exception says; validation failures
   * answer 400 with the list of field errors.
   */
  function Handle(e: ErrorKind): (r: Response)
    ensures r.status == NOT_FOUND <==> e.ProductNotFound?
    ensures r.status == UNAUTHORIZED <==> e.BadCredentials?
    ensures r.status == BAD_REQUEST <==> e.UsernameAlreadyInUse? || e.ValidationFailed?
    ensures r.body.ErrorList? <==> e.ValidationFailed?
    ensures e.ProductNotFound? || e.UsernameAlreadyInUse? ==> r.body == Text(e.message)
    ensures e.BadCredentials? ==> r.body == Text(BadCredentialsBody)
    ensures e.ValidationFailed? ==> r.body.errors == ToValidationErrors(e.fieldErrors)
  {
    match e
    case ProductNotFound(m) => Response(NOT_FOUND, Text(m))
    case UsernameAlreadyInUse(m) => Response(BAD_REQUEST, Text(m))
    case BadCredentials(_) => Response(UNAUTHORIZED, Text(BadCredentialsBody))
    case ValidationFailed(fes) => Response(BAD_REQUEST, ErrorList(ToValidationErrors(fes)))
  }

  /**
   * The exception class a service failure is thrown as, when the handler has a
   * method for it. A missing product is thrown as IllegalMonitorStateException,
   * which no handler method takes, so it never becomes a 404.
   */
  function Dispatch(e: ServiceError): (k: Option<ErrorKind>)
    ensures k.None? <==> e.NotFound?
    ensures e.UsernameTaken? ==> k == Some(UsernameAlreadyInUse(e.message))
  {
    match e
    case NotFound(_) => None
    case UsernameTaken(m) => Some(UsernameAlreadyInUse(m))
  }

  /** The message of a BadCredentialsException never reaches the client. */
  lemma BadCredentialsHidesMessage(m1: string, m2: string)
    ensures Handle(BadCredentials(m1)) == Handle(BadCredentials(m2)) == Response(UNAUTHORIZED, Text(BadCredentialsBody))
  {
  }

  /**
   * The validation body lists exactly the reported field errors: an error with
   * a given field and message is in the body if and only if a field error with
   * that field and default message was reported.
   */
  lemma ValidationBodyMatches(fes: seq<FieldError>, field: string, message: string)
    ensures ValidationError(field, message) in ToValidationErrors(fes)
        <==> exists fe :: fe in fes && fe.field == field && fe.defaultMessage == message
  {
  }
}
