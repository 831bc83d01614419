/** The application's one error-to-response translation: every failure a route
    handler raises ends here and is answered with the uniform
    `{success: false, error: {code, message, statusCode}}` envelope. */
module ErrorHandler {
  import opened Constants

  /** `new AppError(statusCode, code, message)`: a failure the code raises on purpose. */
  datatype AppError = AppError(statusCode: int, code: string, message: string)

  /** What can reach the handler: an AppError; the SyntaxError the JSON body parser
      raises on a malformed body; or any other error (a store failure, say), whose
      description the handler only logs. */
  datatype Raised = App(err: AppError) | BadJson | Unexpected(description: string)

  datatype ErrorBody = ErrorBody(code: string, message: string, statusCode: int)

  /** The HTTP status together with the JSON envelope sent with it. */
  datatype ErrorResponse = ErrorResponse(status: int, success: bool, error: ErrorBody)

  const InvalidJsonMessage := "Invalid JSON in request body"
  const InternalErrorMessage := "Internal server error"

  /** The shape every error answer has: `success` is false and the envelope repeats
      the HTTP status. */
  predicate IsErrorEnvelope(r: ErrorResponse) {
    !r.success && r.error.statusCode == r.status
  }

  /** Reads an envelope back as the AppError it reports. */
  function ReportedError(r: ErrorResponse): AppError {
    AppError(r.status, r.error.code, r.error.message)
  }

  /** `errorHandler`: an AppError is answered with its own status, code and message;
      a malformed JSON body as a 400 validation error; anything else as a 500 whose
      message never depends on the error. */
  function HandleError(e: Raised): (r: ErrorResponse)
    ensures IsErrorEnvelope(r)
    ensures e.App? ==> ReportedError(r) == e.err
    ensures e.BadJson? ==> ReportedError(r) == AppError(BAD_REQUEST, VALIDATION_ERROR, InvalidJsonMessage)
    ensures e.Unexpected? ==> ReportedError(r) == AppError(INTERNAL_SERVER_ERROR, INTERNAL_ERROR, InternalErrorMessage)
  {
    match e
    case App(err) => ErrorResponse(err.statusCode, false, ErrorBody(err.code, err.message, err.statusCode))
    case BadJson => ErrorResponse(BAD_REQUEST, false, ErrorBody(VALIDATION_ERROR, InvalidJsonMessage, BAD_REQUEST))
    case Unexpected(_) =>
      ErrorResponse(INTERNAL_SERVER_ERROR, false, ErrorBody(INTERNAL_ERROR, InternalErrorMessage, INTERNAL_SERVER_ERROR))
  }

  /** Two unexpected errors are indistinguishable to the client, whatever they say. */
  lemma UnexpectedErrorsLookAlike(d1: string, d2: string)
    ensures HandleError(Unexpected(d1)) == HandleError(Unexpected(d2))
  {
  }

  /** Rendering is faithful: distinct AppErrors give distinct answers, so the client
      can recover exactly what was thrown. */
  lemma AppErrorsStayDistinct(a: AppError, b: AppError)
    requires a != b
    ensures HandleError(App(a)) != HandleError(App(b))
  {
    assert ReportedError(HandleError(App(a))) == a;
  }
}
