/** The web API's global exception handler: what an unhandled exception
    becomes in the error response, namely its HTTP status code, its
    client-facing message and, in development only, its full text. The
    process environment variable `ASPNETCORE_ENVIRONMENT` is a parameter
    (`None` when it is unset). */
module ExceptionMiddleware {
  import opened Wrappers
  import opened Errors

  const BadRequest: int := 400
  const Forbidden: int := 403
  const NotFound: int := 404
  const RequestTimeout: int := 408
  const InternalServerError: int := 500

  const MissingParameterMessage: string := "A required parameter is missing."
  const InvalidParameterMessage: string := "An invalid parameter was provided."
  const NotFoundMessage: string := "The requested resource was not found."
  const AccessDeniedMessage: string := "Access to the requested resource is denied."
  const TimedOutMessage: string := "The operation timed out."
  const UnexpectedMessage: string := "An unexpected error occurred while processing your request."

  /** `GetStatusCode`: the `ArgumentException` family is a bad request; a
      missing file is not found; denied access is forbidden; a timeout is a
      request timeout; anything else is an internal server error. The arms
      are type patterns, so a derived class takes its base class's arm. */
  function StatusCode(k: ExceptionKind): int {
    if IsArgumentException(k) then BadRequest
    else match Family(k)
      case FileNotFound => NotFound
      case UnauthorizedAccess => Forbidden
      case Timeout => RequestTimeout
      case _ => InternalServerError
  }

  /** `GetErrorMessage`: the arms are tried in order, so a missing argument
      gets its own message before the rest of the `ArgumentException`
      family. */
  function ErrorMessage(k: ExceptionKind): string {
    match Family(k)
    case ArgumentNull => MissingParameterMessage
    case _ =>
      if IsArgumentException(k) then InvalidParameterMessage
      else match Family(k)
        case FileNotFound => NotFoundMessage
        case UnauthorizedAccess => AccessDeniedMessage
        case Timeout => TimedOutMessage
        case _ => UnexpectedMessage
  }

  /** `GetErrorDetails`: the exception's text when the environment is
      exactly `Development` (case matters), `null` otherwise. */
  function ErrorDetails(e: Exception, environment: Option<string>): Option<string> {
    if environment == Some("Development") then Some(Describe(e)) else None
  }

  /** The parts of the error response that depend on the exception. */
  datatype ErrorResponse = ErrorResponse(status: int, message: string, details: Option<string>)

  function Respond(e: Exception, environment: Option<string>): ErrorResponse {
    ErrorResponse(StatusCode(e.kind), ErrorMessage(e.kind), ErrorDetails(e, environment))
  }

  // ------------------------------------------------------------ properties

  /** Each status code collects exactly one family of exceptions, and every
      exception gets one of the five codes. */
  lemma StatusCodeFamilies(k: ExceptionKind)
    ensures StatusCode(k) == BadRequest <==> IsArgumentException(k)
    ensures StatusCode(k) == NotFound <==> Family(k) == FileNotFound
    ensures StatusCode(k) == Forbidden <==> Family(k) == UnauthorizedAccess
    ensures StatusCode(k) == RequestTimeout <==> Family(k) == Timeout
    ensures StatusCode(k) == InternalServerError <==>
      !IsArgumentException(k) && Family(k) !in {FileNotFound, UnauthorizedAccess, Timeout}
  {
  }

  /** The message agrees with the status: the generic message is given
      exactly for the internal server errors, the two parameter messages
      exactly for the bad requests, and kinds with different codes never
      share a message. */
  lemma MessageAgreesWithStatus(k: ExceptionKind, k': ExceptionKind)
    ensures ErrorMessage(k) == UnexpectedMessage <==> StatusCode(k) == InternalServerError
    ensures ErrorMessage(k) in {MissingParameterMessage, InvalidParameterMessage} <==> StatusCode(k) == BadRequest
    ensures ErrorMessage(k) == MissingParameterMessage <==> Family(k) == ArgumentNull
    ensures StatusCode(k) != StatusCode(k') ==> ErrorMessage(k) != ErrorMessage(k')
  {
  }

  /** Details are given only in the development environment, and then they
      are the exception's full text. */
  lemma DetailsOnlyInDevelopment(e: Exception, environment: Option<string>)
    ensures ErrorDetails(e, environment).Some? <==> environment == Some("Development")
    ensures ErrorDetails(e, environment).Some? ==> ErrorDetails(e, environment).value == Describe(e)
  {
  }

  /** The comparison is ordinal: `development` in lower case hides the
      details. */
  lemma ExampleLowerCaseEnvironment(e: Exception, environment: Option<string>)
    requires environment == Some("development")
    ensures ErrorDetails(e, environment) == None
  {
    assert environment.value[0] != "Development"[0];
  }

  /** A class derived from one of the named classes gets that class's code
      and message. */
  lemma DerivedTakesParentArm(name: string, p: ExceptionKind)
    ensures StatusCode(Other(name, Some(p))) == StatusCode(p)
    ensures ErrorMessage(Other(name, Some(p))) == ErrorMessage(p)
  {
  }

  /** A class unrelated to the named ones is an internal server error with
      the generic message. */
  lemma UnrelatedIsInternal(name: string)
    ensures StatusCode(Other(name, None)) == InternalServerError
    ensures ErrorMessage(Other(name, None)) == UnexpectedMessage
  {
  }

  /** A regular expression timeout is a `TimeoutException`, so it is a 408. */
  lemma ExampleRegexTimeout(e: Exception)
    requires e == Exception(Other("System.Text.RegularExpressions.RegexMatchTimeoutException", Some(Timeout)), "")
    ensures Respond(e, None) == ErrorResponse(RequestTimeout, TimedOutMessage, None)
  {
  }

  /** A missing culture is an `ArgumentException`, and a derived class two
      levels down still is one. */
  lemma ExampleDerivedArgument(k: ExceptionKind)
    requires k == Other("Sub", Some(Other("System.Globalization.CultureNotFoundException", Some(Argument))))
    ensures StatusCode(k) == BadRequest && ErrorMessage(k) == InvalidParameterMessage
  {
  }

  /** The exception raised by the resource reader for a missing resource
      becomes a 404 with the not-found message. */
  lemma ExampleMissingResource(name: string)
    ensures Respond(Exception(FileNotFound, name), None) == ErrorResponse(NotFound, NotFoundMessage, None)
  {
  }
}
