/**
 * The client's error taxonomy.  The source declares a base error class and
 * six subclasses; here they are one tagged datatype, so that every test the
 * retry loop makes with `instanceof` becomes an exhaustive `match`.
 */
module Errors {
  import opened Wrappers

  /** One constructor per error class; each keeps only the data its class can vary. */
  datatype ApiError =
    | Generic(message: string, errorType: string, code: Option<string>,
              param: Option<string>, statusCode: Option<int>)
    | RateLimit(message: string, retryAfter: Option<int>)
    | Authentication(message: string)
    | Permission(message: string)
    | NotFound(message: string)
    | Connection(message: string)
    | Timeout(message: string)

  /** The properties a caller can read on a thrown error object. */
  datatype ErrorFields = ErrorFields(
    name: string,
    message: string,
    errorType: string,
    code: Option<string>,
    param: Option<string>,
    statusCode: Option<int>,
    retryAfter: Option<int>)

  const BaseName := "USAiAPIError"
  const RateLimitName := "USAiRateLimitError"
  const AuthenticationName := "USAiAuthenticationError"
  const PermissionName := "USAiPermissionError"
  const NotFoundName := "USAiNotFoundError"
  const ConnectionName := "USAiConnectionError"
  const TimeoutName := "USAiTimeoutError"

  const DefaultType := "api_error"

  /**
   * The base class's constructor: an omitted type becomes `api_error`, every
   * other argument is stored as given.
   */
  function NewApiError(message: string, errorType: Option<string>, code: Option<string>,
                       param: Option<string>, statusCode: Option<int>): (e: ApiError)
    ensures Fields(e).name == BaseName && Fields(e).message == message
    ensures Fields(e).errorType == if errorType.Some? then errorType.value else DefaultType
    ensures Fields(e).code == code && Fields(e).param == param
    ensures Fields(e).statusCode == statusCode && Fields(e).retryAfter.None?
  {
    Generic(message, errorType.GetOr(DefaultType), code, param, statusCode)
  }

  /**
   * What each class's constructor stores.  Every specialised class passes
   * `undefined` for code and param, the HTTP classes fix their status code,
   * Connection and Timeout have none, and only the rate-limit class has a
   * retry-after value.
   */
  function Fields(e: ApiError): (f: ErrorFields)
    ensures f.message == e.message
    ensures !e.Generic? ==> f.code.None? && f.param.None?
    ensures f.retryAfter.Some? ==> e.RateLimit?
    ensures (e.Connection? || e.Timeout?) ==> f.statusCode.None?
    ensures f.name == BaseName <==> e.Generic?
  {
    match e
    case Generic(m, t, c, p, s) => ErrorFields(BaseName, m, t, c, p, s, None)
    case RateLimit(m, r) => ErrorFields(RateLimitName, m, "rate_limit_error", None, None, Some(429), r)
    case Authentication(m) => ErrorFields(AuthenticationName, m, "authentication_error", None, None, Some(401), None)
    case Permission(m) => ErrorFields(PermissionName, m, "permission_error", None, None, Some(403), None)
    case NotFound(m) => ErrorFields(NotFoundName, m, "not_found_error", None, None, Some(404), None)
    case Connection(m) => ErrorFields(ConnectionName, m, "connection_error", None, None, None, None)
    case Timeout(m) => ErrorFields(TimeoutName, m, "timeout_error", None, None, None, None)
  }

  /**
   * Reads an error back from its properties; the `name` property selects the
   * class.  Properties a class fixes are not consulted.
   */
  function FromFields(f: ErrorFields): Option<ApiError> {
    if f.name == BaseName then Some(Generic(f.message, f.errorType, f.code, f.param, f.statusCode))
    else if f.name == RateLimitName then Some(RateLimit(f.message, f.retryAfter))
    else if f.name == AuthenticationName then Some(Authentication(f.message))
    else if f.name == PermissionName then Some(Permission(f.message))
    else if f.name == NotFoundName then Some(NotFound(f.message))
    else if f.name == ConnectionName then Some(Connection(f.message))
    else if f.name == TimeoutName then Some(Timeout(f.message))
    else None
  }

  /** The class names are pairwise distinct, so `name` identifies the class. */
  lemma ClassNamesDistinct()
    ensures |{BaseName, RateLimitName, AuthenticationName, PermissionName,
              NotFoundName, ConnectionName, TimeoutName}| == 7
  {
  }

  /** The readable properties determine the error: nothing is lost or merged. */
  lemma FieldsRoundTrip(e: ApiError)
    ensures FromFields(Fields(e)) == Some(e)
  {
  }

  /** Two errors with the same properties are the same error. */
  lemma FieldsInjective(e1: ApiError, e2: ApiError)
    requires Fields(e1) == Fields(e2)
    ensures e1 == e2
  {
    FieldsRoundTrip(e1);
    FieldsRoundTrip(e2);
  }

  /** The `name`, `type` and `statusCode` of every class, as its constructor fixes them. */
  lemma SpecialisedTypesAndStatuses(message: string, retryAfter: Option<int>)
    ensures Fields(NewApiError(message, None, None, None, None)).name == "USAiAPIError"
    ensures Fields(RateLimit(message, retryAfter)).name == "USAiRateLimitError"
    ensures Fields(Authentication(message)).name == "USAiAuthenticationError"
    ensures Fields(Permission(message)).name == "USAiPermissionError"
    ensures Fields(NotFound(message)).name == "USAiNotFoundError"
    ensures Fields(Connection(message)).name == "USAiConnectionError"
    ensures Fields(Timeout(message)).name == "USAiTimeoutError"
    ensures Fields(RateLimit(message, retryAfter)).errorType == "rate_limit_error"
    ensures Fields(RateLimit(message, retryAfter)).statusCode == Some(429)
    ensures Fields(RateLimit(message, retryAfter)).retryAfter == retryAfter
    ensures Fields(Authentication(message)).errorType == "authentication_error"
    ensures Fields(Authentication(message)).statusCode == Some(401)
    ensures Fields(Permission(message)).errorType == "permission_error"
    ensures Fields(Permission(message)).statusCode == Some(403)
    ensures Fields(NotFound(message)).errorType == "not_found_error"
    ensures Fields(NotFound(message)).statusCode == Some(404)
    ensures Fields(Connection(message)).errorType == "connection_error"
    ensures Fields(Timeout(message)).errorType == "timeout_error"
  {
  }

  /** A value thrown inside the client: one of its own errors, a built-in JavaScript error, or `undefined`. */
  datatype Raised =
    | Api(error: ApiError)
    | Native(name: string, message: string)
    | Undefined
  {
    /** `(error as any)?.name`. */
    function Name(): Option<string> {
      match this
      case Api(e) => Some(Fields(e).name)
      case Native(n, _) => Some(n)
      case Undefined => None
    }
  }
}
