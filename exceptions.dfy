/** The application's exception classes and the handler that turns any of them into a JSON error response. */
module Exceptions {
  import opened Wrappers

  /** A JSON value, as carried in `details` and in response bodies. */
  datatype Json =
    | JNull
    | JBool(b: bool)
    | JInt(i: int)
    | JStr(s: string)
    | JArray(items: seq<Json>)
    | JObject(fields: map<string, Json>)

  /** An `AppException`: the four attributes its constructor sets. */
  datatype AppException = AppException(code: string, message: string, statusCode: int, details: Json)

  /** The base constructor: the status defaults to 400 and the details to None. */
  function NewAppException(code: string, message: string, statusCode: int := 400, details: Json := JNull): (e: AppException)
  {
    AppException(code, message, statusCode, details)
  }

  /** Left out, the status is 400 and the details are None; given, each attribute is kept as passed. */
  lemma AppExceptionDefaults(code: string, message: string, statusCode: int, details: Json)
    ensures NewAppException(code, message) == AppException(code, message, 400, JNull)
    ensures NewAppException(code, message, statusCode, details) == AppException(code, message, statusCode, details)
  {
  }

  /** The six subclasses of `AppException`. */
  datatype ErrorKind = NotFound | Conflict | Authentication | Authorization | Validation | RateLimited

  /** The reference table: the code each kind carries. */
  function Code(k: ErrorKind): string
  {
    match k
    case NotFound => "NOT_FOUND"
    case Conflict => "CONFLICT"
    case Authentication => "UNAUTHORIZED"
    case Authorization => "FORBIDDEN"
    case Validation => "VALIDATION_ERROR"
    case RateLimited => "RATE_LIMITED"
  }

  /** The reference table: the HTTP status each kind carries. */
  function Status(k: ErrorKind): int
  {
    match k
    case NotFound => 404
    case Conflict => 409
    case Authentication => 401
    case Authorization => 403
    case Validation => 422
    case RateLimited => 429
  }

  /** The reference table: the message each kind carries when none is given. */
  function DefaultMessage(k: ErrorKind): string
  {
    match k
    case NotFound => "Resource not found"
    case Conflict => "Resource conflict"
    case Authentication => "Not authenticated"
    case Authorization => "Access denied"
    case Validation => "Validation error"
    case RateLimited => "Too many requests. Please try again later."
  }

  function NotFoundError(message: string := "Resource not found"): (e: AppException)
    ensures e.code == Code(NotFound) && e.statusCode == Status(NotFound)
    ensures e.message == message && e.details == JNull
  {
    NewAppException("NOT_FOUND", message, 404)
  }

  function ConflictError(message: string := "Resource conflict"): (e: AppException)
    ensures e.code == Code(Conflict) && e.statusCode == Status(Conflict)
    ensures e.message == message && e.details == JNull
  {
    NewAppException("CONFLICT", message, 409)
  }

  function AuthenticationError(message: string := "Not authenticated"): (e: AppException)
    ensures e.code == Code(Authentication) && e.statusCode == Status(Authentication)
    ensures e.message == message && e.details == JNull
  {
    NewAppException("UNAUTHORIZED", message, 401)
  }

  function AuthorizationError(message: string := "Access denied"): (e: AppException)
    ensures e.code == Code(Authorization) && e.statusCode == Status(Authorization)
    ensures e.message == message && e.details == JNull
  {
    NewAppException("FORBIDDEN", message, 403)
  }

  function ValidationError(message: string := "Validation error", details: Json := JNull): (e: AppException)
    ensures e.code == Code(Validation) && e.statusCode == Status(Validation)
    ensures e.message == message && e.details == details
  {
    NewAppException("VALIDATION_ERROR", message, 422, details)
  }

  function RateLimitError(message: string := "Too many requests. Please try again later."): (e: AppException)
    ensures e.code == Code(RateLimited) && e.statusCode == Status(RateLimited)
    ensures e.message == message && e.details == JNull
  {
    NewAppException("RATE_LIMITED", message, 429)
  }

  /** Raising the subclass of kind `k` with `message` (and `details`, which only ValidationError accepts). */
  function Raise(k: ErrorKind, message: string, details: Json): (e: AppException)
    ensures e.code == Code(k) && e.statusCode == Status(k) && e.message == message
    ensures e.details == if k == Validation then details else JNull
  {
    match k
    case NotFound => NotFoundError(message)
    case Conflict => ConflictError(message)
    case Authentication => AuthenticationError(message)
    case Authorization => AuthorizationError(message)
    case Validation => ValidationError(message, details)
    case RateLimited => RateLimitError(message)
  }

  /** Each subclass constructed without arguments carries its kind's default message and no details. */
  lemma DefaultConstructors()
    ensures NotFoundError() == Raise(NotFound, DefaultMessage(NotFound), JNull)
    ensures ConflictError() == Raise(Conflict, DefaultMessage(Conflict), JNull)
    ensures AuthenticationError() == Raise(Authentication, DefaultMessage(Authentication), JNull)
    ensures AuthorizationError() == Raise(Authorization, DefaultMessage(Authorization), JNull)
    ensures ValidationError() == Raise(Validation, DefaultMessage(Validation), JNull)
    ensures RateLimitError() == Raise(RateLimited, DefaultMessage(RateLimited), JNull)
  {
  }

  /** The kind an exception's code names, if any. */
  function KindOfCode(code: string): (r: Option<ErrorKind>)
    ensures r.Some? ==> Code(r.value) == code
  {
    if code == "NOT_FOUND" then Some(NotFound)
    else if code == "CONFLICT" then Some(Conflict)
    else if code == "UNAUTHORIZED" then Some(Authentication)
    else if code == "FORBIDDEN" then Some(Authorization)
    else if code == "VALIDATION_ERROR" then Some(Validation)
    else if code == "RATE_LIMITED" then Some(RateLimited)
    else None
  }

  /** The code of a raised exception identifies its kind: codes are pairwise distinct. */
  lemma CodeIdentifiesKind(k: ErrorKind, message: string, details: Json)
    ensures KindOfCode(Raise(k, message, details).code) == Some(k)
  {
  }

  /** Distinct kinds carry distinct codes and distinct statuses. */
  lemma KindsDistinct(k1: ErrorKind, k2: ErrorKind)
    requires k1 != k2
    ensures Code(k1) != Code(k2)
    ensures Status(k1) != Status(k2)
  {
    assert KindOfCode(Code(k1)) == Some(k1) && KindOfCode(Code(k2)) == Some(k2);
  }

  /** The body `{"error": {"code": ..., "message": ..., "details": ...}}`. */
  function Envelope(code: string, message: string, details: Json): (r: Json)
    ensures r.JObject? && r.fields.Keys == {"error"}
    ensures r.fields["error"] == JObject(map["code" := JStr(code), "message" := JStr(message), "details" := details])
  {
    JObject(map["error" := JObject(map["code" := JStr(code), "message" := JStr(message), "details" := details])])
  }

  /** A JSON response: status and body. */
  datatype JsonResponse = JsonResponse(statusCode: int, content: Json)

  /** Reads an error response back: the exception it reports, if its body has the envelope's shape. */
  function ParseErrorResponse(r: JsonResponse): Option<AppException>
  {
    if r.content.JObject? && r.content.fields.Keys == {"error"} then
      var inner := r.content.fields["error"];
      if inner.JObject? && inner.fields.Keys == {"code", "message", "details"}
         && inner.fields["code"].JStr? && inner.fields["message"].JStr?
      then Some(AppException(inner.fields["code"].s, inner.fields["message"].s, r.statusCode, inner.fields["details"]))
      else None
    else None
  }

  /** `app_exception_handler`: responds with the exception's status and an envelope holding exactly its code,
      message and details, from which the exception can be read back unchanged. */
  function AppExceptionHandler(e: AppException): (r: JsonResponse)
    ensures r.statusCode == e.statusCode
    ensures ParseErrorResponse(r) == Some(e)
  {
    JsonResponse(e.statusCode, Envelope(e.code, e.message, e.details))
  }

  /** Two exceptions get the same response only if they are the same exception. */
  lemma HandlerInjective(e1: AppException, e2: AppException)
    requires AppExceptionHandler(e1) == AppExceptionHandler(e2)
    ensures e1 == e2
  {
    assert ParseErrorResponse(AppExceptionHandler(e1)) == Some(e1);
  }
}
