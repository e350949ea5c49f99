/**
 * The API response envelope and the centralised error handler of the
 * backend's `middleware` package: an error returned by a handler becomes an
 * HTTP status and an envelope carrying one `APIError`.
 */
module ErrorMiddleware {
  import opened Wrappers

  /** The predefined error codes. */
  datatype ErrorCode = Validation | NotFound | Unauthorized | Forbidden | Internal

  /** The string each code is sent as. */
  function CodeName(c: ErrorCode): (s: string)
    ensures |s| > 0
  {
    match c
    case Validation => "VALIDATION_ERROR"
    case NotFound => "NOT_FOUND"
    case Unauthorized => "UNAUTHORIZED"
    case Forbidden => "FORBIDDEN"
    case Internal => "INTERNAL_ERROR"
  }

  /** Reading a code back from the string a client receives. */
  function ParseCode(s: string): (c: Option<ErrorCode>) {
    if s == "VALIDATION_ERROR" then Some(Validation)
    else if s == "NOT_FOUND" then Some(NotFound)
    else if s == "UNAUTHORIZED" then Some(Unauthorized)
    else if s == "FORBIDDEN" then Some(Forbidden)
    else if s == "INTERNAL_ERROR" then Some(Internal)
    else None
  }

  /** The code names are distinct: a client can always tell which code it received. */
  lemma CodeNameRoundTrip(c: ErrorCode)
    ensures ParseCode(CodeName(c)) == Some(c)
  {
  }

  lemma CodeNameInjective(c1: ErrorCode, c2: ErrorCode)
    requires CodeName(c1) == CodeName(c2)
    ensures c1 == c2
  {
    CodeNameRoundTrip(c1);
    CodeNameRoundTrip(c2);
  }

  /** `Details` is omitted from the JSON when it is the empty string. */
  datatype APIError = APIError(code: string, message: string, details: string)

  datatype Meta = Meta(total: int, limit: int, offset: int)

  /** `Data`, `Error` and `Meta` are each absent (`nil`) or present. */
  datatype APIResponse<D> = APIResponse(data: Option<D>, error: Option<APIError>, meta: Option<Meta>)

  /** An envelope holding only an error, for any payload type: `Data` and `Meta` are nil. */
  function ErrorOnly<D>(e: APIError): (r: APIResponse<D>)
    ensures r.error == Some(e) && r.data.None? && r.meta.None?
  {
    APIResponse(None, Some(e), None)
  }

  /**
   * The `APIError` that `newErrorResponse` puts in its envelope; `details` is
   * the variadic argument list, of which only the first is kept.
   */
  function NewError(code: ErrorCode, message: string, details: seq<string>): (e: APIError)
    ensures ParseCode(e.code) == Some(code)
    ensures e.message == message
    ensures |details| == 0 ==> e.details == ""
    ensures |details| > 0 ==> e.details == details[0]
  {
    CodeNameRoundTrip(code);
    APIError(CodeName(code), message, if |details| > 0 then details[0] else "")
  }

  /** `newErrorResponse`. */
  function NewErrorResponse<D>(code: ErrorCode, message: string, details: seq<string>): APIResponse<D> {
    ErrorOnly(NewError(code, message, details))
  }

  // The error handler

  /** An `echo.HTTPError` message is a string or some other value. */
  datatype HttpMessage = Text(text: string) | NonText

  /** The error a handler returns: an `echo.HTTPError` or any other error. */
  datatype Error = HTTPError(status: int, message: HttpMessage) | OtherError

  const StatusBadRequest := 400
  const StatusUnauthorized := 401
  const StatusForbidden := 403
  const StatusNotFound := 404
  const StatusInternalServerError := 500

  /** The fixed message the handler sends for each code. */
  function FixedMessage(c: ErrorCode): string {
    match c
    case NotFound => "リソースが見つかりません"
    case Unauthorized => "認証が必要です"
    case Forbidden => "アクセス権限がありません"
    case Validation => "リクエストが無効です"
    case Internal => "内部エラーが発生しました"
  }

  /** The code an error is reported under. */
  function CodeFor(err: Error): (c: ErrorCode) {
    match err
    case OtherError => Internal
    case HTTPError(status, _) =>
      if status == StatusNotFound then NotFound
      else if status == StatusUnauthorized then Unauthorized
      else if status == StatusForbidden then Forbidden
      else if status == StatusBadRequest then Validation
      else Internal
  }

  /** A status and the error its envelope carries; the envelope is `ErrorOnly(error)`. */
  datatype ErrorReply = ErrorReply(status: int, error: APIError)

  /** What `ErrorHandler` sends: the status and the envelope's error, before the committed check. */
  function MapError(err: Error): (reply: ErrorReply)
    ensures err.OtherError? ==> reply.status == StatusInternalServerError
    ensures err.HTTPError? ==> reply.status == err.status
    ensures ParseCode(reply.error.code) == Some(CodeFor(err))
    ensures reply.error.message == FixedMessage(CodeFor(err))
  {
    match err
    case OtherError =>
      ErrorReply(StatusInternalServerError, NewError(Internal, FixedMessage(Internal), []))
    case HTTPError(status, message) =>
      var c := CodeFor(err);
      if c == Validation then
        var details := match message case Text(t) => t case NonText => "";
        ErrorReply(status, NewError(Validation, FixedMessage(Validation), [details]))
      else
        ErrorReply(status, NewError(c, FixedMessage(c), []))
  }

  /**
   * `ErrorHandler`: nothing is written once the response is committed;
   * otherwise the mapped status and envelope are.
   */
  function HandleError(err: Error, committed: bool): (written: Option<ErrorReply>)
    ensures written.None? <==> committed
    ensures written.Some? ==> written.value == MapError(err)
  {
    if committed then None else Some(MapError(err))
  }

  /** The decision table, read in both directions: each code stands for exactly its statuses. */
  lemma CodeIffStatus(status: int, message: HttpMessage)
    ensures CodeFor(HTTPError(status, message)) == NotFound <==> status == 404
    ensures CodeFor(HTTPError(status, message)) == Unauthorized <==> status == 401
    ensures CodeFor(HTTPError(status, message)) == Forbidden <==> status == 403
    ensures CodeFor(HTTPError(status, message)) == Validation <==> status == 400
    ensures CodeFor(HTTPError(status, message)) == Internal <==> status !in {400, 401, 403, 404}
  {
  }

  /** Any status outside the four named ones keeps its value on the wire but is reported as an internal error. */
  lemma OtherStatusKept(status: int, message: HttpMessage)
    requires status !in {400, 401, 403, 404}
    ensures var reply := MapError(HTTPError(status, message));
      && reply.status == status
      && reply.error.code == "INTERNAL_ERROR"
      && reply.error.message == "内部エラーが発生しました"
      && reply.error.details == ""
  {
  }

  /** Only a bad request carries details, and they are its text message. */
  lemma DetailsOnlyForBadRequest(err: Error)
    ensures var d := MapError(err).error.details;
      && (d != "" ==> err.HTTPError? && err.status == 400 && err.message == Text(d))
      && (err.HTTPError? && err.status == 400 ==> d == (match err.message case Text(t) => t case NonText => ""))
  {
  }
}
