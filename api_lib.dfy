/** The shared part of the HTTP handlers: the error type, its status code and
    message, and the conversion of a handler's outcome into the response the
    lambda runtime sends. */
module Lib {
  import opened Wrappers

  /** The status codes the handlers use. */
  const OK: nat := 200
  const BAD_REQUEST: nat := 400
  const INTERNAL_SERVER_ERROR: nat := 500

  /** The errors `canonicalize` and the file operations of the handlers can
      meet, each with the text the standard library displays for it on Linux:
      a missing file (ENOENT), a file used as a directory (ENOTDIR), a
      directory opened as a file (EISDIR), a path component longer than 255
      bytes (ENAMETOOLONG), and a path holding a NUL character, which the
      standard library refuses before asking the system (InvalidInput). */
  datatype IoError = NoSuchFile | NotADirectory | IsADirectory | NameTooLong | NulInPath

  function IoMessage(e: IoError): (m: string)
    ensures |m| > 0
  {
    match e
    case NoSuchFile => "No such file or directory (os error 2)"
    case NotADirectory => "Not a directory (os error 20)"
    case IsADirectory => "Is a directory (os error 21)"
    case NameTooLong => "File name too long (os error 36)"
    case NulInPath => "file name contained an unexpected NUL byte"
  }

  /** The length of each message, which tells the errors apart. */
  function MessageLength(e: IoError): nat {
    match e
    case NoSuchFile => 38
    case NotADirectory => 29
    case IsADirectory => 28
    case NameTooLong => 32
    case NulInPath => 42
  }

  /** The message names the error: different errors display differently. */
  lemma IoMessageIdentifies(a: IoError, b: IoError)
    requires a != b
    ensures IoMessage(a) != IoMessage(b)
  {
    IoMessageLength(a);
    IoMessageLength(b);
  }

  lemma IoMessageLength(e: IoError)
    ensures |IoMessage(e)| == MessageLength(e)
  {
    match e
    case NoSuchFile =>
    case NotADirectory =>
    case IsADirectory =>
    case NameTooLong =>
    case NulInPath =>
  }

  /** `RequestError`. `QueryStringError` carries the query-string parser's
      message; `Other` carries the underlying error, shown as it is
      (`#[error(transparent)]`); `NotFoundError` is the variant the info
      handler returns, which the enum as written does not declare. */
  datatype RequestError = QueryStringError(detail: string) | Other(cause: IoError) | NotFoundError

  /** The text `NotFoundError` displays as; the enum gives it none. */
  const NotFoundText := "Not found"

  /** `e.to_string()`. */
  function Display(e: RequestError): (s: string)
    ensures e.QueryStringError? ==> s == "Invalid query string: " + e.detail
    ensures e.Other? ==> s == IoMessage(e.cause)
  {
    match e
    case QueryStringError(detail) => "Invalid query string: " + detail
    case Other(cause) => IoMessage(cause)
    case NotFoundError => NotFoundText
  }

  /** `RequestError::status_code`: a bad query string is the client's fault,
      everything else the server's. */
  function StatusCode(e: RequestError): (code: nat)
    ensures code == BAD_REQUEST <==> e.QueryStringError?
    ensures code == INTERNAL_SERVER_ERROR <==> !e.QueryStringError?
  {
    match e
    case QueryStringError(_) => BAD_REQUEST
    case _ => INTERNAL_SERVER_ERROR
  }

  /** `Response`: what a handler produces on success. */
  datatype Response = Response(code: nat, contentType: string, data: string)

  /** The HTTP response handed to the runtime. */
  datatype HttpResponse = HttpResponse(status: nat, headers: seq<(string, string)>, body: string)

  const CacheControl := "max-age=300, s-maxage=31536000"

  /** The header of that name, if the response has one. */
  function Header(h: HttpResponse, name: string): Option<string> {
    HeaderIn(h.headers, name)
  }

  function HeaderIn(headers: seq<(string, string)>, name: string): Option<string> {
    if headers == [] then None
    else if headers[0].0 == name then Some(headers[0].1)
    else HeaderIn(headers[1..], name)
  }

  /** `respond`: a success is sent as it is; an error becomes a plain-text
      response with the error's status code and message. Every response
      carries its content type and the same caching policy. */
  function Respond(r: Result<Response, RequestError>): (h: HttpResponse)
    ensures r.Success? ==>
      h.status == r.value.code && h.body == r.value.data && Header(h, "Content-Type") == Some(r.value.contentType)
    ensures r.Failure? ==>
      h.status == StatusCode(r.error) && h.body == Display(r.error) && Header(h, "Content-Type") == Some("text/plain")
    ensures Header(h, "Cache-Control") == Some(CacheControl)
  {
    var res := match r
      case Success(res) => res
      case Failure(e) => Response(StatusCode(e), "text/plain", Display(e));
    var headers := [("Content-Type", res.contentType), ("Cache-Control", CacheControl)];
    assert "Content-Type"[1] != "Cache-Control"[1];
    assert HeaderIn(headers[1..], "Cache-Control") == Some(CacheControl);
    HttpResponse(res.code, headers, res.data)
  }

  /** Distinct query-string errors give distinct bodies, so the message is
      passed through whole. */
  lemma QueryStringBodyKeepsDetail(a: string, b: string)
    requires a != b
    ensures Respond(Failure(QueryStringError(a))).body != Respond(Failure(QueryStringError(b))).body
  {
    var p := "Invalid query string: ";
    assert Respond(Failure(QueryStringError(a))).body[|p|..] == a;
    assert Respond(Failure(QueryStringError(b))).body[|p|..] == b;
  }
}
