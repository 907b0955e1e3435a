/** Responses: how they are formed, printed, and split again by the client. */
module Response {
  import opened Bytes
  import opened Lines
  import opened Message
  import opened Stream

  datatype Response = Response(status: Status, headers: Headers, body: string)

  /** Value of an http_status enumerator. */
  function Code(status: Status): nat {
    match status
    case StatusNone => 0
    case StatusOk => 200
    case BadRequest => 400
    case NotFound => 404
    case MethodNotAllowed => 405
    case RequestTimeout => 408
    case LengthRequired => 411
    case PayloadTooLarge => 413
    case HeaderFieldsTooLarge => 431
    case InternalServerError => 500
    case NotImplemented => 501
  }

  function StatusText(status: Status): string {
    match status
    case StatusNone => ""
    case StatusOk => "OK"
    case BadRequest => "Bad Request"
    case NotFound => "Not Found"
    case MethodNotAllowed => "Method Not Allowed"
    case RequestTimeout => "Request Timeout"
    case LengthRequired => "Length Required"
    case PayloadTooLarge => "Payload Too Large"
    case HeaderFieldsTooLarge => "Request Header Fields Too Large"
    case InternalServerError => "Internal Server Error"
    case NotImplemented => "Not Implemented"
  }

  /** The HTML pages; the 404 page echoes the target. */
  datatype Page = MainPage | NotFoundPage(target: string) | StubPage(kind: Kind) | ErrorPage(status: Status)

  /** What is left open: the text of each page, and for each response of a connection the Date and
      the iteration order of the header map. */
  datatype Env = Env(html: Page -> string, date: nat -> string,
                     order: (nat, Headers) -> seq<string>)
  {
    /** Targets have to fit in a header section, so a page may echo them and still have a size_t. */
    ghost predicate Valid() {
      && (forall page :: Fits(page) ==> 0 < |html(page)| < SIZE_LIMIT)
      && (forall k :: CrlfFree(date(k)))
      && (forall k, headers :: IsOrder(order(k, headers), headers))
    }
  }

  predicate Fits(page: Page) { page.NotFoundPage? ==> |page.target| <= MAX_HTTP_HDR_SIZE }

  /** The names of a header map, in some order. */
  ghost function SomeOrder(names: set<string>): seq<string>
    decreases |names|
  {
    if names == {} then []
    else
      var name :| name in names;
      [name] + SomeOrder(names - {name})
  }

  lemma {:induction false} SomeOrderLists(names: set<string>)
    ensures |SomeOrder(names)| == |names| && forall name :: name in SomeOrder(names) <==> name in names
    decreases |names|
  {
    if names != {} {
      SomeOrderLists(names - {SomeOrder(names)[0]});
    }
  }

  /** The assumptions can be met. */
  lemma {:induction false} EnvExists() returns (env: Env)
    ensures env.Valid()
  {
    hide SomeOrder;
    env := Env(_ => "a page", _ => "a date", (k: nat, headers: Headers) => SomeOrder(headers.Keys));
    forall k: nat, headers: Headers ensures IsOrder(env.order(k, headers), headers) {
      SomeOrderLists(headers.Keys);
    }
  }

  /** The page of the server, which echoes the target between two constant texts, is one of them. */
  lemma {:induction false} EchoIsValid(env: Env, before: string, after: string)
    requires env.Valid() && 0 < |before| && |before| + MAX_HTTP_HDR_SIZE + |after| < SIZE_LIMIT
    ensures var html := (page: Page) =>
      if page.NotFoundPage? then before + page.target + after else env.html(page);
      env.(html := html).Valid()
  {
  }

  /** The target of a valid request came out of a header section that was parsed. */
  predicate TargetFits(r: Request) { r.IsOk() ==> |r.target| <= MAX_HTTP_HDR_SIZE }

  lemma {:induction false} ParsedTargetFits(hdr: string)
    ensures TargetFits(ParseHead(hdr))
  {
    hide ParseFields, NewRequest;
    var e := FindCrlf(hdr);
    if |hdr| <= MAX_HTTP_HDR_SIZE && e != -1 && ParseLine(hdr[..e]).Some? {
      assert |ParseLine(hdr[..e]).value.target| <= |hdr|;
    }
  }

  // ---- forming responses ------------------------------------------------------------------

  function KeepAliveText(r: Request): string
    requires Typed(r.headers)
  {
    if KeepAlive(r) then "keep-alive" else "close"
  }

  function PageHeaders(r: Request, page: string, date: string): Headers
    requires Typed(r.headers)
  {
    map["date" := Str(date),
        "server" := Str("my_srv_async/1.0 (Ubuntu)"),
        "connection" := Str(KeepAliveText(r)),
        "content-type" := Str("text/html; charset=UTF-8"),
        CONTENT_LENGTH := Size(|page|)]
  }

  function PageResponse(code: Status, r: Request, page: string, date: string, omitBody: bool): Response
    requires Typed(r.headers)
  {
    Response(code, PageHeaders(r, page, date), if omitBody then "" else page)
  }

  function ErrorResponse(code: Status, r: Request, env: Env, k: nat): Response
    requires Typed(r.headers)
  {
    var resp := PageResponse(code, r, env.html(ErrorPage(code)), env.date(k), false);
    if code == MethodNotAllowed then
      resp.(headers := resp.headers["allow" := Str("GET, HEAD, POST, PUT, DELETE, PATCH")])
    else
      resp
  }

  /** make_main_page_response: the status and the page of a GET or HEAD target. */
  function TargetPage(target: string): (Status, Page) {
    if target == "/" || target == "/index.html" then (StatusOk, MainPage) else (NotFound, NotFoundPage(target))
  }

  /** MakeResponse, with MakeOkResponse dispatched on the class of the request object. */
  function MakeResponse(r: Request, env: Env, k: nat): Response
    requires Typed(r.headers)
  {
    if !r.IsOk() then ErrorResponse(r.error, r, env, k)
    else match r.kind
      case Base => ErrorResponse(InternalServerError, r, env, k)
      case Get | Head =>
        var (code, page) := TargetPage(r.target);
        PageResponse(code, r, env.html(page), env.date(k), r.kind.Head?)
      case _ => PageResponse(NotImplemented, r, env.html(StubPage(r.kind)), env.date(k), false)
  }

  /** The size of the table of status texts, which is indexed by the code. */
  const STATUS_TABLE_SIZE: nat := Code(HeaderFieldsTooLarge) + 1

  /** The status of a response is a valid index of the table exactly for errors and for GET and HEAD: the
      other classes are answered 501. */
  lemma {:induction false} StatusIsIndex(hdr: string, body: string, env: Env, k: nat)
    ensures var r := ParseHead(hdr).(body := body);
      && Typed(r.headers)
      && (Code(MakeResponse(r, env, k).status) < STATUS_TABLE_SIZE <==> !r.IsOk() || r.kind.Get? || r.kind.Head?)
  {
    hide KeepAlive, MethodHasBody, ParseHead, Typed;
    TypedDispatch(hdr);
    ParseErrors(hdr);
  }

  lemma {:induction false} ParseErrors(hdr: string)
    ensures Code(ParseHead(hdr).error) < STATUS_TABLE_SIZE && (ParseHead(hdr).IsOk() ==> !ParseHead(hdr).kind.Base?)
  {
    hide ParseFields, LineStatus;
    var e := FindCrlf(hdr);
    if e != -1 && ParseLine(hdr[..e]).Some? {
      FieldErrors(ParseLine(hdr[..e]).value.meth, map[], hdr[e + 2..]);
    }
  }

  lemma {:induction false} FieldErrors(meth: string, headers: Headers, p: string)
    ensures Code(ParseFields(meth, headers, p).1) < STATUS_TABLE_SIZE
    decreases |p|
  {
    var e := FindCrlf(p);
    if e == 0 {
      FieldErrors(meth, headers, p[2..]);
    } else if e != -1 && LineStatus(meth, p[..e]) == StatusNone {
      FieldErrors(meth, headers[LineName(p[..e]) := LineValue(meth, p[..e])], p[e + 2..]);
    }
  }

  // ---- what a request is answered -----------------------------------------------------------

  /** The page of a response, and its status. */
  ghost predicate IsPage(r: Request, status: Status, page: Page) {
    if r.error != StatusNone then status == r.error && page == ErrorPage(r.error)
    else
      match r.kind
      case Get | Head =>
        if r.target == "/" || r.target == "/index.html" then status == StatusOk && page == MainPage
        else status == NotFound && page == NotFoundPage(r.target)
      case Post | Put | Delete | Patch => status == NotImplemented && page == StubPage(r.kind)
      case Base => status == InternalServerError && page == ErrorPage(InternalServerError)
  }

  /** The header map of a response with page `html`. */
  ghost predicate IsHeaderMap(r: Request, status: Status, html: string, date: string, headers: Headers) {
    && headers.Keys == {"date", "server", "connection", "content-type", "content-length"}
                       + (if status == MethodNotAllowed then {"allow"} else {})
    && headers["date"] == Str(date) && headers["server"] == Str("my_srv_async/1.0 (Ubuntu)")
    && headers["connection"] == Str(if GoesOn(r) then "keep-alive" else "close")
    && headers["content-type"] == Str("text/html; charset=UTF-8") && headers["content-length"] == Size(|html|)
    && (status == MethodNotAllowed ==> headers["allow"] == Str("GET, HEAD, POST, PUT, DELETE, PATCH"))
  }

  /** The answer to the k-th request of a connection: status and page by the error, the class and the
      target; the page is left out of the body exactly for a valid HEAD request. */
  ghost predicate IsAnswer(r: Request, env: Env, k: nat, resp: Response) {
    exists page :: IsPage(r, resp.status, page)
      && IsHeaderMap(r, resp.status, env.html(page), env.date(k), resp.headers)
      && resp.body == if r.error == StatusNone && r.kind == Head then "" else env.html(page)
  }

  lemma {:induction false} AnswerOf(r: Request, env: Env, k: nat)
    requires Typed(r.headers)
    ensures IsAnswer(r, env, k, MakeResponse(r, env, k))
  {
    hide KeepAlive, GoesOn;
    KeepAliveIs(r);
    var page := PageOf(r);
    var resp := MakeResponse(r, env, k);
    HeadersOf(r, env.html(page), env.date(k), resp.status, resp.headers);
  }

  /** The page that the class of the request asks for. */
  ghost function PageOf(r: Request): Page {
    if !r.IsOk() then ErrorPage(r.error)
    else match r.kind
      case Base => ErrorPage(InternalServerError)
      case Get | Head => TargetPage(r.target).1
      case _ => StubPage(r.kind)
  }

  lemma {:induction false} HeadersOf(r: Request, html: string, date: string, status: Status, headers: Headers)
    requires Typed(r.headers)
    requires headers == if status == MethodNotAllowed
                        then PageHeaders(r, html, date)["allow" := Str("GET, HEAD, POST, PUT, DELETE, PATCH")]
                        else PageHeaders(r, html, date)
    ensures IsHeaderMap(r, status, html, date, headers)
  {
    hide KeepAlive, GoesOn;
    KeepAliveIs(r);
  }

  // ---- printing ---------------------------------------------------------------------------

  function StatusLine(resp: Response): string {
    "HTTP/1.1 " + Decimal(Code(resp.status)) + " " + StatusText(resp.status)
  }

  function ResponseHead(resp: Response, order: seq<string>): string
    requires forall k <- order :: k in resp.headers
  {
    Section([StatusLine(resp)] + FieldLines(resp.headers, order))
  }

  function SerializeResponse(resp: Response, order: seq<string>): string
    requires forall k <- order :: k in resp.headers
  {
    ResponseHead(resp, order) + resp.body
  }

  /** The bytes of the k-th response of a connection. */
  ghost function ResponseBytes(r: Request, env: Env, k: nat): string
    requires Typed(r.headers) && env.Valid()
  {
    var resp := MakeResponse(r, env, k);
    SerializeResponse(resp, env.order(k, resp.headers))
  }

  /** The responses to `rs` as the first ones of a connection. */
  ghost function Replies(rs: seq<Request>, env: Env): (out: seq<string>)
    requires (forall r <- rs :: Typed(r.headers)) && env.Valid()
    ensures |out| == |rs| && forall i :: 0 <= i < |rs| ==> out[i] == ResponseBytes(rs[i], env, i)
  {
    seq(|rs|, i requires 0 <= i < |rs| => ResponseBytes(rs[i], env, i))
  }

  function Concat(parts: seq<string>): string {
    if parts == [] then "" else Concat(parts[..|parts| - 1]) + parts[|parts| - 1]
  }

  lemma {:induction false} ConcatSnoc(parts: seq<string>, part: string)
    ensures Concat(parts + [part]) == Concat(parts) + part
  {
    assert (parts + [part])[..|parts|] == parts;
  }

  lemma {:induction false} RepliesSnoc(rs: seq<Request>, r: Request, env: Env)
    requires (forall q <- rs :: Typed(q.headers)) && Typed(r.headers) && env.Valid()
    ensures forall q <- rs + [r] :: Typed(q.headers)
    ensures Replies(rs + [r], env) == Replies(rs, env) + [ResponseBytes(r, env, |rs|)]
  {
  }

  // ---- response objects -------------------------------------------------------------------

  class HttpResponse {
    const status: Status
    var headers: Headers
    var body: string

    ghost function View(): Response
      reads this
    {
      Response(status, headers, body)
    }

    constructor (code: Status)
      ensures View() == Response(code, map[], "")
    {
      status, headers, body := code, map[], "";
    }

    method AddHeader(name: string, value: HeaderValue)
      modifies this`headers
      ensures headers == old(headers)[ToLower(name) := value]
    {
      var lower := LowerString(name);
      headers := headers[lower := value];
    }

    method SetBody(b: string)
      modifies this`body
      ensures body == b
    {
      body := b;
    }

    method Serialize(order: seq<string>) returns (out: string)
      requires IsOrder(order, headers)
      ensures out == SerializeResponse(View(), order)
    {
      out := "HTTP/1.1 " + Decimal(Code(status)) + " " + StatusText(status) + CRLF;
      var fields := PrintHeadersAndBody(headers, body, order);
      SectionCons(StatusLine(View()), FieldLines(headers, order));
      out := out + fields;
    }
  }

  lemma {:induction false} HeaderNames()
    ensures ToLower("Date") == "date" && ToLower("Server") == "server"
    ensures ToLower("Connection") == "connection" && ToLower("Content-Type") == "content-type"
    ensures ToLower("Content-Length") == CONTENT_LENGTH && ToLower("Allow") == "allow"
  {
  }

  /** make_page_response: the object is filled header by header. */
  method MakePageResponse(code: Status, r: Request, page: string, date: string, omitBody: bool)
      returns (resp: HttpResponse)
    requires Typed(r.headers)
    ensures fresh(resp) && resp.View() == PageResponse(code, r, page, date, omitBody)
  {
    HeaderNames();
    resp := new HttpResponse(code);
    resp.AddHeader("Date", Str(date));
    resp.AddHeader("Server", Str("my_srv_async/1.0 (Ubuntu)"));
    var keep := WantKeepAlive(r);
    resp.AddHeader("Connection", Str(if keep then "keep-alive" else "close"));
    resp.AddHeader("Content-Type", Str("text/html; charset=UTF-8"));
    resp.AddHeader("Content-Length", Size(|page|));
    if !omitBody {
      resp.SetBody(page);
    }
  }

  method MakeErrorResponse(code: Status, r: Request, env: Env, k: nat) returns (resp: HttpResponse)
    requires Typed(r.headers)
    ensures fresh(resp) && resp.View() == ErrorResponse(code, r, env, k)
  {
    resp := MakePageResponse(code, r, env.html(ErrorPage(code)), env.date(k), false);
    if code == MethodNotAllowed {
      HeaderNames();
      resp.AddHeader("Allow", Str("GET, HEAD, POST, PUT, DELETE, PATCH"));
    }
  }

  /** MakeResponse on a request object of the class `r.kind`. */
  method MakeResponseObject(r: Request, env: Env, k: nat) returns (resp: HttpResponse)
    requires Typed(r.headers)
    ensures fresh(resp) && resp.View() == MakeResponse(r, env, k) && IsAnswer(r, env, k, resp.View())
  {
    hide IsAnswer;
    AnswerOf(r, env, k);
    if !r.IsOk() {
      resp := MakeErrorResponse(r.error, r, env, k);
      return;
    }
    match r.kind {
      case Base =>
        resp := MakeErrorResponse(InternalServerError, r, env, k);
      case Get =>
        var (code, page) := TargetPage(r.target);
        resp := MakePageResponse(code, r, env.html(page), env.date(k), false);
      case Head =>
        var (code, page) := TargetPage(r.target);
        resp := MakePageResponse(code, r, env.html(page), env.date(k), true);
      case _ =>
        resp := MakePageResponse(NotImplemented, r, env.html(StubPage(r.kind)), env.date(k), false);
    }
  }

  lemma {:induction false} NonEmptyResponse(r: Request, env: Env, k: nat)
    requires Typed(r.headers) && env.Valid()
    ensures ResponseBytes(r, env, k) != ""
  {
    var resp := MakeResponse(r, env, k);
    SectionCons(StatusLine(resp), FieldLines(resp.headers, env.order(k, resp.headers)));
  }
}
