/** HTTP requests: header storage, the header-section parser and the printer. */
module Message {
  import opened Bytes
  import opened Lines

  const MAX_HTTP_BODY_SIZE: nat := 32 * 1024 * 1024
  const MAX_HTTP_HDR_SIZE: nat := 2048
  const CONTENT_LENGTH := "content-length"

  datatype Status =
    | StatusNone
    | StatusOk
    | BadRequest
    | NotFound
    | MethodNotAllowed
    | RequestTimeout
    | LengthRequired
    | PayloadTooLarge
    | HeaderFieldsTooLarge
    | InternalServerError
    | NotImplemented

  /** The variant of header value types. */
  datatype HeaderValue = Str(s: string) | Size(n: nat)

  type Headers = map<string, HeaderValue>

  /** Which http_request_<method>_msg class a request object has. */
  datatype Kind = Base | Get | Head | Post | Put | Delete | Patch

  datatype Request = Request(kind: Kind, meth: string, target: string, version: string,
                             headers: Headers, body: string, error: Status)
  {
    predicate IsOk() { error == StatusNone }
  }

  datatype MethodInfo = MethodInfo(kind: Kind, hasBody: bool)

  /** methods_info: the class of each supported method, and whether its requests have a body. */
  const METHODS: map<string, MethodInfo> := map[
    "GET" := MethodInfo(Get, false),
    "HEAD" := MethodInfo(Head, false),
    "POST" := MethodInfo(Post, true),
    "PUT" := MethodInfo(Put, true),
    "DELETE" := MethodInfo(Delete, false),
    "PATCH" := MethodInfo(Patch, true)
  ]

  function KindOf(meth: string): Option<Kind> {
    if meth in METHODS then Some(METHODS[meth].kind) else None
  }

  predicate MethodHasBody(meth: string) { meth in METHODS && METHODS[meth].hasBody }

  function NewRequest(token: string): Request {
    match KindOf(token)
    case None => Request(Base, token, "", "", map[], "", MethodNotAllowed)
    case Some(kind) => Request(kind, "", "", "", map[], "", StatusNone)
  }

  function ErrorRequest(status: Status): Request {
    Request(Base, "", "", "", map[], "", status)
  }

  function MethodToken(hdr: string): string {
    var sp := FindChar(hdr, ' ');
    if sp == -1 then "" else hdr[..sp]
  }

  // ---- what the parser computes -----------------------------------------------------------

  datatype RequestLine = RequestLine(meth: string, target: string, version: string)

  function ParseLine(line: string): Option<RequestLine> {
    var sp1, sp2 := FindChar(line, ' '), RFindChar(line, ' ');
    if sp1 == -1 || sp1 == sp2 then None
    else
      var r := RequestLine(line[..sp1], line[sp1 + 1..sp2], line[sp2 + 1..]);
      if r.meth == "" || r.target == "" || !("HTTP/" <= r.version) then None else Some(r)
  }

  function LineName(line: string): string
    requires ':' in line
  {
    ToLower(line[..FindChar(line, ':')])
  }

  function LineText(line: string): string
    requires ':' in line
  {
    TrimSpaces(line[FindChar(line, ':') + 1..])
  }

  /** The error a single field line causes, StatusNone if it is accepted. */
  function LineStatus(meth: string, line: string): Status {
    if ':' !in line then BadRequest
    else if LineName(line) != CONTENT_LENGTH then StatusNone
    else if !MethodHasBody(meth) then BadRequest
    else match FromChars(LineText(line))
      case None => BadRequest
      case Some(len) => if len > MAX_HTTP_BODY_SIZE then PayloadTooLarge else StatusNone
  }

  function LineValue(meth: string, line: string): (v: HeaderValue)
    requires LineStatus(meth, line) == StatusNone
    ensures LineName(line) == CONTENT_LENGTH <==> v.Size?
    ensures v.Size? ==> v.n <= MAX_HTTP_BODY_SIZE
  {
    if LineName(line) == CONTENT_LENGTH then Size(FromChars(LineText(line)).value) else Str(LineText(line))
  }

  /** Every size is a Content-Length within the limit, and Content-Length is never a string. */
  ghost predicate Typed(headers: Headers) {
    forall k <- headers :: (k == CONTENT_LENGTH <==> headers[k].Size?)
                        && (headers[k].Size? ==> headers[k].n <= MAX_HTTP_BODY_SIZE)
  }

  function MissingLength(meth: string, headers: Headers): Status {
    if MethodHasBody(meth) && CONTENT_LENGTH !in headers then LengthRequired else StatusNone
  }

  /** The field loop over an arbitrary buffer: the headers stored so far are kept on an error. */
  function ParseFields(meth: string, headers: Headers, p: string): (r: (Headers, Status))
    ensures Typed(headers) ==> Typed(r.0)
    ensures r.1 == StatusNone && MethodHasBody(meth) ==> CONTENT_LENGTH in r.0
    decreases |p|
  {
    var e := FindCrlf(p);
    if p == "" then (headers, MissingLength(meth, headers))
    else if e == -1 then (headers, BadRequest)
    else if e == 0 then ParseFields(meth, headers, p[2..])
    else
      var line := p[..e];
      var status := LineStatus(meth, line);
      if status != StatusNone then (headers, status)
      else ParseFields(meth, headers[LineName(line) := LineValue(meth, line)], p[e + 2..])
  }

  function ParseHeader(r: Request, buf: string): Request {
    var e := FindCrlf(buf);
    if e == -1 then r.(error := BadRequest)
    else match ParseLine(buf[..e])
      case None => r.(error := BadRequest)
      case Some(l) =>
        var (headers, status) := ParseFields(l.meth, r.headers, buf[e + 2..]);
        r.(meth := l.meth, target := l.target, version := l.version, headers := headers,
           error := if status == StatusNone then r.error else status)
  }

  /** What recv_http_msg makes of a whole header section. */
  function ParseHead(hdr: string): Request {
    if |hdr| > MAX_HTTP_HDR_SIZE then ErrorRequest(HeaderFieldsTooLarge)
    else
      var r := NewRequest(MethodToken(hdr));
      if r.IsOk() then ParseHeader(r, hdr) else r
  }

  // ---- typed header safety and dispatch ---------------------------------------------------

  /** The method token is looked for in the whole section, the method in the first line; they are
      the same whenever the line parses. */
  lemma {:induction false} TokenIsMethod(hdr: string, e: nat)
    requires e <= |hdr| && ParseLine(hdr[..e]).Some?
    ensures MethodToken(hdr) == ParseLine(hdr[..e]).value.meth
  {
    var line := hdr[..e];
    var sp := FindChar(line, ' ');
    FindCharIs(hdr, ' ', sp);
    assert hdr[..sp] == line[..sp];
  }

  lemma {:induction false} ParseHeaderIsTyped(r: Request, hdr: string)
    requires r.headers == map[] && r.IsOk()
    ensures var q := ParseHeader(r, hdr);
      && Typed(q.headers) && q.body == r.body && q.kind == r.kind
      && (q.IsOk() ==> && q.meth == MethodToken(hdr)
                       && (CONTENT_LENGTH in q.headers <==> MethodHasBody(q.meth)))
  {
    var e := FindCrlf(hdr);
    if e != -1 && ParseLine(hdr[..e]).Some? {
      TokenIsMethod(hdr, e);
      NoLengthWithoutBody(ParseLine(hdr[..e]).value.meth, map[], hdr[e + 2..]);
    }
  }

  /** Over every header section, accepted or not, the stored values have the type their name
      promises; and whenever the request is valid, the class chosen from the first token of the
      section is the class of the method the parser stored, whose required Content-Length is
      there. */
  lemma {:induction false} TypedDispatch(hdr: string)
    ensures var r := ParseHead(hdr);
      && Typed(r.headers) && r.body == ""
      && (r.IsOk() ==> && r.meth == MethodToken(hdr) && KindOf(r.meth) == Some(r.kind)
                       && (CONTENT_LENGTH in r.headers <==> MethodHasBody(r.meth)))
  {
    var r := NewRequest(MethodToken(hdr));
    if r.IsOk() {
      ParseHeaderIsTyped(r, hdr);
    }
  }

  lemma {:induction false} NoLengthWithoutBody(meth: string, headers: Headers, p: string)
    requires !MethodHasBody(meth) ==> CONTENT_LENGTH !in headers
    ensures !MethodHasBody(meth) ==> CONTENT_LENGTH !in ParseFields(meth, headers, p).0
    decreases |p|
  {
    var e := FindCrlf(p);
    if p == "" || e == -1 {
    } else if e == 0 {
      NoLengthWithoutBody(meth, headers, p[2..]);
    } else if LineStatus(meth, p[..e]) == StatusNone {
      NoLengthWithoutBody(meth, headers[LineName(p[..e]) := LineValue(meth, p[..e])], p[e + 2..]);
    }
  }

  // ---- the parser on framed sections, declaratively ---------------------------------------

  ghost predicate Accepts(meth: string, lines: seq<string>) {
    forall i :: 0 <= i < |lines| ==> LineStatus(meth, lines[i]) == StatusNone
  }

  /** The last line with a given lowercased name decides the value. */
  ghost function LastWins(meth: string, lines: seq<string>, name: string): Option<HeaderValue>
    requires Accepts(meth, lines)
  {
    if lines == [] then None
    else
      var last := lines[|lines| - 1];
      if LineName(last) == name then Some(LineValue(meth, last))
      else LastWins(meth, lines[..|lines| - 1], name)
  }

  function Lookup(headers: Headers, name: string): Option<HeaderValue> {
    if name in headers then Some(headers[name]) else None
  }

  ghost predicate IsLastWins(meth: string, lines: seq<string>, headers: Headers)
    requires Accepts(meth, lines)
  {
    forall name :: Lookup(headers, name) == LastWins(meth, lines, name)
  }

  ghost predicate HasField(lines: seq<string>, name: string) {
    exists l <- lines :: ':' in l && LineName(l) == name
  }

  /** The parse error of a list of field lines: that of the first bad line, else 411. */
  ghost predicate IsVerdict(meth: string, lines: seq<string>, status: Status) {
    if Accepts(meth, lines) then
      status == if MethodHasBody(meth) && !HasField(lines, CONTENT_LENGTH)
                then LengthRequired else StatusNone
    else
      exists i | 0 <= i < |lines| ::
        Accepts(meth, lines[..i]) && status == LineStatus(meth, lines[i]) != StatusNone
  }

  /** The field loop as a fold over lines. */
  ghost function FoldLines(meth: string, headers: Headers, lines: seq<string>): (Headers, Status)
    decreases |lines|
  {
    if lines == [] then (headers, MissingLength(meth, headers))
    else
      var status := LineStatus(meth, lines[0]);
      if status != StatusNone then (headers, status)
      else FoldLines(meth, headers[LineName(lines[0]) := LineValue(meth, lines[0])], lines[1..])
  }

  lemma {:induction false} ParseFieldsFolds(meth: string, headers: Headers, lines: seq<string>)
    requires CleanLines(lines) && "" !in lines
    ensures ParseFields(meth, headers, Section(lines)) == FoldLines(meth, headers, lines)
    decreases |lines|
  {
    if lines == [] {
      NoLines();
      assert FindCrlf(CRLF) == 0 && CRLF[2..] == "";
    } else {
      var line, more := lines[0], lines[1..];
      assert lines == [line] + more && line in lines;
      SectionCons(line, more);
      FirstLine(line, Section(more));
      if LineStatus(meth, line) == StatusNone {
        ParseFieldsFolds(meth, headers[LineName(line) := LineValue(meth, line)], more);
      }
    }
  }

  lemma {:induction false} AcceptsSnoc(meth: string, done: seq<string>, line: string)
    requires Accepts(meth, done) && LineStatus(meth, line) == StatusNone
    ensures Accepts(meth, done + [line])
  {
    hide LineStatus;
  }

  lemma {:induction false} LastWinsSnoc(meth: string, done: seq<string>, line: string, name: string)
    requires Accepts(meth, done) && Accepts(meth, done + [line]) && LineStatus(meth, line) == StatusNone
    ensures LastWins(meth, done + [line], name)
         == if LineName(line) == name then Some(LineValue(meth, line)) else LastWins(meth, done, name)
  {
    hide LineName, LineValue, Accepts;
    var all := done + [line];
    assert all[..|all| - 1] == done && all[|all| - 1] == line;
  }

  lemma {:induction false} LastWinsStep(meth: string, done: seq<string>, headers: Headers, line: string)
    requires Accepts(meth, done) && IsLastWins(meth, done, headers) && LineStatus(meth, line) == StatusNone
    ensures Accepts(meth, done + [line])
    ensures IsLastWins(meth, done + [line], headers[LineName(line) := LineValue(meth, line)])
  {
    hide LineName, LineValue, LastWins, Accepts;
    AcceptsSnoc(meth, done, line);
    var headers' := headers[LineName(line) := LineValue(meth, line)];
    forall name ensures Lookup(headers', name) == LastWins(meth, done + [line], name) {
      LastWinsSnoc(meth, done, line, name);
      assert Lookup(headers, name) == LastWins(meth, done, name);
    }
  }

  lemma {:induction false} StoredByLastLine(meth: string, done: seq<string>, headers: Headers, lines: seq<string>)
    requires Accepts(meth, done) && IsLastWins(meth, done, headers)
    requires Accepts(meth, lines)
    ensures Accepts(meth, done + lines) && IsLastWins(meth, done + lines, FoldLines(meth, headers, lines).0)
    decreases |lines|
  {
    hide LineName, LineValue, IsLastWins;
    if lines == [] {
      assert done + lines == done;
    } else {
      LastWinsStep(meth, done, headers, lines[0]);
      StoredByLastLine(meth, done + [lines[0]],
                       headers[LineName(lines[0]) := LineValue(meth, lines[0])], lines[1..]);
      assert done + [lines[0]] + lines[1..] == done + lines;
    }
  }

  /** Where a line is rejected, the lines before it stay stored. */
  lemma {:induction false} StoredBeforeBadLine(meth: string, done: seq<string>, headers: Headers, lines: seq<string>,
                                               i: nat)
    requires Accepts(meth, done) && IsLastWins(meth, done, headers)
    requires i < |lines| && Accepts(meth, lines[..i]) && LineStatus(meth, lines[i]) != StatusNone
    ensures Accepts(meth, done + lines[..i]) && IsLastWins(meth, done + lines[..i], FoldLines(meth, headers, lines).0)
    decreases i
  {
    hide LineName, LineValue, IsLastWins;
    if i == 0 {
      assert done + lines[..0] == done;
    } else {
      assert lines[..i][0] == lines[0] && lines[..i][1..] == lines[1..][..i - 1];
      assert forall j :: 0 <= j < i - 1 ==> lines[1..][j] == lines[..i][j + 1];
      LastWinsStep(meth, done, headers, lines[0]);
      StoredBeforeBadLine(meth, done + [lines[0]],
                          headers[LineName(lines[0]) := LineValue(meth, lines[0])], lines[1..], i - 1);
      assert done + [lines[0]] + lines[1..][..i - 1] == done + lines[..i];
    }
  }

  lemma {:induction false} VerdictStep(meth: string, line: string, more: seq<string>, status: Status)
    requires LineStatus(meth, line) == StatusNone
    ensures Accepts(meth, [line] + more) <==> Accepts(meth, more)
    ensures HasField([line] + more, CONTENT_LENGTH)
      <==> LineName(line) == CONTENT_LENGTH || HasField(more, CONTENT_LENGTH)
    ensures !Accepts(meth, more) && IsVerdict(meth, more, status) ==> IsVerdict(meth, [line] + more, status)
  {
    var all := [line] + more;
    assert all[0] == line && all[1..] == more;
    if !Accepts(meth, more) && IsVerdict(meth, more, status) {
      var i :| 0 <= i < |more| && Accepts(meth, more[..i]) && status == LineStatus(meth, more[i]) != StatusNone;
      assert all[i + 1] == more[i] && all[..i + 1] == [line] + more[..i];
    }
  }

  lemma {:induction false} VerdictOfLines(meth: string, headers: Headers, lines: seq<string>)
    ensures var status := FoldLines(meth, headers, lines).1;
      if Accepts(meth, lines) && CONTENT_LENGTH in headers then status == StatusNone
      else IsVerdict(meth, lines, status)
    decreases |lines|
  {
    if lines != [] {
      var line, more := lines[0], lines[1..];
      assert lines == [line] + more;
      if LineStatus(meth, line) == StatusNone {
        var headers' := headers[LineName(line) := LineValue(meth, line)];
        VerdictOfLines(meth, headers', more);
        VerdictStep(meth, line, more, FoldLines(meth, headers', more).1);
      } else {
        assert lines[..0] == [];
      }
    }
  }

  /** The headers stored before the first offending line are those of the lines before it. */
  ghost predicate KeepsAccepted(meth: string, lines: seq<string>, headers: Headers) {
    forall i | 0 <= i < |lines| && Accepts(meth, lines[..i]) && LineStatus(meth, lines[i]) != StatusNone ::
      IsLastWins(meth, lines[..i], headers)
  }

  /** What parsing a section must give, said of its lines: the request line decides first, then
      the first offending field line, then the missing Content-Length; the lines before the offending
      one, or all of them, store for every name what the last of them with that lowercased name says. */
  ghost predicate IsParse(r: Request, lines: seq<string>, q: Request)
    requires |lines| >= 1
  {
    match ParseLine(lines[0])
    case None => q == r.(error := BadRequest)
    case Some(l) =>
      && RequestLine(q.meth, q.target, q.version) == l && q.kind == r.kind && q.body == r.body
      && IsVerdict(l.meth, lines[1..], q.error)
      && (Accepts(l.meth, lines[1..]) ==> IsLastWins(l.meth, lines[1..], q.headers))
      && KeepsAccepted(l.meth, lines[1..], q.headers)
  }

  lemma {:induction false} KeptOfFold(meth: string, lines: seq<string>)
    ensures KeepsAccepted(meth, lines, FoldLines(meth, map[], lines).0)
  {
    hide LineStatus, LineName, LineValue, FoldLines;
    forall i | 0 <= i < |lines| && Accepts(meth, lines[..i]) && LineStatus(meth, lines[i]) != StatusNone
      ensures IsLastWins(meth, lines[..i], FoldLines(meth, map[], lines).0)
    {
      StoredBeforeBadLine(meth, [], map[], lines, i);
      assert [] + lines[..i] == lines[..i];
    }
  }

  lemma {:induction false} HeaderOfSection(r: Request, line: string, more: seq<string>)
    requires SectionLines([line] + more)
    requires r.IsOk() && r.headers == map[]
    ensures IsParse(r, [line] + more, ParseHeader(r, Section([line] + more)))
  {
    assert line in [line] + more && forall l <- more :: l in [line] + more;
    assert ([line] + more)[1..] == more;
    SectionCons(line, more);
    FirstLine(line, Section(more));
    match ParseLine(line) {
      case None =>
      case Some(l) =>
        ParseFieldsFolds(l.meth, map[], more);
        VerdictOfLines(l.meth, map[], more);
        if Accepts(l.meth, more) {
          StoredByLastLine(l.meth, [], map[], more);
          assert [] + more == more;
        }
        KeptOfFold(l.meth, more);
    }
  }

  /** The parser meets framing.  On every section that ends at its first terminator no missing-CRLF
      branch is taken and the empty line comes once, last: the section is its first line and
      non-empty field lines, parsed as IsParse says. */
  lemma {:induction false} ParserMeetsFraming(r: Request, hdr: string) returns (lines: seq<string>)
    requires hdr != "" && HeaderEnd(hdr) == |hdr|
    requires r.IsOk() && r.headers == map[]
    ensures SectionLines(lines) && hdr == Section(lines)
    ensures IsParse(r, lines, ParseHeader(r, hdr))
  {
    lines := SectionOfFraming(hdr);
    assert lines == [lines[0]] + lines[1..];
    HeaderOfSection(r, lines[0], lines[1..]);
  }

  // ---- printing ---------------------------------------------------------------------------

  /** A complete listing of the header names, each once: what iterating the unordered_map gives. */
  ghost predicate IsOrder(order: seq<string>, headers: Headers) {
    && (forall k <- order :: k in headers)
    && (forall k <- headers :: k in order)
    && |order| == |headers|
  }

  function PrintValue(v: HeaderValue): string {
    match v
    case Str(s) => s
    case Size(n) => Decimal(n)
  }

  function FieldLine(name: string, v: HeaderValue): string { name + ": " + PrintValue(v) }

  function FieldLines(headers: Headers, order: seq<string>): (lines: seq<string>)
    requires forall k <- order :: k in headers
    ensures |lines| == |order|
    ensures forall i :: 0 <= i < |order| ==> lines[i] == FieldLine(order[i], headers[order[i]])
  {
    if order == [] then []
    else [FieldLine(order[0], headers[order[0]])] + FieldLines(headers, order[1..])
  }

  function FirstRequestLine(r: Request): string { r.meth + " " + r.target + " " + r.version }

  function SerializeHead(r: Request, order: seq<string>): string
    requires forall k <- order :: k in r.headers
  {
    Section([FirstRequestLine(r)] + FieldLines(r.headers, order))
  }

  function SerializeRequest(r: Request, order: seq<string>): string
    requires forall k <- order :: k in r.headers
  {
    SerializeHead(r, order) + r.body
  }

  // ---- request objects --------------------------------------------------------------------

  class HttpRequest {
    const kind: Kind
    var meth: string
    var target: string
    var version: string
    var headers: Headers
    var body: string
    var error: Status

    function View(): Request
      reads this
    {
      Request(kind, meth, target, version, headers, body, error)
    }

    constructor Error(status: Status)
      ensures View() == ErrorRequest(status)
    {
      kind, meth, target, version, headers, body, error := Base, "", "", "", map[], "", status;
    }

    constructor Create(token: string)
      ensures View() == NewRequest(token)
    {
      target, version, headers, body := "", "", map[], "";
      match KindOf(token) {
        case None => kind, meth, error := Base, token, MethodNotAllowed;
        case Some(k) => kind, meth, error := k, "", StatusNone;
      }
    }

    method AddHeader(name: string, value: HeaderValue)
      modifies this`headers
      ensures headers == old(headers)[ToLower(name) := value]
    {
      var lower := LowerString(name);
      headers := headers[lower := value];
    }

    method AppendBody(chunk: string)
      modifies this`body
      ensures body == old(body) + chunk
    {
      body := body + chunk;
    }

    method SetErrorCode(code: Status)
      modifies this`error
      ensures error == code
    {
      error := code;
    }

    method ParseRequestHeader(buf: string)
      modifies this
      ensures View() == ParseHeader(old(View()), buf)
    {
      hide FindCrlf, ParseLine, ParseFields, Typed;
      var lineEnd := FindCrlf(buf);
      if lineEnd == -1 {
        SetErrorCode(BadRequest);
        return;
      }
      var line := buf[..lineEnd];
      var parts := ParseLine(line);
      if parts == None {
        SetErrorCode(BadRequest);
        return;
      }
      meth, target, version := parts.value.meth, parts.value.target, parts.value.version;

      ParseFieldLines(buf[lineEnd + 2..]);
    }

    /** The field loop of ParseRequestHeader and the check after it. */
    method ParseFieldLines(buf: string)
      modifies this`headers, this`error
      ensures headers == ParseFields(meth, old(headers), buf).0
      ensures var status := ParseFields(meth, old(headers), buf).1;
        error == if status == StatusNone then old(error) else status
    {
      var p := buf;
      while p != ""
        invariant error == old(error)
        invariant ParseFields(meth, headers, p) == ParseFields(meth, old(headers), buf)
        decreases |p|
      {
        var lineEnd := FindCrlf(p);
        if lineEnd == -1 {
          SetErrorCode(BadRequest);
          return;
        }
        var line := p[..lineEnd];
        if line != "" {
          var ok := ParseField(line);
          if !ok {
            return;
          }
        }
        p := p[Min(lineEnd + 2, |p|)..];
      }
      if MethodHasBody(meth) && CONTENT_LENGTH !in headers {
        SetErrorCode(LengthRequired);
      }
    }

    /** The body of the field loop: false stands for its return through `fail`. */
    method ParseField(line: string) returns (ok: bool)
      modifies this`headers, this`error
      ensures ok <==> LineStatus(meth, line) == StatusNone
      ensures ok ==> headers == old(headers)[LineName(line) := LineValue(meth, line)] && error == old(error)
      ensures !ok ==> headers == old(headers) && error == LineStatus(meth, line)
    {
      var colon := FindChar(line, ':');
      if colon == -1 {
        SetErrorCode(BadRequest);
        return false;
      }
      var name := line[..colon];
      var value := TrimString(line[colon + 1..]);
      var lower := LowerString(name);
      if lower == CONTENT_LENGTH {
        if !MethodHasBody(meth) {
          SetErrorCode(BadRequest);
          return false;
        }
        var len := FromChars(value);
        if len == None {
          SetErrorCode(BadRequest);
          return false;
        }
        if len.value > MAX_HTTP_BODY_SIZE {
          SetErrorCode(PayloadTooLarge);
          return false;
        }
        AddHeader(name, Size(len.value));
      } else {
        AddHeader(name, Str(value));
      }
      return true;
    }

    method Serialize(order: seq<string>) returns (out: string)
      requires IsOrder(order, headers)
      ensures out == SerializeRequest(View(), order)
    {
      out := meth + " " + target + " " + version + CRLF;
      var fields := PrintHeadersAndBody(headers, body, order);
      SectionCons(FirstRequestLine(View()), FieldLines(headers, order));
      out := out + fields;
    }
  }

  lemma {:induction false} PrintStep(out: string, lines: seq<string>, i: nat)
    requires i < |lines|
    ensures out + Section(lines[i..]) == out + (lines[i] + CRLF) + Section(lines[i + 1..])
  {
    assert lines[i..] == [lines[i]] + lines[i + 1..];
    SectionCons(lines[i], lines[i + 1..]);
  }

  /** SerializeHeadersAndBody: one line a header in map order, the empty line, the body. */
  method PrintHeadersAndBody(headers: Headers, body: string, order: seq<string>) returns (out: string)
    requires IsOrder(order, headers)
    ensures out == Section(FieldLines(headers, order)) + body
  {
    hide Section, FieldLines, PrintValue;
    out := "";
    ghost var lines := FieldLines(headers, order);
    var i := 0;
    while i < |order|
      invariant 0 <= i <= |order|
      invariant out + Section(lines[i..]) == Section(lines)
    {
      var v := headers[order[i]];
      PrintStep(out, lines, i);
      out := out + (order[i] + ": " + PrintValue(v) + CRLF);
      i := i + 1;
    }
    assert lines[i..] == [];
    NoLines();
    out := out + CRLF + body;
  }
}
