/** Printing requests and receiving them back. */
module RoundTrip {
  import opened Bytes
  import opened Lines
  import opened Message
  import opened Transcript
  import opened Stream

  /** A header the printer and the parser agree on: a lowercased name without ':' or CRLF, and a
      CRLF-free value without outer spaces; Content-Length, and nothing else, is a size. */
  ghost predicate PrintableHeader(name: string, v: HeaderValue) {
    && ToLower(name) == name && CrlfFree(name) && (forall i :: 0 <= i < |name| ==> name[i] != ':')
    && (name == CONTENT_LENGTH <==> v.Size?)
    && match v
       case Str(s) => CrlfFree(s) && Trimmed(s)
       case Size(n) => n <= MAX_HTTP_BODY_SIZE
  }

  /** A request a client may send: a supported method, a non-empty target, an HTTP version without
      spaces, printable headers, and a body exactly as long as the method and Content-Length say. */
  ghost predicate WellFormed(r: Request) {
    && r.IsOk() && KindOf(r.meth) == Some(r.kind)
    && r.target != "" && CrlfFree(r.target)
    && "HTTP/" <= r.version && CrlfFree(r.version) && NoSpace(r.version)
    && (forall k <- r.headers :: PrintableHeader(k, r.headers[k]))
    && (CONTENT_LENGTH in r.headers <==> MethodHasBody(r.meth))
    && |r.body| == (if MethodHasBody(r.meth) then r.headers[CONTENT_LENGTH].n else 0)
  }

  lemma {:induction false} CleanJoin(a: string, c: char, b: string)
    requires CrlfFree(a) && CrlfFree(b) && c != '\r' && c != '\n'
    ensures CrlfFree(a + [c] + b)
  {
    var s := a + [c] + b;
    forall i ensures !CrlfAt(s, i) {
      assert !CrlfAt(a, i) && !CrlfAt(b, i - |a| - 1);
    }
  }

  /** A printed field line is accepted and stores what was printed. */
  lemma {:induction false} ParsedFieldLine(meth: string, name: string, v: HeaderValue)
    requires PrintableHeader(name, v) && (v.Size? ==> MethodHasBody(meth))
    ensures var line := FieldLine(name, v);
      && line != "" && CrlfFree(line)
      && LineStatus(meth, line) == StatusNone && LineName(line) == name && LineValue(meth, line) == v
  {
    var text := PrintValue(v);
    if v.Size? {
      DecimalRoundTrip(v.n);
      DigitsAreClean(text);
    }
    var line := FieldLine(name, v);
    assert line == name + [':'] + (" " + text);
    CleanJoin("", ' ', text);
    assert "" + [' '] + text == " " + text;
    CleanJoin(name, ':', " " + text);
    FindCharIs(line, ':', |name|);
    assert line[|name|] in line;
    assert line[..|name|] == name && line[|name| + 1..] == " " + text;
    TrimOfPadded(text);
  }

  predicate NoSpace(s: string) { forall i :: 0 <= i < |s| ==> s[i] != ' ' }

  lemma {:induction false} KnownMethod(meth: string)
    requires KindOf(meth).Some?
    ensures meth != "" && NoSpace(meth) && CrlfFree(meth)
  {
  }

  lemma {:induction false} ParsedRequestLine(meth: string, target: string, version: string)
    requires meth != "" && NoSpace(meth) && CrlfFree(meth) && target != "" && CrlfFree(target)
    requires "HTTP/" <= version && CrlfFree(version) && NoSpace(version)
    ensures var line := meth + " " + target + " " + version;
      CrlfFree(line) && ParseLine(line) == Some(RequestLine(meth, target, version))
  {
    var line := meth + " " + target + " " + version;
    CleanJoin(meth, ' ', target);
    CleanJoin(meth + [' '] + target, ' ', version);
    assert line == meth + [' '] + target + [' '] + version;
    assert line[|meth|] == ' ' && line[|meth| + 1 + |target|] == ' ';
    FindCharIs(line, ' ', |meth|);
    RFindCharIs(line, ' ', |meth| + 1 + |target|);
    assert line[..|meth|] == meth && line[|meth| + 1..|meth| + 1 + |target|] == target;
    assert line[|meth| + 2 + |target|..] == version;
  }

  function Restrict(headers: Headers, names: seq<string>): Headers {
    map k | k in names && k in headers :: headers[k]
  }

  lemma {:induction false} RestrictStep(headers: Headers, names: seq<string>, stored: Headers)
    requires names != [] && names[0] in headers
    ensures stored[names[0] := headers[names[0]]] + Restrict(headers, names[1..]) == stored + Restrict(headers, names)
  {
    assert names == [names[0]] + names[1..];
  }

  ghost predicate Printable(meth: string, headers: Headers) {
    && (forall k <- headers :: PrintableHeader(k, headers[k]))
    && (CONTENT_LENGTH in headers ==> MethodHasBody(meth))
  }

  lemma {:induction false} FoldOfFieldLines(meth: string, headers: Headers, order: seq<string>, stored: Headers)
    requires forall k <- order :: k in headers
    requires Printable(meth, headers)
    ensures var h := stored + Restrict(headers, order);
      FoldLines(meth, stored, FieldLines(headers, order)) == (h, MissingLength(meth, h))
    decreases |order|
  {
    if order == [] {
      assert stored + Restrict(headers, order) == stored;
    } else {
      var name := order[0];
      ParsedFieldLine(meth, name, headers[name]);
      RestrictStep(headers, order, stored);
      FoldOfFieldLines(meth, headers, order[1..], stored[name := headers[name]]);
    }
  }

  lemma {:induction false} FieldLinesAreClean(meth: string, headers: Headers, order: seq<string>)
    requires forall k <- order :: k in headers
    requires Printable(meth, headers)
    ensures CleanLines(FieldLines(headers, order)) && "" !in FieldLines(headers, order)
  {
    forall i | 0 <= i < |order| ensures var l := FieldLines(headers, order)[i]; l != "" && CrlfFree(l) {
      ParsedFieldLine(meth, order[i], headers[order[i]]);
    }
  }

  /** `lines` reads back as the request line and the header map of `r`. */
  ghost predicate ReadsBack(r: Request, first: string, fields: seq<string>) {
    && SectionLines([first] + fields)
    && ParseLine(first) == Some(RequestLine(r.meth, r.target, r.version))
    && FoldLines(r.meth, map[], fields) == (r.headers, StatusNone)
  }

  lemma {:induction false} SectionOfParts(first: string, fields: seq<string>)
    requires CrlfFree(first) && CleanLines(fields) && "" !in fields
    ensures SectionLines([first] + fields)
  {
    assert ([first] + fields)[1..] == fields;
  }

  lemma {:induction false} PrintedFields(meth: string, headers: Headers, order: seq<string>)
    requires Printable(meth, headers) && IsOrder(order, headers)
    requires CONTENT_LENGTH in headers <==> MethodHasBody(meth)
    ensures FoldLines(meth, map[], FieldLines(headers, order)) == (headers, StatusNone)
  {
    FoldOfFieldLines(meth, headers, order, map[]);
    RestrictAll(headers, order);
  }

  lemma {:induction false} RestrictAll(headers: Headers, order: seq<string>)
    requires forall k <- headers :: k in order
    ensures map[] + Restrict(headers, order) == headers
  {
  }

  lemma {:induction false} PrintedReadsBack(r: Request, order: seq<string>)
    requires WellFormed(r) && IsOrder(order, r.headers)
    ensures ReadsBack(r, FirstRequestLine(r), FieldLines(r.headers, order))
  {
    KnownMethod(r.meth);
    ParsedRequestLine(r.meth, r.target, r.version);
    FieldLinesAreClean(r.meth, r.headers, order);
    SectionOfParts(FirstRequestLine(r), FieldLines(r.headers, order));
    PrintedFields(r.meth, r.headers, order);
  }

  lemma {:induction false} ParsedSection(q: Request, r: Request, first: string, fields: seq<string>)
    requires ReadsBack(r, first, fields)
    requires q.headers == map[] && q.IsOk()
    ensures ParseHeader(q, Section([first] + fields))
         == q.(meth := r.meth, target := r.target, version := r.version, headers := r.headers)
  {
    SectionCons(first, fields);
    assert ([first] + fields)[1..] == fields && first in [first] + fields;
    FirstLine(first, Section(fields));
    assert forall x <- fields :: x in [first] + fields;
    ParseFieldsFolds(r.meth, map[], fields);
  }

  lemma {:induction false} TokenOfSection(first: string, fields: seq<string>)
    requires ParseLine(first).Some?
    ensures MethodToken(Section([first] + fields)) == ParseLine(first).value.meth
  {
    SectionCons(first, fields);
    var s := Section([first] + fields);
    assert s[..|first|] == first;
    TokenIsMethod(s, |first|);
  }

  lemma {:induction false} ParsedHead(r: Request, first: string, fields: seq<string>)
    requires ReadsBack(r, first, fields)
    requires r.IsOk() && KindOf(r.meth) == Some(r.kind)
    requires |Section([first] + fields)| <= MAX_HTTP_HDR_SIZE
    ensures ParseHead(Section([first] + fields)) == r.(body := "")
  {
    TokenOfSection(first, fields);
    ParsedSection(NewRequest(r.meth), r, first, fields);
  }

  /** The header parser inverts the printer, in any iteration order of the header map. */
  lemma {:induction false} HeaderRoundTrip(r: Request, order: seq<string>) returns (lines: seq<string>)
    requires WellFormed(r) && IsOrder(order, r.headers)
    requires |SerializeHead(r, order)| <= MAX_HTTP_HDR_SIZE
    ensures SectionLines(lines) && SerializeHead(r, order) == Section(lines)
    ensures ParseHead(SerializeHead(r, order)) == r.(body := "")
  {
    PrintedReadsBack(r, order);
    ParsedHead(r, FirstRequestLine(r), FieldLines(r.headers, order));
    lines := [FirstRequestLine(r)] + FieldLines(r.headers, order);
  }

  lemma {:induction false} WindowOfSection(lines: seq<string>, rest: string)
    requires SectionLines(lines) && |Section(lines)| <= RECV_BUF_SIZE
    ensures 0 < |Section(lines)| && HeaderEnd(Window(Section(lines) + rest)) == |Section(lines)|
  {
    var s := Section(lines) + rest;
    assert lines == [lines[0]] + lines[1..];
    SectionCons(lines[0], lines[1..]);
    FramingOfSection(lines, rest);
    HeaderEndOfPrefix(s, |Window(s)|);
  }

  lemma {:induction false} FramedRoundTrip(r: Request, hdr: string, rest: string)
    requires ParseHead(hdr) == r.(body := "")
    requires Typed(r.headers) && r.IsOk() && (MethodHasBody(r.meth) ==> CONTENT_LENGTH in r.headers)
    requires |r.body| == BodyLength(r)
    ensures Framed(hdr + (r.body + rest), |hdr|) == Msg(r, |hdr| + |r.body|, KeepAlive(r))
  {
    var s := hdr + (r.body + rest);
    assert s[..|hdr|] == hdr && s[|hdr|..] == r.body + rest && (r.body + rest)[..|r.body|] == r.body;
  }

  lemma {:induction false} Associative(a: string, b: string, c: string)
    ensures (a + b) + c == a + (b + c)
  {
  }

  lemma {:induction false} ReceivedHead(r: Request, hdr: string, lines: seq<string>, rest: string)
    requires SectionLines(lines) && hdr == Section(lines) && |hdr| <= RECV_BUF_SIZE
    requires ParseHead(hdr) == r.(body := "")
    requires Typed(r.headers) && r.IsOk() && (MethodHasBody(r.meth) ==> CONTENT_LENGTH in r.headers)
    requires |r.body| == BodyLength(r)
    ensures NextMessage((hdr + r.body) + rest) == Msg(r, |hdr + r.body|, KeepAlive(r))
  {
    Associative(hdr, r.body, rest);
    WindowOfSection(lines, r.body + rest);
    FramedRoundTrip(r, hdr, rest);
  }

  lemma {:induction false} WellFormedBody(r: Request)
    requires WellFormed(r)
    ensures Typed(r.headers) && r.IsOk() && (MethodHasBody(r.meth) ==> CONTENT_LENGTH in r.headers)
    ensures |r.body| == BodyLength(r)
  {
  }

  /** Receiving inverts sending: on the wire image of a request, followed by anything, the framing,
      the parser and the Content-Length give back that request and stop at its last byte. */
  lemma {:induction false} RequestRoundTrip(r: Request, order: seq<string>, rest: string)
    requires WellFormed(r) && IsOrder(order, r.headers)
    requires |SerializeHead(r, order)| <= MAX_HTTP_HDR_SIZE
    ensures Typed(r.headers)
    ensures NextMessage(SerializeRequest(r, order) + rest)
      == Msg(r, |SerializeRequest(r, order)|, KeepAlive(r))
  {
    var lines := HeaderRoundTrip(r, order);
    WellFormedBody(r);
    ReceivedHead(r, SerializeHead(r, order), lines, rest);
  }

  /** A request and the order its header map is printed in. */
  datatype Printed = Printed(req: Request, order: seq<string>) {
    ghost predicate Ordered() { IsOrder(order, req.headers) }
  }

  /** What the pipelining theorem asks of each request: well formed, keep-alive, a small header. */
  ghost predicate Pipelinable(m: Printed) {
    && WellFormed(m.req) && m.Ordered()
    && |SerializeHead(m.req, m.order)| <= MAX_HTTP_HDR_SIZE
    && Typed(m.req.headers) && KeepAlive(m.req)
  }

  function PrintedRequests(ms: seq<Printed>): (rs: seq<Request>)
    ensures |rs| == |ms| && forall i :: 0 <= i < |ms| ==> rs[i] == ms[i].req
  {
    if ms == [] then [] else [ms[0].req] + PrintedRequests(ms[1..])
  }

  /** What a pipelining client puts on the wire. */
  ghost function Wire(ms: seq<Printed>): string
    requires forall m <- ms :: m.Ordered()
  {
    if ms == [] then "" else assert ms[0].Ordered(); SerializeRequest(ms[0].req, ms[0].order) + Wire(ms[1..])
  }

  lemma {:induction false} ReceiveFirst(m: Printed, tail: string)
    requires Pipelinable(m)
    ensures var s := SerializeRequest(m.req, m.order) + tail;
      Requests(s) == [m.req] + Requests(tail) && EndOf(s) == EndOf(tail) && BehindAll(s) == BehindAll(tail)
  {
    RequestRoundTrip(m.req, m.order, tail);
    var printed := SerializeRequest(m.req, m.order);
    assert NEXT(printed + tail) == Msg(m.req, |printed|, true);
    assert (printed + tail)[|printed|..] == tail;
  }

  /** Pipelined wire round trip: any list of well-formed keep-alive requests, printed back to back
      with every header map in any order, is received as exactly that list, with nothing left. */
  lemma {:induction false} PipelinedRoundTrip(ms: seq<Printed>)
    requires forall m <- ms :: m.Ordered() && Pipelinable(m)
    ensures Requests(Wire(ms)) == PrintedRequests(ms) && EndOf(Wire(ms)) == Waiting && BehindAll(Wire(ms)) == ""
  {
    if ms == [] {
      assert NEXT("") == Incomplete;
    } else {
      ReceiveFirst(ms[0], Wire(ms[1..]));
      PipelinedRoundTrip(ms[1..]);
    }
  }
}
