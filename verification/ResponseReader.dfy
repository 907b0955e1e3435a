/** The client's side: responses on the wire are split again by their own headers. */
module ResponseReader {
  import opened Bytes
  import opened Lines
  import opened Message
  import opened Transcript
  import opened Stream
  import opened Response
  import opened RoundTrip

  /** The Content-Length of a list of field lines: the first one that has that name. */
  function LengthOf(fields: seq<string>): Option<nat> {
    if fields == [] then None
    else if ':' in fields[0] && LineName(fields[0]) == CONTENT_LENGTH then FromChars(LineText(fields[0]))
    else LengthOf(fields[1..])
  }

  /** Reading one response: everything up to the first terminator, then Content-Length bytes, or none
      when the request was HEAD. */
  function ReadResponse(toHead: bool, s: string): Next<string> {
    var h := HeaderEnd(s);
    if h == 0 then Incomplete
    else
      var lines := SplitLines(s[..h]);
      match if lines == [] then None else LengthOf(lines[1..])
      case None => TooLong
      case Some(length) =>
        var n := if toHead then 0 else length;
        if |s| - h < n then Incomplete else Msg(s[..h + n], h + n, true)
  }

  // ---- response headers are clean ---------------------------------------------------------

  /** What framing and the reader need of a header. */
  ghost predicate CleanHeader(name: string, v: HeaderValue) {
    && CrlfFree(name) && CrlfFree(PrintValue(v))
    && ToLower(name) == name && (forall i :: 0 <= i < |name| ==> name[i] != ':')
    && (name == CONTENT_LENGTH ==> v.Size? && v.n < SIZE_LIMIT)
  }

  ghost predicate CleanHeaders(headers: Headers) {
    forall k <- headers :: CleanHeader(k, headers[k])
  }

  lemma {:induction false} CleanConcat(a: string, b: string)
    requires CrlfFree(a) && CrlfFree(b) && (a == "" || a[|a| - 1] != '\r')
    ensures CrlfFree(a + b)
  {
    forall i ensures !CrlfAt(a + b, i) {
      assert !CrlfAt(a, i) && !CrlfAt(b, i - |a|);
    }
  }

  lemma {:induction false} CleanStatusLine(resp: Response)
    ensures CrlfFree(StatusLine(resp)) && StatusLine(resp) != ""
  {
    var code := Decimal(Code(resp.status));
    DigitsAreClean(code);
    CleanConcat("HTTP/1.1 ", code);
    CleanConcat("HTTP/1.1 " + code, " ");
    CleanText(resp.status);
    CleanConcat("HTTP/1.1 " + code + " ", StatusText(resp.status));
  }

  lemma {:induction false} CleanWhenNoCr(s: string)
    requires '\r' !in s
    ensures CrlfFree(s)
  {
  }

  lemma {:induction false} TextHasNoCr(status: Status)
    ensures '\r' !in StatusText(status)
  {
    match status
    case HeaderFieldsTooLarge =>
    case InternalServerError =>
    case MethodNotAllowed =>
    case _ =>
  }

  lemma {:induction false} CleanText(status: Status)
    ensures CrlfFree(StatusText(status))
  {
    hide CrlfFree;
    TextHasNoCr(status);
    CleanWhenNoCr(StatusText(status));
  }

  lemma {:induction false} ConstantHeaders()
    ensures CrlfFree("my_srv_async/1.0 (Ubuntu)") && CrlfFree("text/html; charset=UTF-8")
    ensures CrlfFree("GET, HEAD, POST, PUT, DELETE, PATCH") && CrlfFree("keep-alive") && CrlfFree("close")
  {
  }

  lemma {:induction false} HeaderName(name: string)
    requires name in {"date", "server", "connection", "content-type", CONTENT_LENGTH, "allow"}
    ensures CrlfFree(name) && ToLower(name) == name && forall i :: 0 <= i < |name| ==> name[i] != ':'
  {
  }

  lemma {:induction false} ResponseHeadersAreClean(r: Request, env: Env, k: nat)
    requires Typed(r.headers) && TargetFits(r) && env.Valid()
    ensures CleanHeaders(MakeResponse(r, env, k).headers)
    ensures CONTENT_LENGTH in MakeResponse(r, env, k).headers
  {
    hide KeepAlive, ToLower, CrlfFree, Decimal;
    var headers := MakeResponse(r, env, k).headers;
    forall name <- headers ensures CleanHeader(name, headers[name]) {
      HeaderName(name);
      ConstantHeaders();
      if headers[name].Size? {
        DigitsAreClean(Decimal(headers[name].n));
      }
    }
  }

  // ---- reading back -----------------------------------------------------------------------

  lemma {:induction false} ReadFieldLine(name: string, v: HeaderValue)
    requires CleanHeader(name, v)
    ensures var line := FieldLine(name, v);
      && line != "" && CrlfFree(line) && ':' in line && LineName(line) == name
      && (name == CONTENT_LENGTH ==> FromChars(LineText(line)) == Some(v.n))
  {
    var line, text := FieldLine(name, v), PrintValue(v);
    CleanConcat(": ", text);
    CleanName(name, ": " + text);
    assert line == name + (": " + text);
    FindCharIs(line, ':', |name|);
    assert line[|name|] in line && line[..|name|] == name;
    if name == CONTENT_LENGTH {
      assert line[|name| + 1..] == " " + text;
      ReadLength(v.n);
    }
  }

  lemma {:induction false} ReadLength(n: nat)
    requires n < SIZE_LIMIT
    ensures FromChars(TrimSpaces(" " + Decimal(n))) == Some(n)
  {
    DigitsAreClean(Decimal(n));
    TrimOfPadded(Decimal(n));
    DecimalRoundTrip(n);
  }

  lemma {:induction false} CleanName(name: string, rest: string)
    requires CrlfFree(name) && CrlfFree(rest) && rest != "" && rest[0] != '\n'
    ensures CrlfFree(name + rest)
  {
    forall i ensures !CrlfAt(name + rest, i) {
      assert !CrlfAt(name, i) && !CrlfAt(rest, i - |name|);
    }
  }

  lemma {:induction false} ReadFields(headers: Headers, order: seq<string>)
    requires (forall k <- order :: k in headers) && CleanHeaders(headers)
    ensures CleanLines(FieldLines(headers, order)) && "" !in FieldLines(headers, order)
    ensures CONTENT_LENGTH in order ==> LengthOf(FieldLines(headers, order)) == Some(headers[CONTENT_LENGTH].n)
    decreases |order|
  {
    if order != [] {
      ReadFieldLine(order[0], headers[order[0]]);
      ReadFields(headers, order[1..]);
      assert FieldLines(headers, order)
          == [FieldLine(order[0], headers[order[0]])] + FieldLines(headers, order[1..]);
    }
  }

  lemma {:induction false} ReadHead(first: string, fields: seq<string>, after: string)
    requires CrlfFree(first) && CleanLines(fields) && "" !in fields
    ensures var hdr := Section([first] + fields);
      HeaderEnd(hdr + after) == |hdr| > 0 && SplitLines(hdr) != []
      && LengthOf(SplitLines(hdr)[1..]) == LengthOf(fields + [""])
  {
    var lines := [first] + fields;
    assert lines[1..] == fields;
    FramingOfSection(lines, after);
    SectionCons(first, fields);
    assert CleanLines(lines + [""]);
    SplitOfUnlines(lines + [""]);
    assert (lines + [""])[1..] == fields + [""];
  }

  lemma {:induction false} LengthWithEmptyLine(fields: seq<string>)
    ensures LengthOf(fields + [""]) == LengthOf(fields)
  {
    if fields == [] {
      assert [] + [""] == [""] && [""][1..] == [];
    } else {
      assert (fields + [""])[1..] == fields[1..] + [""];
      LengthWithEmptyLine(fields[1..]);
    }
  }

  lemma {:induction false} ReadPrinted(resp: Response, order: seq<string>, after: string)
    requires IsOrder(order, resp.headers) && CleanHeaders(resp.headers) && CONTENT_LENGTH in resp.headers
    ensures var hdr := ResponseHead(resp, order);
      HeaderEnd(hdr + after) == |hdr| > 0 && SplitLines(hdr) != []
      && LengthOf(SplitLines(hdr)[1..]) == Some(resp.headers[CONTENT_LENGTH].n)
  {
    var fields := FieldLines(resp.headers, order);
    CleanStatusLine(resp);
    ReadFields(resp.headers, order);
    ReadHead(StatusLine(resp), fields, after);
    LengthWithEmptyLine(fields);
  }

  /** A response is read back whole unless a page follows where the reader expects none. */
  lemma {:induction false} ReadWhole(toHead: bool, resp: Response, order: seq<string>, rest: string)
    requires IsOrder(order, resp.headers) && CleanHeaders(resp.headers) && CONTENT_LENGTH in resp.headers
    requires resp.headers[CONTENT_LENGTH].Size? && resp.headers[CONTENT_LENGTH].n > 0
    requires |resp.body| == if resp.body == "" then 0 else resp.headers[CONTENT_LENGTH].n
    requires !toHead ==> resp.body != ""
    ensures var m := ResponseHead(resp, order) + resp.body;
      ReadResponse(toHead, m + rest) == Msg(m, |m|, true) <==> !(toHead && resp.body != "")
  {
    hide ResponseHead, ReadResponse, CleanHeaders;
    var hdr := ResponseHead(resp, order);
    ReadPrinted(resp, order, resp.body + rest);
    Associative(hdr, resp.body, rest);
    ReadSplit(toHead, hdr, resp.body, rest, (hdr + resp.body) + rest, resp.headers[CONTENT_LENGTH].n);
  }

  /** What a client has sent: a header section that framing cut off, and the body behind it. */
  datatype Sent = Sent(hdr: string, body: string) {
    function Request(): Request { ParseHead(hdr).(body := body) }

    /** The client knows the method it sent, whatever the server made of it. */
    predicate ToHead() { MethodToken(hdr) == "HEAD" }
  }

  lemma {:induction false} SentFacts(x: Sent)
    ensures var r := x.Request();
      Typed(r.headers) && TargetFits(r) && (r.IsOk() ==> (r.kind.Head? <==> x.ToHead()))
  {
    TypedDispatch(x.hdr);
    ParsedTargetFits(x.hdr);
  }

  lemma {:induction false} ReadReply(toHead: bool, r: Request, env: Env, k: nat, rest: string)
    requires Typed(r.headers) && TargetFits(r) && env.Valid()
    requires r.IsOk() ==> (r.kind.Head? <==> toHead)
    ensures var m := ResponseBytes(r, env, k);
      ReadResponse(toHead, m + rest) == Msg(m, |m|, true) <==> (toHead ==> r.IsOk())
  {
    hide MakeResponse, ResponseHead, ResponseBytes, ReadResponse, CleanHeaders, IsOrder, KeepAlive, Typed;
    BytesOfResponse(r, env, k);
    ResponseHeadersAreClean(r, env, k);
    BodyOfResponse(r, env, k);
    var resp := MakeResponse(r, env, k);
    ReadWhole(toHead, resp, env.order(k, resp.headers), rest);
  }

  /** The client takes exactly the bytes of the response, whatever follows them, in any header order and
      for any page, if and only if it did not send an erroneous HEAD request: the response to that one
      carries a page although the client expects no body. */
  lemma {:induction false} SelfDelimitingIff(x: Sent, env: Env, k: nat, rest: string)
    requires env.Valid()
    ensures var r := x.Request();
      && Typed(r.headers)
      && var m := ResponseBytes(r, env, k);
         ReadResponse(x.ToHead(), m + rest) == Msg(m, |m|, true) <==> (x.ToHead() ==> r.IsOk())
  {
    hide ParseHead, ResponseBytes, ReadResponse, Typed;
    SentFacts(x);
    ReadReply(x.ToHead(), x.Request(), env, k, rest);
  }

  lemma {:induction false} HeadToken(rest: string)
    ensures MethodToken("HEAD " + rest) == "HEAD"
  {
    FindCharIs("HEAD " + rest, ' ', 4);
    assert ("HEAD " + rest)[..4] == "HEAD";
  }

  lemma {:induction false} NoRequestLine()
    ensures ParseLine("HEAD ") == None && HeaderEnd("HEAD \r\n\r\n") == 9 && FindCrlf("HEAD \r\n\r\n") == 5
  {
    var hdr := "HEAD \r\n\r\n";
    assert CrlfAt(hdr, 5) && CrlfAt(hdr, 7);
    assert !CrlfAt(hdr, 0) && !CrlfAt(hdr, 1) && !CrlfAt(hdr, 2) && !CrlfAt(hdr, 3) && !CrlfAt(hdr, 4);
    HeaderEndIs(hdr, 5);
    FindCrlfIs(hdr, 5);
    FindCharIs("HEAD ", ' ', 4);
    RFindCharIs("HEAD ", ' ', 4);
  }

  /** Both ways a HEAD request fails occur: a section that is no request line, and one that is too
      large, of which the server does not even look at the method. */
  lemma {:induction false} ErroneousHeads(padding: string)
    requires |padding| > MAX_HTTP_HDR_SIZE
    ensures var x := Sent("HEAD \r\n\r\n", "");
      HeaderEnd(x.hdr) == |x.hdr| && x.ToHead() && x.Request().error == BadRequest && x.Request().kind == Head
    ensures var x := Sent("HEAD " + padding, "");
      x.ToHead() && x.Request().error == HeaderFieldsTooLarge && x.Request().kind == Base
  {
    hide HeaderEnd, FindCrlf, ParseLine, MethodToken, ParseFields;
    var hdr := "HEAD \r\n\r\n";
    NoRequestLine();
    assert hdr == "HEAD " + "\r\n\r\n" && hdr[..5] == "HEAD ";
    HeadToken("\r\n\r\n");
    HeadToken(padding);
  }

  lemma {:induction false} BytesOfResponse(r: Request, env: Env, k: nat)
    requires Typed(r.headers) && env.Valid()
    ensures var resp := MakeResponse(r, env, k);
      var order := env.order(k, resp.headers);
      IsOrder(order, resp.headers) && ResponseBytes(r, env, k) == ResponseHead(resp, order) + resp.body
  {
    hide MakeResponse, ResponseHead;
  }

  lemma {:induction false} BodyOfResponse(r: Request, env: Env, k: nat)
    requires Typed(r.headers) && TargetFits(r) && env.Valid()
    ensures var resp := MakeResponse(r, env, k);
      && CONTENT_LENGTH in resp.headers && resp.headers[CONTENT_LENGTH].Size?
      && resp.headers[CONTENT_LENGTH].n > 0
      && |resp.body| == if r.kind.Head? && r.IsOk() then 0 else resp.headers[CONTENT_LENGTH].n
  {
    hide KeepAlive;
  }

  lemma {:induction false} ReadSplit(toHead: bool, hdr: string, body: string, rest: string, s: string, length: nat)
    requires s == hdr + (body + rest) && HeaderEnd(s) == |hdr| > 0
    requires SplitLines(hdr) != [] && LengthOf(SplitLines(hdr)[1..]) == Some(length)
    requires length > 0 && (body == "" || |body| == length) && (!toHead ==> body != "")
    ensures ReadResponse(toHead, s) == Msg(hdr + body, |hdr + body|, true) <==> !(toHead && body != "")
  {
    assert s[..|hdr|] == hdr && s[..|hdr| + |body|] == hdr + body;
  }

  // ---- a whole connection -----------------------------------------------------------------

  /** The client reads as many responses as it has sent requests, `toHead` saying which were HEAD. */
  function ReadAll(toHead: seq<bool>, s: string): Option<seq<string>> {
    if toHead == [] then if s == "" then Some([]) else None
    else
      match ReadResponse(toHead[0], s)
      case Msg(m, n, _) =>
        if n > |s| then None
        else
          var more := ReadAll(toHead[1..], s[n..]);
          if more.Some? then Some([m] + more.value) else None
      case _ => None
  }

  ghost predicate ReadsAs(toHead: bool, m: string) {
    forall rest :: ReadResponse(toHead, m + rest) == Msg(m, |m|, true)
  }

  lemma {:induction false} ConcatCons(parts: seq<string>)
    requires parts != []
    ensures Concat(parts) == parts[0] + Concat(parts[1..])
  {
    if |parts| == 1 {
      assert parts[..0] == [] && Concat(parts[1..]) == "";
    } else {
      ConcatCons(parts[..|parts| - 1]);
      assert parts[..|parts| - 1][1..] == parts[1..][..|parts| - 2];
    }
  }

  lemma {:induction false} ConcatOfNone()
    ensures Concat([]) == ""
  {
  }

  lemma {:induction false} ReadAllParts(toHead: seq<bool>, parts: seq<string>)
    requires |toHead| == |parts| && forall i :: 0 <= i < |parts| ==> ReadsAs(toHead[i], parts[i])
    ensures ReadAll(toHead, Concat(parts)) == Some(parts)
    decreases |parts|
  {
    hide ReadResponse, Concat;
    if parts == [] {
      ConcatOfNone();
    } else {
      ConcatCons(parts);
      var m, more := parts[0], parts[1..];
      assert ReadsAs(toHead[0], m);
      assert (m + Concat(more))[|m|..] == Concat(more);
      ReadAllParts(toHead[1..], more);
      assert parts == [m] + more;
    }
  }

  function HeadFlags(xs: seq<Sent>): (flags: seq<bool>)
    ensures |flags| == |xs| && forall i :: 0 <= i < |xs| ==> flags[i] == xs[i].ToHead()
  {
    seq(|xs|, i requires 0 <= i < |xs| => xs[i].ToHead())
  }

  function SentRequests(xs: seq<Sent>): (rs: seq<Request>)
    ensures |rs| == |xs| && forall i :: 0 <= i < |xs| ==> rs[i] == xs[i].Request()
  {
    seq(|xs|, i requires 0 <= i < |xs| => xs[i].Request())
  }

  ghost predicate AllAnswerable(xs: seq<Sent>) {
    forall x <- xs :: x.ToHead() ==> x.Request().IsOk()
  }

  /** Responses are self-delimiting: the concatenated responses to any requests but erroneous HEAD
      ones, in every header order and with every page, are split by the client into exactly those
      responses. */
  lemma {:induction false} ResponsesSplitUniquely(xs: seq<Sent>, env: Env)
    requires AllAnswerable(xs) && env.Valid()
    ensures forall r <- SentRequests(xs) :: Typed(r.headers)
    ensures var replies := Replies(SentRequests(xs), env);
      ReadAll(HeadFlags(xs), Concat(replies)) == Some(replies)
  {
    hide ResponseBytes, ReadResponse, ParseHead;
    var rs := SentRequests(xs);
    forall i | 0 <= i < |xs| ensures Typed(rs[i].headers) {
      SentFacts(xs[i]);
    }
    var parts := Replies(rs, env);
    forall i | 0 <= i < |xs| ensures ReadsAs(HeadFlags(xs)[i], parts[i]) {
      forall rest ensures ReadResponse(xs[i].ToHead(), parts[i] + rest) == Msg(parts[i], |parts[i]|, true) {
        SelfDelimitingIff(xs[i], env, i, rest);
      }
    }
    ReadAllParts(HeadFlags(xs), parts);
  }

  /** A HEAD response is the GET response without its body: same status, same headers up to Date,
      Content-Length as if the body were there. */
  lemma {:induction false} HeadMirrorsGet(get: Request, head: Request, env: Env, k: nat, k': nat)
    requires Typed(get.headers) && get.IsOk() && get.kind.Get? && get.meth == "GET"
    requires head == get.(kind := Head, meth := "HEAD")
    ensures var g, h := MakeResponse(get, env, k), MakeResponse(head, env, k');
      && h.status == g.status && h.headers["date" := g.headers["date"]] == g.headers
      && h.body == "" && g.headers[CONTENT_LENGTH] == Size(|g.body|)
  {
    hide ContainsCi;
  }
}
