/** Every step of the handler against the reference definition of the stream. */
module HandlerRuns {
  import opened Bytes
  import opened Terminator
  import opened SocketIo
  import opened Message
  import opened Transcript
  import opened Stream
  import opened Response
  import opened Handler
  import opened Loops

  ghost predicate AllTyped(rs: seq<Request>) { forall r <- rs :: Typed(r.headers) }

  /** What is left of the stream from the request at hand on. */
  ghost function Rest(t: Task): string
    requires t.Sane()
  {
    match t.phase
    case Header(_, n) => t.buf[..n] + t.unread
    case Headed(hdr) => hdr + (t.buf[t.curr..t.have] + t.unread)
    case Body(hdr, req, n) => hdr + (req.body + (t.buf[..n] + t.unread))
    case Requested(hdr, req) => hdr + (req.body + (t.buf[t.curr..t.have] + t.unread))
    case Sending(hdr, req, _, _, _) => hdr + (req.body + (t.buf[t.curr..t.have] + t.unread))
    case _ => t.buf[t.curr..t.have] + t.unread
  }

  /** The reader of stream `s` has the requests `vs` behind it and `rest` before it. */
  ghost predicate Before(s: string, vs: seq<Request>, rest: string) {
    |rest| <= |s| && At(NEXT, s, s[..|s| - |rest|], vs, rest)
  }

  ghost predicate AllSent(vs: seq<Request>, env: Env, wire: string)
    requires AllTyped(vs) && env.Valid()
  {
    wire == Concat(Replies(vs, env))
  }

  /** The bytes that have arrived of stream `s`. */
  ghost function Arrived(s: string, unread: string): string
    requires |unread| <= |s|
  {
    s[..|s| - |unread|]
  }

  /** All requests that have arrived are served, and no further one has. */
  ghost predicate ServedArrived(s: string, served: seq<Request>, unread: string)
    requires |unread| <= |s|
  {
    served == Requests(Arrived(s, unread)) && !EndOf(Arrived(s, unread)).Finished?
  }

  /** What a run on stream `s` that stopped for `why` has done. */
  ghost predicate IsRun(s: string, t: Task, why: Stop)
    requires |t.buf| == RECV_BUF_SIZE && t.curr <= t.have <= RECV_BUF_SIZE && t.env.Valid()
  {
    && AllTyped(t.served) && |t.unread| <= |s| && t.served <= Requests(s)
    && match why
       case AskedToClose =>
         && AllSent(t.served, t.env, t.wire) && t.served == Requests(s) && EndOf(s) == Finished
         && t.buf[t.curr..t.have] + t.unread == BehindAll(s)
       case HeaderTooLong =>
         && AllSent(t.served, t.env, t.wire) && ServedArrived(s, t.served, t.unread)
         && t.served == Requests(s) && EndOf(s) == Refused
       case LostPeer | BodyTimeout | RecvFailed =>
         && AllSent(t.served, t.env, t.wire) && ServedArrived(s, t.served, t.unread)
         && EndOf(Arrived(s, t.unread)) == Waiting
       case SpuriousEnd(prev, n) =>
         && AllSent(t.served, t.env, t.wire) && StoppedInHeader(s, t, n) && n < RECV_BUF_SIZE
         && prev < n && Spill(t.buf, prev, n)
       case Crashed(prev, n) =>
         && AllSent(t.served, t.env, t.wire) && StoppedInHeader(s, t, n)
         && prev < n && Overrun(t.buf, prev, n)
       case NotSent | SendFailed => CutOff(t.served, t.env, t.wire)
  }

  /** All that has arrived is served, but for the first `n` bytes of a header section. */
  ghost predicate StoppedInHeader(s: string, t: Task, n: nat)
    requires |t.unread| <= |s|
  {
    && n <= |t.buf| && !HasTerm(t.buf[..n]) && Before(s, t.served, t.buf[..n] + t.unread)
    && ServedArrived(s, t.served, t.unread)
    && (if n < RECV_BUF_SIZE then EndOf(Arrived(s, t.unread)) == Waiting
        else t.served == Requests(s) && EndOf(s) == Refused)
  }

  /** The last response is on the wire only in part. */
  ghost predicate CutOff(served: seq<Request>, env: Env, wire: string)
    requires AllTyped(served) && env.Valid()
  {
    && served != []
    && Concat(Replies(served[..|served| - 1], env)) <= wire < Concat(Replies(served, env))
  }

  /** `req`, with header section `hdr`, is the first message of `rest`. */
  ghost predicate IsNext(rest: string, hdr: string, req: Request) {
    Typed(req.headers) && NEXT(rest) == Msg(req, |hdr| + |req.body|, KeepAlive(req))
  }

  /** The header section of the first message of `rest` is `hdr`. */
  ghost predicate IsHeader(rest: string, hdr: string) {
    hdr != "" && HeaderEnd(Window(rest)) == |hdr|
  }

  /** Where the coroutine stands is where the reader of the stream stands. */
  ghost predicate InLine(s: string, t: Task) {
    && t.Sane() && AllTyped(t.served) && |t.unread| <= |s|
    && match t.phase
       case Ready =>
         Before(s, t.served, Rest(t)) && AllSent(t.served, t.env, t.wire)
       case Header(_, n) =>
         Before(s, t.served, Rest(t)) && AllSent(t.served, t.env, t.wire) && !HasTerm(t.buf[..n])
       case Headed(hdr) =>
         Before(s, t.served, Rest(t)) && AllSent(t.served, t.env, t.wire) && IsHeader(Rest(t), hdr)
       case Body(hdr, req, _) =>
         && Before(s, t.served, Rest(t)) && AllSent(t.served, t.env, t.wire) && IsHeader(Rest(t), hdr)
         && t.have == t.curr == 0 && req.IsOk() && MethodHasBody(req.meth) && ParseHead(hdr) == req.(body := "")
       case Requested(hdr, req) =>
         Before(s, t.served, Rest(t)) && AllSent(t.served, t.env, t.wire) && IsNext(Rest(t), hdr, req)
       case Sending(hdr, req, msg, pos, count) =>
         && t.served != [] && req == t.served[|t.served| - 1]
         && var done := t.served[..|t.served| - 1];
            && Before(s, done, Rest(t)) && IsNext(Rest(t), hdr, req)
            && msg == ResponseBytes(req, t.env, |done|)
            && t.wire == Concat(Replies(done, t.env)) + msg[..pos + count]
       case Replied(req) =>
         && t.served != [] && req == t.served[|t.served| - 1] && AllSent(t.served, t.env, t.wire)
         && if KeepAlive(req) then Before(s, t.served, Rest(t)) else IsRun(s, t, AskedToClose)
       case Stopped(why) => IsRun(s, t, why)
  }

  // ---- a header section -------------------------------------------------------------------

  lemma {:induction false} HeaderInPrefix(s: string, n: nat)
    requires n <= |s| && n <= RECV_BUF_SIZE
    ensures HeaderEnd(s[..n]) != 0 ==> HeaderEnd(Window(s)) == HeaderEnd(s[..n])
    ensures HeaderEnd(s[..n]) == 0 ==>
      if n == RECV_BUF_SIZE then NextMessage(s).TooLong? else NextMessage(s[..n]).Incomplete?
  {
    assert Window(s)[..n] == s[..n];
    HeaderEndOfPrefix(Window(s), n);
    assert Window(s[..n]) == s[..n];
  }

  /** The bytes that arrived hold no further message. */
  lemma {:induction false} NothingMore(s: string, served: seq<Request>, rest: string, unread: string)
    requires |unread| <= |rest| && Before(s, served, rest)
    requires !NextMessage(rest[..|rest| - |unread|]).Msg?
    ensures |unread| <= |s| && served <= Requests(s) && ServedArrived(s, served, unread)
    ensures var next := NextMessage(rest[..|rest| - |unread|]);
      && EndOf(Arrived(s, unread)) == (if next.TooLong? then Refused else Waiting)
      && (next.TooLong? ==> served == Requests(s) && EndOf(s) == Refused)
  {
    hide NextMessage;
    var c := s[..|s| - |rest|];
    Pause(NEXT, s, c, served, rest, |rest| - |unread|);
    assert |c| + (|rest| - |unread|) == |s| - |unread|;
  }

  lemma {:induction false} TooLongStays(rest: string, k: nat)
    requires k <= |rest| && NextMessage(rest).TooLong? && k >= RECV_BUF_SIZE
    ensures NextMessage(rest[..k]).TooLong?
  {
    assert Window(rest[..k]) == Window(rest);
  }

  lemma {:induction false} CutAt(b: string, s: string, h: nat)
    requires b <= s && h <= |b|
    ensures b[..h] == s[..h] && b[h..] + s[|b|..] == s[h..] && b[..h] + (b[h..] + s[|b|..]) == s
  {
  }

  lemma {:induction false} WholeBuffer(b: string, leftover: string)
    requires |leftover| <= |b|
    ensures Overlay(b, 0, leftover)[..|leftover|] == leftover
  {
  }

  lemma {:induction false} KeepReady(s: string, t: Task)
    requires InLine(s, t) && t.phase.Ready?
    ensures InLine(s, Step(t))
  {
    hide NextMessage, HasTerm, Before, AllSent, ServedArrived, ResponseBytes, KeepAlive, MethodHasBody, ParseHead;
    hide Requests, EndOf, IsNext, CutOff, HeaderEnd, Window, MissingLength, BehindAll, StoppedInHeader, Spill, Overrun;
    var leftover, rest := t.buf[t.curr..t.have], Rest(t);
    var h := HeaderEnd(leftover);
    if leftover == "" {
      assert t.buf[..0] == "" && HeaderEnd("") == 0;
    } else if h != 0 {
      LeftoverHeader(t);
    } else if |leftover| == RECV_BUF_SIZE {
      LeftoverFull(s, t);
    } else {
      WholeBuffer(t.buf, leftover);
    }
  }

  /** The leftover holds a header section. */
  lemma {:induction false} LeftoverHeader(t: Task)
    requires t.Sane() && t.phase.Ready? && HeaderEnd(t.buf[t.curr..t.have]) != 0
    ensures var t' := Step(t);
      t' == t.(curr := t'.curr, phase := t'.phase) && t'.phase.Headed? && t'.Sane()
      && Rest(t') == Rest(t) && IsHeader(Rest(t'), t'.phase.hdr)
  {
    hide HeaderEnd, Window, Env.Valid, Step;
    ReadyStep(t);
    var leftover := t.buf[t.curr..t.have];
    HeaderFits(leftover);
    LeftoverCut(t.buf, t.curr, t.have, HeaderEnd(leftover), t.unread);
    HeaderInPrefix(leftover + t.unread, |leftover|);
  }

  lemma {:induction false} HeaderFits(s: string)
    ensures HeaderEnd(s) <= |s| && (HeaderEnd(s) != 0 ==> s != "")
  {
  }

  lemma {:induction false} LeftoverCut(b: string, curr: nat, have: nat, h: nat, unread: string)
    requires curr + h <= have <= |b|
    ensures b[curr..have][..h] + (b[curr + h..have] + unread) == b[curr..have] + unread
    ensures |b[curr..have][..h]| == h && (b[curr..have] + unread)[..have - curr] == b[curr..have]
  {
    assert b[curr..have] == b[curr..have][..h] + b[curr + h..have];
  }

  /** The leftover fills the buffer without a header section. */
  lemma {:induction false} LeftoverFull(s: string, t: Task)
    requires InLine(s, t) && t.phase.Ready? && t.have - t.curr == RECV_BUF_SIZE
    requires HeaderEnd(t.buf[t.curr..t.have]) == 0
    ensures IsRun(s, t, HeaderTooLong)
  {
    hide NextMessage, HasTerm, Before, AllSent, ServedArrived, Requests, EndOf, HeaderEnd, Window, Env.Valid;
    var leftover, rest := t.buf[t.curr..t.have], Rest(t);
    assert rest[..|leftover|] == leftover && rest[|leftover|..] == t.unread;
    HeaderInPrefix(rest, |leftover|);
    TooLongStays(rest, |leftover|);
    NothingMore(s, t.served, rest, t.unread);
  }

  /** The receive of a header section, stopped without one. */
  lemma {:induction false} HeaderStops(s: string, t: Task, x: Receiving, rest: string)
    requires |t.buf| == RECV_BUF_SIZE && x.n <= |t.buf| && rest == t.buf[..x.n] + t.unread && !HasTerm(t.buf[..x.n])
    requires Before(s, t.served, rest)
    ensures |t.unread| <= |s| && t.served <= Requests(s) && ServedArrived(s, t.served, t.unread)
    ensures x.n < RECV_BUF_SIZE ==> EndOf(Arrived(s, t.unread)) == Waiting
    ensures x.n == RECV_BUF_SIZE ==> t.served == Requests(s) && EndOf(s) == Refused
  {
    hide NextMessage, HasTerm, Before, ServedArrived, Requests, EndOf;
    assert rest[..x.n] == t.buf[..x.n];
    HeaderInPrefix(rest, x.n);
    if x.n == RECV_BUF_SIZE {
      TooLongStays(rest, x.n);
    }
    NothingMore(s, t.served, rest, t.unread);
  }

  /** What one event of a header receive does to the search. */
  lemma {:induction false} SearchGoesOn(x: Receiving, y: Receiving, end: Option<IoEnd>)
    requires x.events != [] && x.n < RECV_BUF_SIZE == |x.buf| && !HasTerm(x.buf[..x.n])
    requires (y, end) == ReadOne(x, RECV_BUF_SIZE, false, true)
    ensures x.n <= y.n <= RECV_BUF_SIZE == |y.buf| && y.buf[..y.n] + y.unread == x.buf[..x.n] + x.unread
    ensures end in {None, Some(Failed), Some(PeerClosed)} ==> !HasTerm(y.buf[..y.n])
    ensures end in {Some(Failed), Some(PeerClosed)} ==> y.n == x.n
    ensures end == Some(Terminated) ==>
      y.n > x.n == y.last && (HasTerm(y.buf[..y.n]) || (Spill(y.buf, y.last, y.n) && y.n < RECV_BUF_SIZE))
    ensures end == Some(Faulted) ==> y.n > x.n == y.last && !HasTerm(y.buf[..y.n]) && Overrun(y.buf, y.last, y.n)
    ensures end.None? || end.value in {Failed, PeerClosed, Terminated, Faulted}
  {
    hide HasTerm, EndTest, Overrun;
    ReadOneMoves(x, RECV_BUF_SIZE, false, true);
    if y.n > x.n {
      assert y.buf[..x.n] == x.buf[..x.n];
      IncrementalSearch(y.buf, x.n, y.n);
    } else {
      assert y.buf[..y.n] == x.buf[..x.n];
    }
  }

  lemma {:induction false} KeepHeader(s: string, t: Task)
    requires InLine(s, t) && t.phase.Header? && !t.Stuck()
    ensures InLine(s, Step(t))
  {
    hide NextMessage, HasTerm, Before, AllSent, ServedArrived, ResponseBytes, KeepAlive, MethodHasBody, ParseHead;
    hide Requests, EndOf, IsNext, CutOff, Window, MissingLength, BehindAll, ReadOne, Spill, Overrun;
    var n, rest := t.phase.n, Rest(t);
    var x0 := Receiving(t.buf, n, t.unread, t.readEvents, n);
    var (x, end) := ReadOne(x0, RECV_BUF_SIZE, false, true);
    SearchGoesOn(x0, x, end);
    var t' := WithIo(t, x);
    if !HasTerm(x.buf[..x.n]) {
      HeaderStops(s, t', x, rest);
    } else {
      var h := HeaderEnd(x.buf[..x.n]);
      assert rest[..x.n] == x.buf[..x.n];
      HeaderInPrefix(rest, x.n);
      CutAt(x.buf[..x.n], rest, h);
      assert x.buf[h..x.n] == x.buf[..x.n][h..] && x.buf[..x.n][..h] == x.buf[..h];
    }
  }

  // ---- a message --------------------------------------------------------------------------

  /** A header section decides the rest of its message. */
  lemma {:induction false} MessageOf(rest: string, hdr: string, after: string)
    requires IsHeader(rest, hdr) && rest == hdr + after
    ensures var r := ParseHead(hdr);
      && Typed(r.headers) && r.body == "" && (r.IsOk() && MethodHasBody(r.meth) ==> CONTENT_LENGTH in r.headers)
      && NextMessage(rest) == TakeBody(r, |hdr|, after)
  {
    hide TakeBody, ParseHead, MethodHasBody;
    TypedDispatch(hdr);
    assert rest[..|hdr|] == hdr && rest[|hdr|..] == after;
  }

  lemma {:induction false} BodyWhole(rest: string, hdr: string, req: Request, more: string)
    requires IsHeader(rest, hdr) && rest == hdr + (req.body + more) && ParseHead(hdr) == req.(body := "")
    requires Typed(req.headers)
    requires req.IsOk() && MethodHasBody(req.meth) ==> CONTENT_LENGTH in req.headers
    requires |req.body| == BodyLength(req)
    ensures IsNext(rest, hdr, req)
  {
    hide ParseHead, MethodHasBody, KeepAlive;
    MessageOf(rest, hdr, req.body + more);
    assert (req.body + more)[..|req.body|] == req.body;
    assert ParseHead(hdr).(body := req.body) == req;
  }

  lemma {:induction false} BodyLacking(rest: string, hdr: string, k: nat)
    requires IsHeader(rest, hdr) && |hdr| <= k <= |rest| && hdr == rest[..|hdr|]
    requires TypedHead(hdr) && k - |hdr| < BodyLength(ParseHead(hdr))
    ensures NextMessage(rest[..k]).Incomplete?
  {
    hide ParseHead, MethodHasBody, KeepAlive;
    WindowOfPrefix(rest, k);
    WindowIn(rest, k, |hdr|);
    assert rest[..k][..|hdr|] == hdr;
  }

  ghost predicate TypedHead(hdr: string) {
    var r := ParseHead(hdr);
    Typed(r.headers) && (r.IsOk() && MethodHasBody(r.meth) ==> CONTENT_LENGTH in r.headers)
  }

  lemma {:induction false} WindowIn(s: string, k: nat, h: nat)
    requires h <= k <= |s| && HeaderEnd(Window(s)) == h
    ensures HeaderEnd(Window(s[..k])) == h
  {
    assert Window(s[..k]) == Window(s)[..|Window(s[..k])|];
    HeaderEndOfPrefix(Window(s), |Window(s[..k])|);
  }

  lemma {:induction false} KeepHeaded(s: string, t: Task)
    requires InLine(s, t) && t.phase.Headed? && !t.Stuck()
    ensures InLine(s, Step(t))
  {
    hide NextMessage, HasTerm, Before, AllSent, ResponseBytes, KeepAlive, MethodHasBody, ParseHead, IsHeader;
    hide IsRun, MissingLength, HeaderEnd, TakeBody;
    var hdr, rest := t.phase.hdr, Rest(t);
    TypedDispatch(hdr);
    var r := ParseHead(hdr);
    if r.IsOk() && MethodHasBody(r.meth) {
      KeepLeftover(s, t, hdr, r);
    } else {
      assert rest == hdr + (r.body + (t.buf[t.curr..t.have] + t.unread));
      BodyWhole(rest, hdr, r, t.buf[t.curr..t.have] + t.unread);
    }
  }

  /** The leftover share of the body is taken off the buffer, which then is empty or has what follows. */
  lemma {:induction false} KeepLeftover(s: string, t: Task, hdr: string, r: Request)
    requires InLine(s, t) && t.phase == Headed(hdr)
    requires r == ParseHead(hdr) && r.IsOk() && MethodHasBody(r.meth) && r.body == ""
    requires Typed(r.headers) && CONTENT_LENGTH in r.headers
    ensures InLine(s, TakeLeftover(t, hdr, r))
  {
    hide NextMessage, HasTerm, Before, AllSent, ResponseBytes, KeepAlive, MethodHasBody, ParseHead, IsHeader;
    hide IsRun, MissingLength, HeaderEnd, TakeBody;
    var rest, leftover := Rest(t), t.buf[t.curr..t.have];
    var got := Min(t.have - t.curr, r.headers[CONTENT_LENGTH].n);
    var req := r.(body := t.buf[t.curr..t.curr + got]);
    LeftoverSplits(t.buf, t.curr, t.have, got, t.unread);
    var more := t.buf[t.curr + got..t.have] + t.unread;
    assert rest == hdr + (req.body + more);
    assert t.buf[0..0] == "" == t.buf[..0];
    if got == r.headers[CONTENT_LENGTH].n {
      BodyWhole(rest, hdr, req, more);
    }
  }

  lemma {:induction false} LeftoverSplits(b: string, curr: nat, have: nat, got: nat, unread: string)
    requires curr + got <= have <= |b|
    ensures b[curr..have] + unread == b[curr..curr + got] + (b[curr + got..have] + unread)
    ensures curr + got == have ==> b[curr + got..have] == ""
  {
  }

  /** What one event of a body receive does. */
  lemma {:induction false} BlockGoesOn(x: Receiving, to: nat, y: Receiving, end: Option<IoEnd>)
    requires x.events != [] && x.n < to <= |x.buf| && (y, end) == ReadOne(x, to, true, false)
    ensures x.n <= y.n <= to && |y.buf| == |x.buf| && y.buf[..y.n] + y.unread == x.buf[..x.n] + x.unread
    ensures end in {Some(Failed), Some(PeerClosed)} ==> y.n == x.n
    ensures end != Some(Full) && end != Some(Blocked) && end != Some(Faulted) && end != Some(Terminated)
  {
    hide EndTest;
    ReadOneMoves(x, to, true, false);
  }

  lemma {:induction false} BlockSplits(buf: string, n: nat, unread: string, hdr: string, body: string)
    requires n <= |buf|
    ensures hdr + (body + (buf[..n] + unread)) == hdr + ((body + buf[..n]) + ("" + unread))
    ensures var rest := hdr + (body + (buf[..n] + unread));
      rest[..|hdr|] == hdr && |rest| == |hdr| + |body| + n + |unread|
  {
    assert "" + unread == unread;
    assert (body + buf[..n]) + unread == body + (buf[..n] + unread);
  }

  lemma {:induction false} KeepBody(s: string, t: Task)
    requires InLine(s, t) && t.phase.Body? && !t.Stuck()
    ensures InLine(s, Step(t))
  {
    hide NextMessage, HasTerm, Before, AllSent, ResponseBytes, KeepAlive, MethodHasBody, ParseHead, IsHeader;
    hide MissingLength, HeaderEnd, TakeBody, ReadOne, Requests, EndOf, ServedArrived, StoppedInHeader, Spill, Overrun;
    hide IsNext, CutOff, BehindAll;
    var hdr, req, n, rest := t.phase.hdr, t.phase.req, t.phase.n, Rest(t);
    var x0 := Receiving(t.buf, n, t.unread, t.readEvents, n);
    var size := BlockSize(req);
    var (x, end) := ReadOne(x0, size, true, false);
    BlockGoesOn(x0, size, x, end);
    BlockSplits(x.buf, x.n, x.unread, hdr, req.body);
    assert rest == hdr + (req.body + (x.buf[..x.n] + x.unread));
    if x.n == size {
      var req' := req.(body := req.body + x.buf[..size]);
      assert x.buf[0..0] == x.buf[..0] == "";
      if |req'.body| == req.headers[CONTENT_LENGTH].n {
        BodyWhole(rest, hdr, req', "" + x.unread);
      }
    } else {
      TypedDispatch(hdr);
      HeaderOf(rest, hdr);
      BodyLacking(rest, hdr, |rest| - |x.unread|);
      NothingMore(s, t.served, rest, x.unread);
    }
  }

  lemma {:induction false} HeaderOf(rest: string, hdr: string)
    requires IsHeader(rest, hdr)
    ensures 0 < |hdr| <= |rest|
  {
  }

  lemma {:induction false} KeepRequested(s: string, t: Task)
    requires InLine(s, t) && t.phase.Requested? && !t.Stuck()
    ensures InLine(s, Step(t))
  {
    hide NextMessage, Before, ResponseBytes, KeepAlive, IsNext, IsRun, IsHeader, HasTerm, MethodHasBody, ParseHead;
    var req := t.phase.req;
    NonEmptyResponse(req, t.env, |t.served|);
    assert (t.served + [req])[..|t.served|] == t.served;
    assert ResponseBytes(req, t.env, |t.served|)[..0] == "";
  }

  /** A response that has gone out whole. */
  lemma {:induction false} Answered(s: string, done: seq<Request>, env: Env, rest: string, hdr: string, req: Request,
                                    wire: string, after: string)
    requires env.Valid() && AllTyped(done) && Before(s, done, rest) && IsNext(rest, hdr, req)
    requires rest == hdr + (req.body + after)
    requires wire == Concat(Replies(done, env)) + ResponseBytes(req, env, |done|)
    ensures AllTyped(done + [req]) && AllSent(done + [req], env, wire) && done + [req] <= Requests(s)
    ensures KeepAlive(req) ==> Before(s, done + [req], after)
    ensures !KeepAlive(req) ==> Requests(s) == done + [req] && EndOf(s) == Finished && BehindAll(s) == after
  {
    hide NextMessage, ResponseBytes, KeepAlive;
    assert rest[|hdr| + |req.body|..] == after;
    var c := s[..|s| - |rest|];
    Deliver(NEXT, s, c, done, rest);
    RepliesSnoc(done, req, env);
    ConcatSnoc(Replies(done, env), ResponseBytes(req, env, |done|));
    if KeepAlive(req) {
      Advance(NEXT, s, c, done, rest);
      assert c + rest[..|hdr| + |req.body|] == s[..|s| - |after|];
    }
  }

  /** A response that has not. */
  lemma {:induction false} NotAnswered(s: string, done: seq<Request>, env: Env, rest: string, hdr: string, req: Request,
                                       wire: string, k: nat)
    requires env.Valid() && AllTyped(done) && Before(s, done, rest) && IsNext(rest, hdr, req)
    requires k < |ResponseBytes(req, env, |done|)|
    requires wire == Concat(Replies(done, env)) + ResponseBytes(req, env, |done|)[..k]
    ensures AllTyped(done + [req]) && CutOff(done + [req], env, wire) && done + [req] <= Requests(s)
  {
    hide NextMessage, ResponseBytes, KeepAlive;
    Deliver(NEXT, s, s[..|s| - |rest|], done, rest);
    RepliesSnoc(done, req, env);
    ConcatSnoc(Replies(done, env), ResponseBytes(req, env, |done|));
    assert (done + [req])[..|done|] == done;
  }

  lemma {:induction false} SliceOfSlice(b: string, pos: nat, size: nat, from: nat, to: nat)
    requires pos + size <= |b| && from <= to <= size
    ensures b[pos..pos + size][from..to] == b[pos + from..pos + to]
    ensures b[..pos + from] + b[pos + from..pos + to] == b[..pos + to]
  {
    var window := b[pos..pos + size];
    forall i | 0 <= i < to - from ensures window[from..to][i] == b[pos + from..pos + to][i] {
      assert window[from + i] == b[pos + (from + i)];
    }
  }

  /** A packet that goes on. */
  lemma {:induction false} KeepPartial(s: string, t: Task, t': Task, count: nat)
    requires InLine(s, t) && t.phase.Sending? && t.phase.count <= count < PacketSize(t.phase.msg, t.phase.pos)
    requires var p := t.phase;
      t' == t.(wire := t.wire + p.msg[p.pos + p.count..p.pos + count], writeEvents := t'.writeEvents,
               phase := p.(count := count))
    ensures InLine(s, t')
  {
    hide NextMessage, Before, ResponseBytes, KeepAlive, IsNext, Requests, EndOf, AllSent, Replies, Concat, Env.Valid;
    var p, done := t.phase, t.served[..|t.served| - 1];
    assert p.msg[..p.pos + p.count] + p.msg[p.pos + p.count..p.pos + count] == p.msg[..p.pos + count];
    Appended(Concat(Replies(done, t.env)), p.msg[..p.pos + p.count], p.msg[p.pos + p.count..p.pos + count]);
  }

  lemma {:induction false} KeepSending(s: string, t: Task)
    requires InLine(s, t) && t.phase.Sending? && !t.Stuck()
    ensures InLine(s, Step(t))
  {
    hide NextMessage, Before, ResponseBytes, KeepAlive, IsNext, WriteOne, Requests, EndOf, AllSent, CutOff, BehindAll;
    hide Replies, Concat, HasTerm, IsHeader, MethodHasBody, ParseHead, StoppedInHeader, IsRun, PacketEnds, Env.Valid;
    hide Step;
    var Sending(hdr, req, msg, pos, count) := t.phase;
    var packet := msg[pos..pos + PacketSize(msg, pos)];
    var x0 := Transmitting(count, t.wire, t.writeEvents);
    PacketStep(t, hdr, req, msg, pos, x0);
    WriteOneSends(packet, x0, true);
    var (x, end) := WriteOne(packet, x0, true);
    SliceOfSlice(msg, pos, |packet|, count, x.count);
    if x.count == |packet| || end.Some? {
      SentWire(s, t, x.count, x.wire);
      KeepPacket(s, WithWire(t, x), hdr, req, msg, pos, x.count, if end.Some? then end.value else Full);
    } else {
      KeepPartial(s, t, Step(t), x.count);
    }
  }

  lemma {:induction false} SentWire(s: string, t: Task, count: nat, wire: string)
    requires InLine(s, t) && t.phase.Sending? && t.phase.count <= count <= PacketSize(t.phase.msg, t.phase.pos)
    requires var p := t.phase; wire == t.wire + p.msg[p.pos + p.count..p.pos + count]
    ensures var p, done := t.phase, t.served[..|t.served| - 1];
      t.env.Valid() && AllTyped(done) && wire == Concat(Replies(done, t.env)) + p.msg[..p.pos + count]
  {
    hide NextMessage, Before, ResponseBytes, KeepAlive, IsNext, Requests, EndOf, AllSent, Replies, Concat, Env.Valid;
    var p, done := t.phase, t.served[..|t.served| - 1];
    assert done + [t.served[|t.served| - 1]] == t.served;
    assert p.msg[..p.pos + p.count] + p.msg[p.pos + p.count..p.pos + count] == p.msg[..p.pos + count];
    Appended(Concat(Replies(done, t.env)), p.msg[..p.pos + p.count], p.msg[p.pos + p.count..p.pos + count]);
  }

  /** A packet that has gone out, whole or not. */
  lemma {:induction false} KeepPacket(s: string, t: Task, hdr: string, req: Request, msg: string, pos: nat, count: nat,
                                      end: IoEnd)
    requires pos < |msg| && count <= PacketSize(msg, pos) && (count == PacketSize(msg, pos) ==> !end.Failed?)
    requires |t.buf| == RECV_BUF_SIZE && t.curr <= t.have <= RECV_BUF_SIZE && t.env.Valid() && AllTyped(t.served)
    requires t.served != [] && req == t.served[|t.served| - 1] && |t.unread| <= |s|
    requires var done := t.served[..|t.served| - 1]; var rest := hdr + (req.body + (t.buf[t.curr..t.have] + t.unread));
      && Before(s, done, rest) && IsNext(rest, hdr, req) && msg == ResponseBytes(req, t.env, |done|)
      && t.wire == Concat(Replies(done, t.env)) + msg[..pos + count]
    ensures InLine(s, PacketEnds(t, hdr, req, msg, pos, count, end))
  {
    hide NextMessage, Before, ResponseBytes, KeepAlive, IsNext, Requests, EndOf, AllSent, CutOff, BehindAll;
    hide Replies, Concat, HasTerm, IsHeader, MethodHasBody, ParseHead, ServedArrived, Spill, Overrun;
    var done := t.served[..|t.served| - 1];
    assert done + [req] == t.served;
    var after := t.buf[t.curr..t.have] + t.unread;
    var rest := hdr + (req.body + after);
    if pos + count == |msg| {
      assert msg[..pos + count] == msg;
      Answered(s, done, t.env, rest, hdr, req, t.wire, after);
    } else {
      NotAnswered(s, done, t.env, rest, hdr, req, t.wire, pos + count);
    }
  }

  lemma {:induction false} KeepReplied(s: string, t: Task)
    requires InLine(s, t) && t.phase.Replied?
    ensures InLine(s, Step(t))
  {
    hide NextMessage, Before, KeepAlive, AllSent, Requests, EndOf, BehindAll, ServedArrived, StoppedInHeader, CutOff;
    hide Spill, Overrun, Env.Valid;
  }

  lemma {:induction false} Appended(a: string, b: string, c: string)
    ensures (a + b) + c == a + (b + c)
  {
  }

  /** Every step keeps the handler in line with the reference definition of its stream. */
  lemma {:induction false} StepKeeps(s: string, t: Task)
    requires InLine(s, t)
    ensures InLine(s, Step(t))
  {
    hide InLine, Task.Sane;
    if !t.Stuck() {
      match t.phase
      case Ready => KeepReady(s, t);
      case Header(_, _) => KeepHeader(s, t);
      case Headed(_) => KeepHeaded(s, t);
      case Body(_, _, _) => KeepBody(s, t);
      case Requested(_, _) => KeepRequested(s, t);
      case Sending(_, _, _, _, _) => KeepSending(s, t);
      case Replied(_) => KeepReplied(s, t);
    }
  }

  lemma {:induction false} StepsKeep(s: string, t: Task, k: nat)
    requires InLine(s, t)
    ensures InLine(s, Steps(t, k))
  {
    hide InLine, Step;
    if k > 0 {
      StepsKeep(s, t, k - 1);
      StepKeeps(s, Steps(t, k - 1));
    }
  }

  /** Whatever an interleaving has let the coroutine do. */
  lemma {:induction false} ReachesKeeps(s: string, t: Task, t': Task)
    requires InLine(s, t) && Reaches(t, t')
    ensures InLine(s, t')
  {
    hide InLine, Step;
    var k: nat :| Steps(t, k) == t';
    StepsKeep(s, t, k);
  }

  // ---- starting ---------------------------------------------------------------------------

  /** A coroutine on a context handed out for a new socket: memory and leftover are whatever the last
      connection on it left behind. */
  function NewTask(buf: string, have: nat, curr: nat, stream: string, readEvents: seq<ReadEvent>,
                   writeEvents: seq<WriteEvent>, env: Env): Task
  {
    Task(buf, have, curr, stream, readEvents, "", writeEvents, [], env, Ready)
  }

  ghost predicate Startable(t: Task) {
    t.Sane() && t.phase.Ready? && t.served == [] && t.wire == ""
  }

  /** The stream a coroutine starts on: the leftover on its context, then what its peer sends. */
  ghost function StreamOf(t: Task): string
    requires t.Sane()
  {
    t.buf[t.curr..t.have] + t.unread
  }

  lemma {:induction false} StartsInLine(t: Task)
    requires Startable(t)
    ensures InLine(StreamOf(t), t)
  {
    hide NextMessage;
    NextIsLawful();
    var s := StreamOf(t);
    assert s[..0] == "";
  }

  /** Framing safety: whatever was delivered at any point of any run on any schedule is a prefix of the
      requests of the stream, and the wire is a prefix of their responses. */
  lemma {:induction false} ServedIsPrefix(s: string, t: Task)
    requires InLine(s, t)
    ensures AllTyped(t.served) && t.env.Valid() && t.served <= Requests(s)
    ensures t.wire <= Concat(Replies(t.served, t.env))
  {
    hide NextMessage, ResponseBytes, KeepAlive, IsNext, Requests, EndOf, HasTerm, IsHeader, MethodHasBody, ParseHead;
    hide Replies, Concat, Before, ServedArrived, BehindAll, Spill, Overrun;
    match t.phase
    case Stopped(_) =>
    case Replied(req) =>
      if KeepAlive(req) {
        BeforeIsPrefix(s, t.served, Rest(t));
      }
    case Sending(hdr, req, msg, pos, count) =>
      var done := t.served[..|t.served| - 1];
      assert done + [req] == t.served;
      NotAnswered(s, done, t.env, Rest(t), hdr, req, t.wire, pos + count);
    case _ => BeforeIsPrefix(s, t.served, Rest(t));
  }

  lemma {:induction false} BeforeIsPrefix(s: string, vs: seq<Request>, rest: string)
    requires Before(s, vs, rest)
    ensures vs <= Requests(s)
  {
    hide NextMessage;
    var c := s[..|s| - |rest|];
    assert s[|c|..] == rest;
    AfterConsumed(NEXT, c, vs, s);
  }
}
