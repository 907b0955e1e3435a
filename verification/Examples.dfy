/** Runs on which the code does not do what it means. */
module Examples {
  import opened Bytes
  import opened Lines
  import opened Terminator
  import opened SocketIo
  import opened Message
  import opened Transcript
  import opened Stream
  import opened Response
  import opened RoundTrip
  import opened Handler
  import opened HandlerRuns
  import opened Progress
  import opened RunTheorems
  import opened Loops
  import opened Connection

  // ---- a small request --------------------------------------------------------------------

  /** A request of a method that is not supported: it is answered with 405, and ends the connection. */
  function Refusable(c: char): string { [c] + " \r\n\r\n" }

  function Refused(c: char): Request { Request(Base, [c], "", "", map[], "", MethodNotAllowed) }

  lemma {:induction false} RefusableIsRefused(c: char, more: string)
    requires c == 'Q' || c == 'R'
    ensures var s := Refusable(c) + more;
      && NEXT(s) == Msg(Refused(c), 6, false)
      && Requests(s) == [Refused(c)] && EndOf(s) == Finished && BehindAll(s) == more
  {
    hide KeepAlive, MethodHasBody;
    var s := Refusable(c);
    assert CrlfAt(s, 2) && CrlfAt(s, 4) && !CrlfAt(s, 0) && !CrlfAt(s, 1);
    HeaderEndIs(s, 2);
    assert Window(s) == s && s[..6] == s && s[6..][..0] == "";
    FindCharIs(s, ' ', 1);
    assert MethodToken(s) == [c] && [c] !in METHODS;
    RefusedCloses(c);
    assert NextMessage(s) == Msg(Refused(c), 6, false);
    assert (s + more)[..6] == s && (s + more)[6..] == more;
    Decided(s + more, 6);
  }

  lemma {:induction false} RefusedCloses(c: char)
    ensures Typed(Refused(c).headers) && !KeepAlive(Refused(c))
  {
  }

  // ---- a spilled window -------------------------------------------------------------------

  /** Receiving a chunk of a header section. */
  lemma {:induction false} ReceiveChunk(t: Task, start: nat, n: nat, chunk: string, more: string)
    requires t.Sane() && t.phase == Header(start, n) && t.readEvents != []
    requires t.unread == chunk + more && chunk != "" && n + |chunk| <= RECV_BUF_SIZE
    requires var e := t.readEvents[0];
      e.Data? && !e.late && (if more == "" then e.count >= |chunk| else e.count == |chunk|)
    ensures var b, k := Overlay(t.buf, n, chunk), n + |chunk|;
      var x := Receiving(b, k, more, t.readEvents[1..], n);
      var u := t.(buf := b, unread := more, readEvents := t.readEvents[1..]);
      Step(t) == match EndTest(b, n, k)
                 case Same => HeaderEnds(u, start, x, Terminated)
                 case Faults => u.(phase := Stopped(Crashed(n, k)))
                 case Differs =>
                   if k == RECV_BUF_SIZE then HeaderEnds(u, start, x, Full) else u.(phase := Header(start, k))
  {
    hide EndTest, HeaderEnd, Overlay, Env.Valid, Step;
    HeaderStep(t, start, Receiving(t.buf, n, t.unread, t.readEvents, n));
    assert t.unread[..|chunk|] == chunk && t.unread[|chunk|..] == more;
  }

  lemma {:induction false} FirstStep(t: Task)
    requires Startable(t) && t.have == t.curr
    ensures Step(t) == t.(phase := Header(0, 0)) && Step(t).Sane() && |t.buf| == RECV_BUF_SIZE
  {
  }

  lemma {:induction false} FiveBytes(b: string)
    requires |b| > 5 && b[..5] == "Q \r\n\r" && b[5] == '\n'
    ensures !HasTerm(b[..4]) && !HasTerm(b[..5]) && EndTest(b, 0, 4) == Differs && EndTest(b, 4, 5) == Same
    ensures HeaderEnd(b[..5]) == 0
  {
    TermOfPrefix(b, 4);
    TermOfPrefix(b, 5);
    TermOfPrefix(b, 0);
    assert b[0] == b[..5][0] && b[1] == b[..5][1] && b[2] == b[..5][2] && b[3] == b[..5][3] && b[4] == b[..5][4];
    assert !CrlfAt(b, 0) && !CrlfAt(b, 1);
    IncrementalSearch(b, 0, 4);
    assert TermAt(b, 2);
    IncrementalSearch(b, 4, 5);
  }

  lemma {:induction false} FourArrive(t: Task)
    requires t.Sane() && t.phase == Header(0, 0) && t.unread == Refusable('Q') && t.buf[5] == '\n'
    requires t.readEvents != [] && t.readEvents[0] == Data(4, false)
    ensures Step(t) == t.(buf := Overlay(t.buf, 0, "Q \r\n"), unread := "\r\n", readEvents := t.readEvents[1..],
                          phase := Header(0, 4))
  {
    hide EndTest, HeaderEnd, Step, Env.Valid, Overlay, HasTerm, HeaderEnds;
    FirstFive(t.buf);
    var b1 := Overlay(t.buf, 0, "Q \r\n");
    FiveBytes(Overlay(b1, 4, "\r"));
    SameTest(b1, Overlay(b1, 4, "\r"));
    ReceiveChunk(t, 0, 0, "Q \r\n", "\r\n");
  }

  lemma {:induction false} FifthSpills(t: Task)
    requires t.Sane() && t.phase == Header(0, 4) && t.unread == "\r\n"
    requires var b := Overlay(t.buf, 4, "\r"); b[..5] == "Q \r\n\r" && b[5] == '\n'
    requires t.readEvents != [] && t.readEvents[0] == Data(1, false)
    ensures var u := Step(t);
      u.phase == Stopped(SpuriousEnd(4, 5)) && u.unread == "\n" && u.served == t.served
  {
    hide EndTest, HeaderEnd, Step, Env.Valid, Overlay, HasTerm;
    FiveBytes(Overlay(t.buf, 4, "\r"));
    ReceiveChunk(t, 0, 4, "\r", "\n");
  }

  /** A stale line feed in the buffer, and a request cut behind its fifth byte: the connection is
      closed, although the rest of the request is there to be read. */
  lemma {:induction false} SpuriousRun(buf: string, writeEvents: seq<WriteEvent>, more: seq<ReadEvent>, env: Env)
    requires |buf| == RECV_BUF_SIZE && buf[5] == '\n' && env.Valid()
    ensures var t := NewTask(buf, 0, 0, Refusable('Q'), [Data(4, false), Data(1, false)] + more, writeEvents, env);
      && Startable(t) && StreamOf(t) == Refusable('Q')
      && Finish(t).phase == Stopped(SpuriousEnd(4, 5)) && Finish(t).served == [] && Finish(t).unread == "\n"
  {
    hide Step, Task.Stuck, Env.Valid, Overlay, Finish;
    var script := [Data(4, false), Data(1, false)] + more;
    var t := NewTask(buf, 0, 0, Refusable('Q'), script, writeEvents, env);
    FirstStep(t);
    FourArrive(Step(t));
    FirstFive(buf);
    assert script[1..][0] == Data(1, false);
    FifthSpills(Step(Step(t)));
    ThreeStepsToStop(t);
    assert buf[0..0] + Refusable('Q') == Refusable('Q');
  }

  lemma {:induction false} FirstFive(buf: string)
    requires |buf| > 5
    ensures var b1 := Overlay(buf, 0, "Q \r\n");
      var b2 := Overlay(b1, 4, "\r");
      b2[..5] == "Q \r\n\r" && b2[5] == buf[5] && b1[..4] == b2[..4]
  {
  }

  lemma {:induction false} ThreeStepsToStop(t: Task)
    requires Step(Step(Step(t))).phase.Stopped?
    ensures Finish(t) == Step(Step(Step(t)))
  {
    hide Step, Task.Stuck;
    ReachesItself(t);
    ReachesNext(t, t);
    ReachesNext(t, Step(t));
    ReachesNext(t, Step(Step(t)));
    StoppedIsStuck(Step(Step(Step(t))));
    StuckIsFinish(t, Step(Step(Step(t))));
  }

  /** In chunks of three bytes the same request is answered, on the same memory. */
  lemma {:induction false} PromptRun(t: Task)
    requires CalmRun(t) && WideReads(t.readEvents) && StreamOf(t) == Refusable('Q')
    ensures Finish(t).phase == Stopped(AskedToClose) && Finish(t).served == [Refused('Q')]
  {
    hide Step, KeepAlive, Task.Stuck, CalmRun, WideReads, EndTest;
    assert Refusable('Q') + "" == Refusable('Q');
    RefusableIsRefused('Q', "");
    WideRunCompletes(t);
  }

  lemma {:induction false} SameTest(b1: string, b2: string)
    requires |b1| == |b2| > 5 && b1[..4] == b2[..4] && !HasTerm(b2[..4])
    ensures EndTest(b1, 0, 4) == Differs
  {
    assert b1[..0] == "";
    TermOfPrefix(b1, 0);
    IncrementalSearch(b1, 0, 4);
  }

  // ---- a window spilled by the connection's own bytes -----------------------------------------

  /** A request that keeps the connection alive. */
  function PlainGet(): string { "GET / HTTP/1.1\r\n\r\n" }

  function GetRequest(): Request { Request(Get, "GET", "/", "HTTP/1.1", map[], "", StatusNone) }

  lemma {:induction false} GetIsReceived()
    ensures ParseHead(PlainGet()) == GetRequest() && Typed(GetRequest().headers) && KeepAlive(GetRequest())
    ensures GetRequest().IsOk() && !MethodHasBody("GET") && |PlainGet()| == 18
  {
    hide ParseHead;
    assert SerializeHead(GetRequest(), []) == PlainGet() by {
      NoLines();
      SectionCons("GET / HTTP/1.1", []);
      assert "GET" + " " + "/" + " " + "HTTP/1.1" == "GET / HTTP/1.1";
      assert FirstRequestLine(GetRequest()) == "GET / HTTP/1.1" && FieldLines(map[], []) == [];
      assert ["GET / HTTP/1.1"] + [] == ["GET / HTTP/1.1"];
      assert "GET / HTTP/1.1" + CRLF + CRLF == PlainGet();
    }
    assert CrlfFree("/") && CrlfFree("HTTP/1.1");
    var lines := HeaderRoundTrip(GetRequest(), []);
  }

  /** A buffer that begins with that request, searched for its end chunk by chunk. */
  lemma {:induction false} GetInBuffer(b: string)
    requires |b| == RECV_BUF_SIZE && b[..18] == PlainGet()
    ensures EndTest(b, 0, 18) == Same && HeaderEnd(b[..18]) == 18
    ensures EndTest(b, 0, 16) == Differs && EndTest(b, 16, 17) == Same && HeaderEnd(b[..17]) == 0
  {
    assert forall i :: 0 <= i < 18 ==> b[i] == PlainGet()[i];
    assert forall i :: 0 <= i < 14 ==> b[i] != '\r';
    assert CrlfAt(b, 14) && CrlfAt(b, 16) && TermAt(b, 14) && b[..0] == "";
    hide HasTerm, HeaderEnd;
    TermOfPrefix(b, 0);
    TermOfPrefix(b, 16);
    TermOfPrefix(b, 17);
    TermOfPrefix(b, 18);
    IncrementalSearch(b, 0, 18);
    IncrementalSearch(b, 0, 16);
    IncrementalSearch(b, 16, 17);
    EndOfGet(b);
  }

  lemma {:induction false} EndOfGet(b: string)
    requires |b| >= 18 && TermAt(b, 14) && forall i :: 0 <= i < 14 ==> b[i] != '\r'
    ensures HeaderEnd(b[..18]) == 18 && HeaderEnd(b[..17]) == 0
  {
    var s := b[..18];
    assert TermAt(s, 14) && forall k :: 0 <= k < 14 ==> !TermAt(s, k);
    HeaderEndIs(s, 14);
    HeaderEndOfPrefix(s, 17);
    assert s[..17] == b[..17];
  }

  /** A response goes out when there are enough writes for it. */
  lemma {:induction false} ResponseGoesOut(t: Task) returns (u: Task)
    requires t.Sane() && t.phase.Sending? && CalmWrites(t.writeEvents)
    requires LiveWrites(t.writeEvents) >= |t.phase.msg| - t.phase.pos - t.phase.count
    ensures Reaches(t, u)
    ensures u == t.(wire := u.wire, writeEvents := u.writeEvents, phase := Replied(t.phase.req))
    decreases |t.writeEvents|
  {
    hide Step, WriteOne, CalmWrites, Env.Valid, Reaches;
    var Sending(hdr, req, msg, pos, count) := t.phase;
    var packet, x := msg[pos..pos + PacketSize(msg, pos)], Transmitting(count, t.wire, t.writeEvents);
    assert LiveWrites([]) == 0;
    PacketStep(t, hdr, req, msg, pos, x);
    WriteAdvances(packet, x);
    WriteOneSends(packet, x, true);
    ReachesItself(t);
    ReachesNext(t, t);
    if Step(t).phase.Sending? {
      u := ResponseGoesOut(Step(t));
      ReachesFurther(t, Step(t), u);
    } else {
      u := Step(t);
    }
  }

  lemma {:induction false} GetLength()
    ensures |PlainGet()| == 18
  {
  }

  lemma {:induction false} HeaderFound(t: Task, x: Receiving, hdr: string)
    requires hdr != "" && x.n == |hdr| <= |t.buf| && t.buf[..x.n] == hdr && HeaderEnd(hdr) == |hdr|
    ensures HeaderEnds(t, 0, x, Terminated) == t.(have := |hdr|, curr := |hdr|, phase := Headed(hdr))
  {
    hide HeaderEnd;
    assert hdr[..|hdr|] == hdr;
  }

  /** A header section received in one chunk. */
  lemma {:induction false} HeaderArrives(t: Task, hdr: string, more: string)
    requires Startable(t) && t.have == t.curr && t.unread == hdr + more && more != "" && 0 < |hdr| <= RECV_BUF_SIZE
    requires t.readEvents != [] && t.readEvents[0] == Data(|hdr|, false)
    requires EndTest(Overlay(t.buf, 0, hdr), 0, |hdr|) == Same && HeaderEnd(hdr) == |hdr|
    ensures Step(Step(t)) == t.(buf := Overlay(t.buf, 0, hdr), have := |hdr|, curr := |hdr|, unread := more,
                                readEvents := t.readEvents[1..], phase := Headed(hdr))
  {
    hide EndTest, HeaderEnd, Step, Env.Valid, Overlay, HeaderEnds, Startable, Task.Sane;
    FirstStep(t);
    var t1, b, script := Step(t), Overlay(t.buf, 0, hdr), t.readEvents[1..];
    ReceiveChunk(t1, 0, 0, hdr, more);
    WholeBuffer(t.buf, hdr);
    HeaderFound(t1.(buf := b, unread := more, readEvents := script), Receiving(b, |hdr|, more, script, 0), hdr);
  }

  lemma {:induction false} GetArrives(t: Task, script: seq<ReadEvent>) returns (u: Task)
    requires Startable(t) && t.have == t.curr && t.unread == PlainGet() + PlainGet()
    requires t.readEvents == [Data(18, false)] + script
    ensures Reaches(t, u) && u.Sane() && u.phase == Headed(PlainGet())
    ensures u == t.(buf := u.buf, have := 18, curr := 18, unread := PlainGet(), readEvents := script, phase := u.phase)
    ensures u.buf[..18] == PlainGet()
  {
    hide EndTest, HeaderEnd, Step, Reaches, Env.Valid, Overlay, PlainGet;
    GetLength();
    WholeBuffer(t.buf, PlainGet());
    GetInBuffer(Overlay(t.buf, 0, PlainGet()));
    HeaderArrives(t, PlainGet(), PlainGet());
    u := Step(Step(t));
    ReachesItself(t);
    ReachesNext(t, t);
    ReachesNext(t, Step(t));
  }

  /** It is answered, and the next one is waited for. */
  lemma {:induction false} GetIsServed(t: Task) returns (u: Task)
    requires t.Sane() && t.phase == Headed(PlainGet()) && t.have == t.curr && CalmWrites(t.writeEvents)
    requires Typed(GetRequest().headers)
    requires LiveWrites(t.writeEvents) >= |ResponseBytes(GetRequest(), t.env, |t.served|)|
    ensures Reaches(t, u) && u.Sane()
    ensures u == t.(served := t.served + [GetRequest()], wire := u.wire, writeEvents := u.writeEvents,
                    phase := Header(0, 0))
  {
    hide HeaderEnd, Step, Reaches, KeepAlive, Env.Valid, ParseHead, MethodHasBody, ResponseBytes, CalmWrites;
    hide LiveWrites, PlainGet;
    GetIsReceived();
    HeadedStep(t, PlainGet());
    var t1 := Step(t);
    RequestedStep(t1, PlainGet(), GetRequest());
    NonEmptyResponse(GetRequest(), t.env, |t.served|);
    var t2 := ResponseGoesOut(Step(t1));
    RepliedStep(t2, GetRequest());
    var t3 := Step(t2);
    ReadyStep(t3);
    u := Step(t3);
    ReachesItself(t);
    ReachesNext(t, t);
    ReachesNext(t, t1);
    ReachesFurther(t, Step(t1), t2);
    ReachesNext(t, t2);
    ReachesNext(t, t3);
  }

  /** The receive of the second request: its first 16 bytes, then one more. */
  lemma {:induction false} SecondGoesOn(t: Task)
    requires t.Sane() && t.phase == Header(0, 0) && t.unread == PlainGet() && t.buf[..18] == PlainGet()
    requires t.readEvents != [] && t.readEvents[0] == Data(16, false)
    ensures Step(t) == t.(unread := "\r\n", readEvents := t.readEvents[1..], phase := Header(0, 16))
  {
    hide EndTest, HeaderEnd, Step, Env.Valid, Overlay, HeaderEnds;
    GetInBuffer(t.buf);
    var first := PlainGet()[..16];
    assert PlainGet() == first + "\r\n";
    SameBytes(t.buf, 0, first);
    ReceiveChunk(t, 0, 0, first, "\r\n");
  }

  lemma {:induction false} SecondSpills(t: Task)
    requires t.Sane() && t.phase == Header(0, 16) && t.unread == "\r\n" && t.buf[..18] == PlainGet()
    requires t.readEvents != [] && t.readEvents[0] == Data(1, false)
    ensures var u := Step(t);
      u.phase == Stopped(SpuriousEnd(16, 17)) && u.unread == "\n" && u.served == t.served
  {
    hide EndTest, HeaderEnd, Step, Env.Valid, Overlay;
    GetInBuffer(t.buf);
    assert t.buf[16..17] == PlainGet()[16..17] == "\r" by {
      assert t.buf[16] == PlainGet()[16];
    }
    SameBytes(t.buf, 16, "\r");
    ReceiveChunk(t, 0, 16, "\r", "\n");
  }

  /** Two requests on one connection, on any memory: the bytes that the first one has left in the buffer
      complete a window of the second one, which is cut behind its 16th and 17th byte.  It is dropped,
      although its last byte is there to be read. */
  lemma {:induction false} OwnBytesSpill(t: Task, more: seq<ReadEvent>)
    requires Startable(t) && t.have == t.curr && t.unread == PlainGet() + PlainGet()
    requires t.readEvents == [Data(18, false), Data(16, false), Data(1, false)] + more && CalmWrites(t.writeEvents)
    requires Typed(GetRequest().headers) && LiveWrites(t.writeEvents) >= |ResponseBytes(GetRequest(), t.env, 0)|
    ensures Finish(t).phase == Stopped(SpuriousEnd(16, 17))
    ensures Finish(t).served == [GetRequest()] && Finish(t).unread == "\n"
  {
    hide Step, Reaches, KeepAlive, Env.Valid, ResponseBytes, Task.Stuck, CalmWrites, LiveWrites, Finish, PlainGet;
    var script := [Data(16, false), Data(1, false)] + more;
    assert t.readEvents == [Data(18, false)] + script;
    var got := GetArrives(t, script);
    var u := GetIsServed(got);
    ReachesFurther(t, got, u);
    SecondGoesOn(u);
    assert script[1..][0] == Data(1, false);
    SecondSpills(Step(u));
    ReachesNext(t, u);
    ReachesNext(t, Step(u));
    StoppedIsStuck(Step(Step(u)));
    StuckIsFinish(t, Step(Step(u)));
  }

  /** Receiving the bytes that are there already. */
  lemma {:induction false} SameBytes(b: string, at: nat, chunk: string)
    requires at + |chunk| <= |b| && b[at..at + |chunk|] == chunk
    ensures Overlay(b, at, chunk) == b
  {
  }

  // ---- the guard page ---------------------------------------------------------------------

  lemma {:induction false} NearlyFull(b: string)
    requires |b| == RECV_BUF_SIZE && !HasTerm(b) && b[RECV_BUF_SIZE - 2..] == "\r\n"
    ensures !HasTerm(b[..RECV_BUF_SIZE - 1]) && EndTest(b, RECV_BUF_SIZE - 1, RECV_BUF_SIZE) == Faults
    ensures EndTest(b, 0, RECV_BUF_SIZE) == Differs && HeaderEnd(b) == 0
  {
    assert b[..|b|] == b && b[..0] == "";
    TermOfPrefix(b, |b| - 1);
    TermOfPrefix(b, |b|);
    TermOfPrefix(b, 0);
    FaultIff(b, |b| - 1, |b|);
    IncrementalSearch(b, 0, |b|);
  }

  /** 8192 bytes without a terminator that end in CR LF, the last one received alone: the search runs
      into the guard page.  In one chunk the same bytes just close the connection. */
  lemma {:induction false} GuardPageRun(buf: string, s: string, writeEvents: seq<WriteEvent>, more: seq<ReadEvent>,
                                        env: Env)
    requires |buf| == |s| == RECV_BUF_SIZE && !HasTerm(s) && s[RECV_BUF_SIZE - 2..] == "\r\n" && env.Valid()
    ensures var t := NewTask(buf, 0, 0, s, [Data(RECV_BUF_SIZE - 1, false), Data(1, false)] + more, writeEvents, env);
      && Startable(t) && StreamOf(t) == s
      && Finish(t).phase == Stopped(Crashed(RECV_BUF_SIZE - 1, RECV_BUF_SIZE))
    ensures var t := NewTask(buf, 0, 0, s, [Data(RECV_BUF_SIZE, false)] + more, writeEvents, env);
      Startable(t) && StreamOf(t) == s && Finish(t).phase == Stopped(HeaderTooLong)
  {
    hide Finish, Env.Valid, EndTest, HasTerm, Step;
    assert buf[0..0] + s == s;
    CrashingRun(buf, s, writeEvents, more, env);
    FullRun(buf, s, writeEvents, more, env);
  }

  lemma {:induction false} CrashingRun(buf: string, s: string, writeEvents: seq<WriteEvent>, more: seq<ReadEvent>,
                                       env: Env)
    requires |buf| == |s| == RECV_BUF_SIZE && !HasTerm(s) && s[RECV_BUF_SIZE - 2..] == "\r\n" && env.Valid()
    ensures var t := NewTask(buf, 0, 0, s, [Data(RECV_BUF_SIZE - 1, false), Data(1, false)] + more, writeEvents, env);
      Finish(t).phase == Stopped(Crashed(RECV_BUF_SIZE - 1, RECV_BUF_SIZE))
  {
    hide EndTest, HeaderEnd, Step, ReadOne, KeepAlive, Task.Stuck, Env.Valid, Overlay, HasTerm;
    var n := RECV_BUF_SIZE - 1;
    var script := [Data(n, false), Data(1, false)] + more;
    var t0 := NewTask(buf, 0, 0, s, script, writeEvents, env);
    FirstStep(t0);
    var t1 := Step(t0);
    assert s == s[..n] + s[n..];
    ReceiveChunk(t1, 0, 0, s[..n], s[n..]);
    var b1 := Overlay(buf, 0, s[..n]);
    var b2 := Overlay(b1, n, s[n..]);
    FilledUp(buf, s, n);
    NearlyFull(b2);
    NoneYet(b1, n);
    assert script[1..][0] == Data(1, false);
    var t2 := Step(t1);
    assert s[n..] + "" == s[n..];
    ReceiveChunk(t2, 0, n, s[n..], "");
    ThreeStepsToStop(t0);
  }

  lemma {:induction false} FilledUp(buf: string, s: string, n: nat)
    requires |buf| == |s| && n <= |s|
    ensures Overlay(Overlay(buf, 0, s[..n]), n, s[n..]) == s && Overlay(buf, 0, s[..n])[..n] == s[..n]
    ensures Overlay(buf, 0, s) == s
  {
  }

  lemma {:induction false} NoneYet(b: string, n: nat)
    requires 0 < n <= |b| && !HasTerm(b[..n])
    ensures EndTest(b, 0, n) == Differs
  {
    assert b[..0] == "";
    TermOfPrefix(b, 0);
    IncrementalSearch(b, 0, n);
  }

  lemma {:induction false} FullRun(buf: string, s: string, writeEvents: seq<WriteEvent>, more: seq<ReadEvent>, env: Env)
    requires |buf| == |s| == RECV_BUF_SIZE && !HasTerm(s) && s[RECV_BUF_SIZE - 2..] == "\r\n" && env.Valid()
    ensures var t := NewTask(buf, 0, 0, s, [Data(RECV_BUF_SIZE, false)] + more, writeEvents, env);
      Finish(t).phase == Stopped(HeaderTooLong)
  {
    hide EndTest, HeaderEnd, Step, ReadOne, KeepAlive, Task.Stuck, Env.Valid, Overlay, HasTerm;
    var t0 := NewTask(buf, 0, 0, s, [Data(RECV_BUF_SIZE, false)] + more, writeEvents, env);
    FirstStep(t0);
    var t1 := Step(t0);
    assert s + "" == s;
    ReceiveChunk(t1, 0, 0, s, "");
    FilledUp(buf, s, 0);
    NearlyFull(s);
    assert s[..RECV_BUF_SIZE] == s;
    ReachesItself(t0);
    ReachesNext(t0, t0);
    ReachesNext(t0, t1);
    StoppedIsStuck(Step(t1));
    StuckIsFinish(t0, Step(t1));
  }

  /** There are such bytes. */
  lemma {:induction false} GuardPageBytes() returns (s: string)
    ensures |s| == RECV_BUF_SIZE && !HasTerm(s) && s[RECV_BUF_SIZE - 2..] == "\r\n"
  {
    var letters := seq(RECV_BUF_SIZE - 2, _ => 'a');
    s := letters + "\r\n";
    assert forall i :: 0 <= i < |s| - 2 ==> s[i] == 'a';
  }

  // ---- recycled contexts ------------------------------------------------------------------

  lemma {:induction false} RefusedToken(s: string)
    requires NextMessage(s).Msg?
    requires var r := NextMessage(s).value; r.kind == Base && r.error == MethodNotAllowed && r.meth != ""
    ensures s != "" && s[0] == NextMessage(s).value.meth[0]
  {
    var h := HeaderEnd(Window(s));
    var token := MethodToken(s[..h]);
    assert NewRequest(token).kind == Base;
    assert token != "" && token[0] == s[..h][0];
  }

  lemma {:induction false} RefusedFirst(s: string, c: char)
    ensures Requests(s) == [Refused(c)] ==> s != "" && s[0] == c
  {
    if Requests(s) == [Refused(c)] {
      NextIsLawful();
      assert NEXT(s).Msg? && NEXT(s).value == Requests(s)[0];
      RefusedToken(s);
    }
  }

  /** A context handed out with leftover bytes is not transparent: for every leftover there is a
      stream that the new connection does not receive as its own. */
  lemma {:induction false} LeftoverShows(leftover: string) returns (s: string)
    requires leftover != ""
    ensures Requests(leftover + s) != Requests(s)
  {
    hide NextMessage, Requests;
    var c := if leftover[0] == 'Q' then 'R' else 'Q';
    s := Refusable(c) + "";
    RefusableIsRefused(c, "");
    RefusedFirst(leftover + s, c);
    assert (leftover + s)[0] == leftover[0] != c;
  }

  /** Runs on a handed-out context are about the connection's own stream if and only if the context
      comes without leftover bytes. */
  lemma {:induction false} OwnStreamIffNoLeftover(memory: seq<char>, have: nat, curr: nat)
    requires curr <= have <= |memory|
    ensures (forall s :: Requests(memory[curr..have] + s) == Requests(s)) <==> have == curr
  {
    hide NextMessage, Requests;
    var leftover := memory[curr..have];
    if have == curr {
      forall s ensures Requests(leftover + s) == Requests(s) {
        assert leftover + s == s;
      }
    } else {
      var s := LeftoverShows(leftover);
    }
  }

  /** Once everything has been read, it stays so. */
  lemma {:induction false} ReadUp(t: Task)
    requires t.Sane() && t.unread == ""
    ensures Step(t).unread == ""
  {
    hide EndTest, HeaderEnd, ParseHead, KeepAlive, ResponseBytes;
    if !t.Stuck() {
      match t.phase
      case Header(_, n) =>
        ReadOneMoves(Receiving(t.buf, n, t.unread, t.readEvents, n), RECV_BUF_SIZE, false, true);
      case Body(_, req, n) =>
        ReadOneMoves(Receiving(t.buf, n, t.unread, t.readEvents, n), BlockSize(req), true, false);
      case _ =>
    }
  }

  lemma {:induction false} StaysReadUp(s: string, t: Task)
    requires InLine(s, t) && t.unread == ""
    ensures Finish(t).unread == ""
    decreases Events(t), Rank(t.phase)
  {
    hide InLine, Step, Task.Stuck;
    SaneOf(s, t);
    if !t.Stuck() {
      StepProgresses(t);
      StepKeeps(s, t);
      ReadUp(t);
      StaysReadUp(s, Step(t));
    }
  }

  /** A schedule that begins with one read of the whole stream, whatever follows, as the close of the
      peer, delivers it. */
  lemma {:induction false} OneReadDelivers(t: Task)
    requires Startable(t) && t.have == t.curr && 0 < |t.unread| <= RECV_BUF_SIZE
    requires t.readEvents != [] && t.readEvents[0].Data? && t.readEvents[0].count >= |t.unread| && !t.readEvents[0].late
    ensures Finish(t).unread == ""
    ensures Calm(t) && EnoughWrites(StreamOf(t), t) ==> CalmRun(t)
  {
    hide Step, Task.Stuck, Calm, EnoughWrites, CalmRun, EndTest, InLine, HeaderEnd, Overlay, Env.Valid, Finish;
    var s := StreamOf(t);
    FirstStep(t);
    StartsInLine(t);
    StepKeeps(s, t);
    assert t.unread + "" == t.unread;
    ReceiveChunk(Step(t), 0, 0, t.unread, "");
    StepKeeps(s, Step(t));
    StaysReadUp(s, Step(Step(t)));
    FinishStep(t);
    FinishStep(Step(t));
    if Calm(t) && EnoughWrites(s, t) {
      CalmRunIf(t);
    }
  }

  /** The peer sends a request that ends the connection, and `more` behind it, all of which is read at
      once: the connection ends and leaves exactly `more` on its context. */
  lemma {:induction false} LeftBehind(t: Task, more: string)
    requires Startable(t) && Calm(t) && EnoughWrites(StreamOf(t), t) && WideReads(t.readEvents) && t.have == t.curr
    requires t.unread == Refusable('Q') + more && |t.unread| <= RECV_BUF_SIZE
    requires t.readEvents != [] && t.readEvents[0].Data? && t.readEvents[0].count >= |t.unread|
    ensures var u := Finish(t);
      && u.phase == Stopped(AskedToClose) && u.served == [Refused('Q')]
      && u.curr <= u.have <= |u.buf| && u.buf[u.curr..u.have] == more
  {
    hide Step, KeepAlive, Task.Stuck, CalmWrites, EnoughWrites, WideReads, InLine, NextMessage, Requests, EndOf;
    hide BehindAll, Env.Valid, Finish, AllReplies;
    var s := StreamOf(t);
    assert t.buf[t.curr..t.have] == "" && "" + t.unread == t.unread;
    RefusableIsRefused('Q', more);
    assert CalmRead(t.readEvents[0]);
    OneReadDelivers(t);
    WideRunCompletes(t);
    StartsInLine(t);
    FinishKeeps(s, t);
    AskedToCloseLeaves(s, Finish(t));
  }

  lemma {:induction false} AskedToCloseLeaves(s: string, u: Task)
    requires InLine(s, u) && u.phase == Stopped(AskedToClose) && u.unread == ""
    ensures u.curr <= u.have <= |u.buf| && u.buf[u.curr..u.have] == BehindAll(s)
  {
    hide BehindAll, Requests, EndOf;
    assert u.buf[u.curr..u.have] + "" == u.buf[u.curr..u.have];
  }

  /** The next connection on that context is answered a request its peer has not sent, whatever it
      sends: here the leftover is a whole request. */
  lemma {:induction false} NextOnContext(u: Task, t: Task)
    requires u.buf == t.buf && u.curr == t.curr <= u.have == t.have <= |u.buf|
    requires u.buf[u.curr..u.have] == Refusable('R')
    requires CalmRun(t) && WideReads(t.readEvents)
    ensures Finish(t).served == [Refused('R')]
  {
    hide Step, KeepAlive, CalmRun, WideReads, NextMessage, Requests;
    RefusableIsRefused('R', t.unread);
    WideRunCompletes(t);
  }

  // ---- a status without a text ----------------------------------------------------------------

  function PlainPost(): string { "POST / HTTP/1.1\r\ncontent-length: 0\r\n\r\n" }

  function PostRequest(): Request {
    Request(Post, "POST", "/", "HTTP/1.1", map[CONTENT_LENGTH := Size(0)], "", StatusNone)
  }

  lemma {:induction false} TwoLines(first: string, second: string)
    ensures Section([first, second]) == first + CRLF + (second + CRLF + CRLF)
  {
    NoLines();
    SectionCons(first, [second]);
    SectionCons(second, []);
    assert [second] + [] == [second] && [first] + [second] == [first, second];
  }

  lemma {:induction false} PostFirst()
    ensures FirstRequestLine(PostRequest()) == "POST / HTTP/1.1"
  {
  }

  lemma {:induction false} PostText()
    ensures "POST / HTTP/1.1" + CRLF + ("content-length: 0" + CRLF + CRLF) == PlainPost()
  {
    assert "content-length: 0" + CRLF == "content-length: 0\r\n";
    assert "content-length: 0\r\n" + CRLF == "content-length: 0\r\n\r\n";
    assert "POST / HTTP/1.1" + CRLF == "POST / HTTP/1.1\r\n";
  }

  lemma {:induction false} PostField()
    ensures FieldLines(PostRequest().headers, [CONTENT_LENGTH]) == ["content-length: 0"]
  {
    assert FieldLine(CONTENT_LENGTH, Size(0)) == "content-length: 0";
  }

  lemma {:induction false} PostIsPrinted()
    ensures SerializeHead(PostRequest(), [CONTENT_LENGTH]) == PlainPost()
  {
    hide PlainPost, FirstRequestLine, FieldLines, Section;
    PostFirst();
    PostText();
    PostField();
    TwoLines("POST / HTTP/1.1", "content-length: 0");
    assert ["POST / HTTP/1.1"] + ["content-length: 0"] == ["POST / HTTP/1.1", "content-length: 0"];
  }

  lemma {:induction false} PostIsWellFormed()
    ensures WellFormed(PostRequest()) && IsOrder([CONTENT_LENGTH], PostRequest().headers)
    ensures |PlainPost()| <= MAX_HTTP_HDR_SIZE
  {
    assert CrlfFree("/") && CrlfFree("HTTP/1.1");
    LengthIsLower();
  }

  lemma {:induction false} LengthIsLower()
    ensures ToLower(CONTENT_LENGTH) == CONTENT_LENGTH && CrlfFree(CONTENT_LENGTH)
  {
  }

  lemma {:induction false} PostStatus(env: Env, k: nat)
    ensures Typed(PostRequest().headers)
    ensures MakeResponse(PostRequest(), env, k).status == NotImplemented && Code(NotImplemented) >= STATUS_TABLE_SIZE
  {
    hide KeepAlive;
  }

  /** A request that is answered with a status behind the end of the table of status texts. */
  lemma {:induction false} PostIsBehindTable(env: Env, k: nat)
    ensures ParseHead(PlainPost()) == PostRequest() && Typed(PostRequest().headers)
    ensures MakeResponse(PostRequest(), env, k).status == NotImplemented && Code(NotImplemented) >= STATUS_TABLE_SIZE
  {
    hide ParseHead, KeepAlive, WellFormed, SerializeHead, PlainPost, MakeResponse, Section;
    PostStatus(env, k);
    PostIsPrinted();
    PostIsWellFormed();
    var lines := HeaderRoundTrip(PostRequest(), [CONTENT_LENGTH]);
  }
}
