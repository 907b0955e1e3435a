/** What holds of every run of a connection. */
module RunTheorems {
  import opened Bytes
  import opened Terminator
  import opened SocketIo
  import opened Message
  import opened Transcript
  import opened Stream
  import opened Response
  import opened RoundTrip
  import opened Handler
  import opened HandlerRuns
  import opened Progress

  // ---- chunk independence -----------------------------------------------------------------

  /** A coroutine that is about to start on calm schedules, which last: its run does not end waiting for
      bytes that are still to come, or for a response to go out. */
  ghost predicate CalmRun(t: Task) {
    Startable(t) && Calm(t) && PlayedOut(Finish(t))
  }

  /** A coroutine that is about to start on calm schedules with a read for each byte of its stream and a
      write for each byte of the responses. */
  ghost predicate WellSupplied(t: Task) {
    Startable(t) && Calm(t) && EnoughReads(t) && EnoughWrites(StreamOf(t), t)
  }

  /** Such schedules always last; and with enough writes, so do all that deliver the whole stream. */
  lemma {:induction false} CalmRunIf(t: Task)
    requires Startable(t) && Calm(t) && EnoughWrites(StreamOf(t), t)
    requires EnoughReads(t) || Finish(t).unread == ""
    ensures CalmRun(t)
  {
    hide InLine, EnoughReads, EnoughWrites, Calm, Requests, EndOf, Unharmed, HarmlessEnd, PlayedOut;
    var s := StreamOf(t);
    StartsInLine(t);
    UnharmedStart(t);
    FinishKeeps(s, t);
    SupplyLasts(s, Finish(t));
  }

  lemma {:induction false} LiveOf(n: nat, read: ReadEvent, write: WriteEvent)
    requires read.Data? && read.count > 0 && write.Wrote? && write.count > 0
    ensures LiveReads(seq(n, _ => read)) == n && LiveWrites(seq(n, _ => write)) == n
  {
    if n > 0 {
      LiveOf(n - 1, read, write);
      assert seq(n, _ => read)[1..] == seq(n - 1, _ => read);
      assert seq(n, _ => write)[1..] == seq(n - 1, _ => write);
    }
  }

  /** There are such schedules for every context and every stream, with all of it read at once. */
  lemma {:induction false} SchedulesExist(buf: string, have: nat, curr: nat, stream: string, env: Env) returns (t: Task)
    requires |buf| == RECV_BUF_SIZE && curr <= have <= |buf| && env.Valid()
    ensures t == NewTask(buf, have, curr, stream, t.readEvents, t.writeEvents, env)
    ensures WellSupplied(t) && WideReads(t.readEvents)
    ensures stream != "" ==> t.readEvents != [] && t.readEvents[0] == Data(|stream| + 3, false)
  {
    hide Requests, Concat, Env.Valid;
    var s := buf[curr..have] + stream;
    var read, write := Data(|stream| + 3, false), Wrote(1, false);
    var n := |AllReplies(s, env)|;
    LiveOf(|stream|, read, write);
    LiveOf(n, read, write);
    t := NewTask(buf, have, curr, stream, seq(|stream|, _ => read), seq(n, _ => write), env);
  }

  /** The last byte in which the search can still be in the middle of a terminator. */
  ghost predicate QuietEnd(s: string) {
    var w := Window(BehindAll(s));
    EndOf(s).Finished? || w == "" || (w[|w| - 1] != '\r' && w[|w| - 1] != '\n')
  }

  /** Every run, under every schedule of reads and writes, stops or waits where the reader of its stream
      stands: what it served, what it sent and why it stopped fit the stream. */
  lemma {:induction false} FinishedRun(t: Task)
    requires Startable(t)
    ensures InLine(StreamOf(t), Finish(t)) && Finish(t).Stuck() && Reaches(t, Finish(t))
  {
    hide InLine;
    StartsInLine(t);
    FinishKeeps(StreamOf(t), t);
    ReachesFinish(t);
  }

  /** On calm schedules that last, everything is received and answered, and the run ends as the stream
      does, if and only if it never comes to a chunk that ends inside a terminator while a window reaches
      behind it.  Such a chunk has one or two bytes. */
  lemma {:induction false} RunCompletes(t: Task)
    requires CalmRun(t)
    ensures var s, u := StreamOf(t), Finish(t);
      Complete(s, u) && EndsLike(u.phase, EndOf(s)) <==> !exists v :: Reaches(t, v) && WindowStraddles(v)
    ensures var u := Finish(t);
      Misread(u.phase) ==> 0 < u.phase.why.n - u.phase.why.prev <= 2
  {
    hide InLine, Calm, EnoughReads, EnoughWrites, Requests, EndOf, AllReplies, Unharmed, HarmlessEnd, PlayedOut;
    hide WindowStraddles;
    var s, u := StreamOf(t), Finish(t);
    StartsInLine(t);
    UnharmedStart(t);
    FinishKeeps(s, t);
    StuckIsComplete(s, u);
    if Misread(u.phase) {
      TinyEnd(s, u);
      var v := MisreadFrom(s, t);
    } else {
      forall v | Reaches(t, v) ensures !WindowStraddles(v) {
        ReachesKeeps(s, t, v);
        if WindowStraddles(v) {
          StraddlingMisleads(s, t, v);
        }
      }
    }
  }

  /** The next chunk of a header section holds no end of it, but a window over its start matches thanks
      to stale bytes behind it, or goes on into the guard page. */
  ghost predicate WindowStraddles(t: Task) {
    && t.Sane() && t.phase.Header? && t.readEvents != [] && t.readEvents[0].Data?
    && var n := t.phase.n;
       var count := Min(t.readEvents[0].count, Min(RECV_BUF_SIZE - n, |t.unread|));
       var b := Overlay(t.buf, n, t.unread[..count]);
       count > 0 && !HasTerm(b[..n + count]) && (Spill(b, n, n + count) || Overrun(b, n, n + count))
  }

  lemma {:induction false} StepMisreads(s: string, t: Task)
    requires InLine(s, t) && !t.phase.Stopped?
    ensures Misread(Step(t).phase) <==> WindowStraddles(t)
  {
    hide NextMessage, HasTerm, Before, AllSent, ResponseBytes, KeepAlive, MethodHasBody, ParseHead, IsHeader, IsNext;
    hide Spill, Overrun, Env.Valid, ReadOne, WriteOne, EndTest;
    if t.phase.Header? && t.readEvents != [] {
      HeaderMisreads(t);
    }
  }

  lemma {:induction false} HeaderMisreads(t: Task)
    requires t.Sane() && t.phase.Header? && t.readEvents != [] && !HasTerm(t.buf[..t.phase.n])
    ensures Misread(Step(t).phase) <==> WindowStraddles(t)
  {
    hide HasTerm, Spill, Overrun, Env.Valid, EndTest;
    var n := t.phase.n;
    var x := Receiving(t.buf, n, t.unread, t.readEvents, n);
    var (y, end) := ReadOne(x, RECV_BUF_SIZE, false, true);
    SearchGoesOn(x, y, end);
    if y.n > n {
      assert y.buf[..n] == x.buf[..n];
      IncrementalSearch(y.buf, n, y.n);
    }
  }

  lemma {:induction false} StraddlingMisleads(s: string, t: Task, v: Task)
    requires Reaches(t, v) && InLine(s, v) && WindowStraddles(v)
    ensures Misread(Finish(t).phase)
  {
    hide InLine, Step, Task.Stuck, Reaches;
    StepMisreads(s, v);
    ReachesNext(t, v);
    StoppedIsStuck(Step(v));
    StuckIsFinish(t, Step(v));
  }

  lemma {:induction false} MisreadFrom(s: string, t: Task) returns (v: Task)
    requires InLine(s, t) && Misread(Finish(t).phase) && !t.phase.Stopped?
    ensures Reaches(t, v) && WindowStraddles(v)
    decreases Events(t), Rank(t.phase)
  {
    hide InLine, Step, Task.Stuck, WindowStraddles, Reaches;
    ReachesItself(t);
    ReachesNext(t, t);
    StepProgresses(t);
    StepKeeps(s, t);
    if Step(t).phase.Stopped? {
      StoppedIsStuck(Step(t));
      StepMisreads(s, t);
      v := t;
    } else {
      v := MisreadFrom(s, Step(t));
      ReachesFurther(t, Step(t), v);
    }
  }

  lemma {:induction false} UnharmedStart(t: Task)
    requires Startable(t)
    ensures Unharmed(t) && (WideReads(t.readEvents) ==> HarmlessEnd(t))
  {
  }

  lemma {:induction false} TinyEnd(s: string, u: Task)
    requires InLine(s, u) && Misread(u.phase)
    ensures var n := u.phase.why.n;
      && 0 < n - u.phase.why.prev <= 2 && n <= |u.buf| == RECV_BUF_SIZE && |u.unread| <= |s|
      && u.env.Valid() && AllTyped(u.served) && AllSent(u.served, u.env, u.wire) && StoppedInHeader(s, u, n)
    ensures u.phase.why.SpuriousEnd? ==> u.phase.why.n < RECV_BUF_SIZE
    ensures var c := u.buf[u.phase.why.n - 1]; c == '\r' || c == '\n'
  {
    hide Before, ServedArrived, EndOf, Requests, AllSent, HasTerm;
    TinyChunk(u.buf, u.phase.why.prev, u.phase.why.n);
    LastByte(u.buf, u.phase.why.prev, u.phase.why.n);
  }

  /** Where a window spills or overruns, the message ends inside a terminator. */
  lemma {:induction false} LastByte(b: string, prev: nat, n: nat)
    requires prev < n <= |b| && (Spill(b, prev, n) || Overrun(b, prev, n)) && !HasTerm(b[..n])
    ensures b[n - 1] == '\r' || b[n - 1] == '\n'
  {
    hide HasTerm;
    TermOfPrefix(b, n);
    if Overrun(b, prev, n) {
      var k :| prev - 3 <= k < prev && k >= 0 && CompareAt(b, k) == Faults;
      CompareBytes(b, k);
      assert b[k + (n - 1 - k)] == TERM_SEQ[n - 1 - k];
    }
  }

  /** If reads come back with three bytes where there are that many, all requests of the stream are
      delivered and answered; and the run ends as the stream does, unless the stream breaks off inside
      a terminator. */
  lemma {:induction false} WideRunCompletes(t: Task)
    requires CalmRun(t) && WideReads(t.readEvents)
    ensures var s, u := StreamOf(t), Finish(t);
      Complete(s, u) && (QuietEnd(s) ==> EndsLike(u.phase, EndOf(s)))
  {
    hide InLine, Calm, EnoughReads, EnoughWrites, Requests, EndOf, AllReplies, Unharmed, HarmlessEnd, PlayedOut;
    hide QuietEnd;
    var s, u := StreamOf(t), Finish(t);
    StartsInLine(t);
    UnharmedStart(t);
    FinishKeeps(s, t);
    StuckIsComplete(s, u);
    if Misread(u.phase) {
      HarmlesslyComplete(s, u);
    }
  }

  lemma {:induction false} HarmlesslyComplete(s: string, u: Task)
    requires InLine(s, u) && HarmlessEnd(u) && Misread(u.phase)
    ensures Complete(s, u) && !QuietEnd(s)
  {
    hide InLine, HasTerm, NextMessage, Before, Requests, EndOf, Window, Spill, Overrun, BehindAll, WideReads;
    hide Replies, Concat;
    TinyEnd(s, u);
    var n, rest := u.phase.why.n, u.buf[..u.phase.why.n] + u.unread;
    assert s[..|s|] == s;
    assert u.served == Requests(s);
    TailOf(s, u.served, rest);
    WindowIs(u.buf, n, u.unread);
  }

  lemma {:induction false} WindowIs(b: string, n: nat, unread: string)
    requires 0 < n <= |b| && n <= RECV_BUF_SIZE && (unread == "" || n == RECV_BUF_SIZE)
    ensures Window(b[..n] + unread) == b[..n] && b[..n][n - 1] == b[n - 1]
  {
  }

  lemma {:induction false} TailOf(s: string, vs: seq<Request>, rest: string)
    requires Before(s, vs, rest) && vs == Requests(s)
    ensures BehindAll(s) == rest && !EndOf(s).Finished?
  {
    hide NextMessage;
    var c := s[..|s| - |rest|];
    assert s[|c|..] == rest;
    AfterConsumed(NEXT, c, vs, s);
    assert Values(NEXT, rest) == [];
  }

  /** Chunk independence: two runs on the same bytes, in any chunks of at least three and on any memory,
      deliver the same requests and put the same bytes on the wire; and they end alike, unless the
      stream breaks off inside a terminator.  A peer that closes at the end is one of the ways to wait. */
  lemma {:induction false} ChunkIndependence(t1: Task, t2: Task)
    requires CalmRun(t1) && WideReads(t1.readEvents)
    requires CalmRun(t2) && WideReads(t2.readEvents)
    requires StreamOf(t1) == StreamOf(t2) && t1.env == t2.env
    ensures Finish(t1).served == Finish(t2).served == Requests(StreamOf(t1))
    ensures Finish(t1).wire == Finish(t2).wire == AllReplies(StreamOf(t1), t1.env)
    ensures QuietEnd(StreamOf(t1)) ==> exists end :: EndsLike(Finish(t1).phase, end) && EndsLike(Finish(t2).phase, end)
  {
    hide CalmRun, WideReads, Requests, AllReplies, QuietEnd, EndOf;
    WideRunCompletes(t1);
    WideRunCompletes(t2);
    EnvStays(t1);
    EnvStays(t2);
  }

  lemma {:induction false} EnvStays(t: Task)
    ensures Finish(t).env == t.env
    decreases Events(t), Rank(t.phase)
  {
    hide Task.Stuck;
    if !t.Stuck() {
      StepProgresses(t);
      EnvStays(Step(t));
    }
  }

  // ---- runs that broke off ----------------------------------------------------------------

  /** Why a coroutine stopped receiving. */
  predicate StoppedReceiving(why: Stop) {
    !why.AskedToClose? && !why.NotSent? && !why.SendFailed?
  }

  /** EOF completeness: whenever receiving ends, by the peer, by an error, by a timeout, by a full
      buffer or by a window gone astray, at whatever point of whatever schedules, exactly the requests
      among the bytes that had arrived have been delivered, and all of them answered. */
  lemma {:induction false} NothingIsDropped(t: Task, u: Task)
    requires Startable(t) && Reaches(t, u) && u.phase.Stopped? && StoppedReceiving(u.phase.why)
    ensures var s := StreamOf(t);
      && |u.unread| <= |s| && AllTyped(u.served) && u.env.Valid()
      && u.served == Requests(Arrived(s, u.unread)) && AllSent(u.served, u.env, u.wire)
  {
    hide NextMessage, Before, Requests, EndOf, AllSent, HasTerm, Spill, Overrun, BehindAll, ResponseBytes;
    var s := StreamOf(t);
    StartsInLine(t);
    ReachesKeeps(s, t, u);
  }

  // ---- sizes ------------------------------------------------------------------------------

  /** The fate of a header section depends on its size alone, wherever it began in the buffer. */
  lemma {:induction false} HeaderSizes(s: string)
    ensures var h := HeaderEnd(s);
      && (0 < h <= MAX_HTTP_HDR_SIZE ==> NextMessage(s) == Framed(s, h))
      && (MAX_HTTP_HDR_SIZE < h <= RECV_BUF_SIZE ==>
            NextMessage(s).Msg? && NextMessage(s).value == ErrorRequest(HeaderFieldsTooLarge))
      && (h > RECV_BUF_SIZE || (h == 0 && |s| >= RECV_BUF_SIZE) ==> NextMessage(s).TooLong?)
  {
    HeaderEndOfPrefix(s, |Window(s)|);
    var h := HeaderEnd(s);
    if MAX_HTTP_HDR_SIZE < h <= RECV_BUF_SIZE {
      assert s[h..][..0] == "";
    }
  }

  // ---- client and server ------------------------------------------------------------------

  /** A pipelining client is received exactly: on what it printed, in chunks of at least three bytes,
      its requests are delivered and answered, and the server waits for more. */
  lemma {:induction false} PipelinedRun(ms: seq<Printed>, t: Task)
    requires forall m <- ms :: m.Ordered() && Pipelinable(m)
    requires CalmRun(t) && WideReads(t.readEvents) && StreamOf(t) == Wire(ms)
    ensures Finish(t).served == PrintedRequests(ms) && Finish(t).wire == AllReplies(Wire(ms), t.env)
    ensures EndsLike(Finish(t).phase, Waiting)
  {
    hide NextMessage, ResponseBytes, Pipelinable, CalmRun, WideReads, Requests, EndOf, AllReplies, BehindAll;
    PipelinedRoundTrip(ms);
    assert Window("") == "";
    WideRunCompletes(t);
    EnvStays(t);
  }

  // ---- persistence ------------------------------------------------------------------------

  ghost predicate SaysKeepAlive(r: Request, env: Env, k: nat)
    requires Typed(r.headers)
  {
    var headers := MakeResponse(r, env, k).headers;
    "connection" in headers && headers["connection"] == Str("keep-alive")
  }

  ghost predicate SaysClose(r: Request, env: Env, k: nat)
    requires Typed(r.headers)
  {
    var headers := MakeResponse(r, env, k).headers;
    "connection" in headers && headers["connection"] == Str("close")
  }

  lemma {:induction false} ConnectionHeader(r: Request, env: Env, k: nat)
    requires Typed(r.headers)
    ensures if KeepAlive(r) then SaysKeepAlive(r, env, k) else SaysClose(r, env, k)
  {
    hide KeepAlive, IsOrder;
    var p: Headers := PageHeaders(r, "", "");
    assert "connection" in p;
  }

  /** Persistence agreement, at every point of every run: all responses but the last say keep-alive, no
      request is delivered after one whose response says close, and the connection is closed as
      answered only after that one. */
  lemma {:induction false} PersistenceAgreement(s: string, t: Task, i: nat)
    requires InLine(s, t) && i < |t.served|
    ensures Typed(t.served[i].headers)
    ensures i < |t.served| - 1 ==> SaysKeepAlive(t.served[i], t.env, i)
    ensures SaysClose(t.served[i], t.env, i) ==> i == |t.served| - 1
    ensures i == |t.served| - 1 && t.phase == Stopped(AskedToClose) ==> SaysClose(t.served[i], t.env, i)
  {
    hide NextMessage, ResponseBytes, KeepAlive, MakeResponse, InLine;
    ServedIsPrefix(s, t);
    OnlyLastCloses(s);
    assert t.served[i] == Requests(s)[i];
    ConnectionHeader(t.served[i], t.env, i);
    DifferentTexts();
    AskedAfterAll(s, t);
  }

  lemma {:induction false} AskedAfterAll(s: string, t: Task)
    requires InLine(s, t)
    ensures t.phase == Stopped(AskedToClose) ==> t.served == Requests(s) && EndOf(s) == Finished
  {
  }

  lemma {:induction false} DifferentTexts()
    ensures "keep-alive" != "close"
  {
    assert |"keep-alive"| != |"close"|;
  }
}
