/** What a schedule promises: runs on which every byte arrives and every response goes out. */
module Progress {
  import opened Bytes
  import opened Terminator
  import opened SocketIo
  import opened Message
  import opened Transcript
  import opened Stream
  import opened Response
  import opened Handler
  import opened HandlerRuns

  // ---- schedules --------------------------------------------------------------------------

  predicate CalmRead(e: ReadEvent) { e.ReadAgain? || (e.Data? && !e.late) }

  /** No errors and no timeouts; the peer may close once nothing else is to come. */
  ghost predicate CalmReads(events: seq<ReadEvent>) {
    forall i :: 0 <= i < |events| ==> CalmRead(events[i]) || (i == |events| - 1 && events[i].ReadClosed?)
  }

  ghost predicate CalmWrites(events: seq<WriteEvent>) {
    forall e <- events :: e.WriteAgain? || (e.Wrote? && !e.late)
  }

  /** How many reads have something to offer. */
  function LiveReads(events: seq<ReadEvent>): nat {
    if events == [] then 0
    else (if events[0].Data? && events[0].count > 0 then 1 else 0) + LiveReads(events[1..])
  }

  function LiveWrites(events: seq<WriteEvent>): nat {
    if events == [] then 0
    else (if events[0].Wrote? && events[0].count > 0 then 1 else 0) + LiveWrites(events[1..])
  }

  /** Reads come back with at least three bytes, where there are that many. */
  ghost predicate WideReads(events: seq<ReadEvent>) {
    forall e <- events :: e.Data? && e.count > 0 ==> e.count >= 3
  }

  /** The responses to all requests of the stream. */
  ghost function AllReplies(s: string, env: Env): string
    requires env.Valid()
  {
    RequestsAreTyped(s);
    Concat(Replies(Requests(s), env))
  }

  lemma {:induction false} RequestsAreTyped(s: string)
    ensures AllTyped(Requests(s))
  {
    hide NextMessage, KeepAlive;
    OnlyLastCloses(s);
  }

  ghost predicate Calm(t: Task) { CalmReads(t.readEvents) && CalmWrites(t.writeEvents) }

  /** The schedules are long enough for the bytes still to come, and still to go: one byte for each event
      is all that is asked. */
  ghost predicate EnoughReads(t: Task) { LiveReads(t.readEvents) >= |t.unread| }

  ghost predicate EnoughWrites(s: string, t: Task)
    requires t.env.Valid()
  {
    LiveWrites(t.writeEvents) + |t.wire| >= |AllReplies(s, t.env)|
  }

  /** Not stopped, or stopped for no error of the socket; by the peer only at the end of the schedule. */
  ghost predicate Unharmed(t: Task) {
    t.phase.Stopped? ==>
      && t.phase.why !in {BodyTimeout, RecvFailed, SendFailed, NotSent}
      && (t.phase.why.LostPeer? ==> t.readEvents == [])
  }

  // ---- one step ---------------------------------------------------------------------------

  lemma {:induction false} CalmTail(events: seq<ReadEvent>)
    requires CalmReads(events) && events != []
    ensures CalmReads(events[1..]) && !events[0].ReadFailed?
    ensures events[0].ReadClosed? ==> events[1..] == []
    ensures !events[0].ReadClosed? ==> CalmRead(events[0])
  {
  }

  /** A read that has something to offer takes at least one byte, unless there is none. */
  lemma {:induction false} ReadAdvances(x: Receiving, to: nat, bounded: bool, terminator: bool)
    requires x.events != [] && x.n < to <= |x.buf| && CalmReads(x.events)
    ensures var (y, end) := ReadOne(x, to, bounded, terminator);
      && CalmReads(y.events) && |y.unread| <= |x.unread|
      && (LiveReads(x.events) >= |x.unread| ==> LiveReads(y.events) >= |y.unread|)
      && end !in {Some(Failed), Some(TimedOut)}
      && (end == Some(PeerClosed) ==> y.events == [] && y.unread == x.unread)
  {
    hide EndTest;
    CalmTail(x.events);
    ReadOneMoves(x, to, bounded, terminator);
    assert LiveReads(x.events[1..]) <= LiveReads(x.events) <= LiveReads(x.events[1..]) + 1;
  }

  lemma {:induction false} WriteAdvances(packet: string, x: Transmitting)
    requires x.events != [] && x.count < |packet| && CalmWrites(x.events)
    ensures var (y, end) := WriteOne(packet, x, true);
      && CalmWrites(y.events) && end == None
      && LiveWrites(y.events) + |y.wire| >= LiveWrites(x.events) + |x.wire|
  {
    WriteOneSends(packet, x, true);
    assert x.events[0] in x.events;
    assert forall e <- x.events[1..] :: e in x.events;
  }

  lemma {:induction false} HeaderSupplies(s: string, t: Task, start: nat, n: nat)
    requires t.Sane() && t.phase == Header(start, n) && t.readEvents != []
    requires Calm(t) && t.env.Valid()
    ensures var t' := StepHeader(t, start, n);
      && t'.env == t.env && Calm(t') && Unharmed(t')
      && (EnoughReads(t) ==> EnoughReads(t')) && (EnoughWrites(s, t) ==> EnoughWrites(s, t'))
  {
    hide AllReplies, ReadOne, LiveReads, LiveWrites, CalmReads, CalmWrites, HeaderEnd, Overlay, Env.Valid;
    ReadAdvances(Receiving(t.buf, n, t.unread, t.readEvents, n), RECV_BUF_SIZE, false, true);
    ReadOneMoves(Receiving(t.buf, n, t.unread, t.readEvents, n), RECV_BUF_SIZE, false, true);
  }

  lemma {:induction false} BodySupplies(s: string, t: Task, hdr: string, req: Request, n: nat)
    requires t.Sane() && t.phase == Body(hdr, req, n) && t.readEvents != []
    requires Calm(t) && t.env.Valid()
    ensures var t' := StepBody(t, hdr, req, n);
      && t'.env == t.env && Calm(t') && Unharmed(t')
      && (EnoughReads(t) ==> EnoughReads(t')) && (EnoughWrites(s, t) ==> EnoughWrites(s, t'))
  {
    hide AllReplies, ReadOne, LiveReads, LiveWrites, CalmReads, CalmWrites, Overlay, Env.Valid;
    var x := Receiving(t.buf, n, t.unread, t.readEvents, n);
    ReadAdvances(x, BlockSize(req), true, false);
    var (y, end) := ReadOne(x, BlockSize(req), true, false);
    BlockGoesOn(x, BlockSize(req), y, end);
  }

  lemma {:induction false} SendSupplies(s: string, t: Task, hdr: string, req: Request, msg: string, pos: nat,
                                        count: nat)
    requires t.Sane() && t.phase == Sending(hdr, req, msg, pos, count) && t.writeEvents != []
    requires Calm(t) && t.env.Valid()
    ensures var t' := StepSend(t, hdr, req, msg, pos, count);
      && t'.env == t.env && Calm(t') && Unharmed(t')
      && (EnoughReads(t) ==> EnoughReads(t')) && (EnoughWrites(s, t) ==> EnoughWrites(s, t'))
  {
    hide AllReplies, WriteOne, LiveReads, LiveWrites, CalmReads, CalmWrites, Env.Valid, KeepAlive;
    var packet, x := msg[pos..pos + PacketSize(msg, pos)], Transmitting(count, t.wire, t.writeEvents);
    WriteAdvances(packet, x);
    WriteOneSends(packet, x, true);
  }

  lemma {:induction false} StepSupplies(s: string, t: Task)
    requires InLine(s, t) && Calm(t) && Unharmed(t)
    ensures t.Sane() && Step(t).env == t.env && Calm(Step(t)) && Unharmed(Step(t))
    ensures EnoughReads(t) ==> EnoughReads(Step(t))
    ensures EnoughWrites(s, t) ==> EnoughWrites(s, Step(t))
  {
    hide InLine, AllReplies, LiveReads, LiveWrites, CalmReads, CalmWrites, StepHeader, StepBody, StepSend;
    hide HeaderEnd, ParseHead, MethodHasBody, KeepAlive, ResponseBytes, Overlay, Env.Valid, Typed, Replies;
    SaneOf(s, t);
    if !t.Stuck() {
      match t.phase
      case Header(start, n) => HeaderSupplies(s, t, start, n);
      case Body(hdr, req, n) => BodySupplies(s, t, hdr, req, n);
      case Sending(hdr, req, msg, pos, count) => SendSupplies(s, t, hdr, req, msg, pos, count);
      case _ =>
    }
  }

  lemma {:induction false} SaneOf(s: string, t: Task)
    requires InLine(s, t)
    ensures t.Sane() && |t.unread| <= |s|
  {
  }

  // ---- the end of a run -------------------------------------------------------------------

  /** All requests of the stream are delivered, and all their responses are on the wire. */
  ghost predicate Complete(s: string, t: Task) {
    t.env.Valid() && t.served == Requests(s) && t.wire == AllReplies(s, t.env)
  }

  /** The run ends as the stream does; a peer that closes is one of the ways to wait no longer. */
  predicate EndsLike(phase: Phase, end: EndOfStream) {
    match end
    case Finished => phase == Stopped(AskedToClose)
    case Refused => phase == Stopped(HeaderTooLong)
    case Waiting => phase.Header? || phase.Body? || phase == Stopped(LostPeer)
  }

  /** A window spilled into stale bytes, or overran the buffer. */
  predicate Misread(phase: Phase) { phase.Stopped? && (phase.why.SpuriousEnd? || phase.why.Crashed?) }

  /** A coroutine that waits for bytes has served all requests that have arrived. */
  lemma {:induction false} WaitingServes(s: string, t: Task)
    requires InLine(s, t) && (t.phase.Header? || t.phase.Body?)
    ensures AllSent(t.served, t.env, t.wire) && ServedArrived(s, t.served, t.unread)
    ensures EndOf(Arrived(s, t.unread)) == Waiting
  {
    hide NextMessage, HasTerm, Before, AllSent, ServedArrived, ResponseBytes, KeepAlive, MethodHasBody, ParseHead;
    hide Requests, EndOf, IsNext, IsRun, IsHeader, Window;
    var rest := Rest(t);
    match t.phase
    case Header(_, n) =>
      HeaderStops(s, t, Receiving(t.buf, n, t.unread, t.readEvents, n), rest);
    case Body(hdr, req, n) =>
      BlockSplits(t.buf, n, t.unread, hdr, req.body);
      TypedDispatch(hdr);
      HeaderOf(rest, hdr);
      BodyLacking(rest, hdr, |rest| - |t.unread|);
      NothingMore(s, t.served, rest, t.unread);
  }

  lemma {:induction false} ConcatOfPrefix(parts: seq<string>, k: nat)
    requires k <= |parts|
    ensures |Concat(parts[..k])| <= |Concat(parts)|
    decreases |parts|
  {
    if k == |parts| {
      assert parts[..k] == parts;
    } else {
      assert parts[..|parts| - 1][..k] == parts[..k];
      ConcatOfPrefix(parts[..|parts| - 1], k);
    }
  }

  /** While a response is not out, there is more to be sent. */
  lemma {:induction false} UnsentLeft(s: string, t: Task)
    requires InLine(s, t) && t.phase.Sending?
    ensures |t.wire| < |AllReplies(s, t.env)|
  {
    hide NextMessage, ResponseBytes, KeepAlive, IsNext, Requests, EndOf, HasTerm, IsHeader, MethodHasBody, ParseHead;
    hide Replies, Concat, Before, ServedArrived, BehindAll, Spill, Overrun;
    var Sending(hdr, req, msg, pos, count) := t.phase;
    var done := t.served[..|t.served| - 1];
    assert done + [req] == t.served;
    NotAnswered(s, done, t.env, Rest(t), hdr, req, t.wire, pos + count);
    RequestsAreTyped(s);
    RepliesOfPrefix(t.served, Requests(s), t.env);
  }

  lemma {:induction false} RepliesOfPrefix(rs: seq<Request>, all: seq<Request>, env: Env)
    requires env.Valid() && AllTyped(rs) && AllTyped(all) && rs <= all
    ensures |Concat(Replies(rs, env))| <= |Concat(Replies(all, env))|
  {
    hide ResponseBytes;
    assert Replies(all, env)[..|rs|] == Replies(rs, env);
    ConcatOfPrefix(Replies(all, env), |rs|);
  }

  /** What the run of `t` has come to did not end for want of schedule: it is not waiting for bytes that
      are still to come, or for its response to go out. */
  predicate PlayedOut(t: Task) {
    && !t.phase.Sending?
    && (t.phase.Header? || t.phase.Body? || t.phase == Stopped(LostPeer) ==> t.unread == "")
  }

  /** A run that can go no further, and not for want of schedule, is complete, unless a window spilled
      or overran. */
  lemma {:induction false} StuckIsComplete(s: string, t: Task)
    requires InLine(s, t) && Unharmed(t) && t.Stuck() && PlayedOut(t)
    ensures (Complete(s, t) && EndsLike(t.phase, EndOf(s))) <==> !Misread(t.phase)
  {
    hide NextMessage, ResponseBytes, KeepAlive, IsNext, Requests, EndOf, HasTerm, IsHeader, MethodHasBody, ParseHead;
    hide Replies, Concat, Before, BehindAll, Spill, Overrun, StoppedInHeader, CutOff;
    assert s[..|s|] == s;
    match t.phase
    case Header(_, _) => WaitingServes(s, t);
    case Body(_, _, _) => WaitingServes(s, t);
    case _ =>
  }

  /** With enough writes no run ends while a response is going out; with enough reads none ends waiting
      for bytes that are still to come. */
  lemma {:induction false} SupplyLasts(s: string, t: Task)
    requires InLine(s, t) && Unharmed(t) && t.Stuck() && EnoughWrites(s, t)
    ensures EnoughReads(t) || t.unread == "" ==> PlayedOut(t)
  {
    hide NextMessage, ResponseBytes, KeepAlive, IsNext, Requests, EndOf, HasTerm, IsHeader, MethodHasBody, ParseHead;
    hide Replies, Concat, Before, BehindAll, Spill, Overrun, StoppedInHeader, CutOff, AllReplies;
    assert LiveReads([]) == 0 && LiveWrites([]) == 0;
    if t.phase.Sending? {
      UnsentLeft(s, t);
    }
  }

  // ---- wide reads -------------------------------------------------------------------------

  /** A window can have spilled or overrun only at the end of the stream or of the buffer. */
  ghost predicate HarmlessEnd(t: Task) {
    && WideReads(t.readEvents)
    && (t.phase.Stopped? && t.phase.why.SpuriousEnd? ==> t.unread == "")
    && (t.phase.Stopped? && t.phase.why.Crashed? ==> t.unread == "" || t.phase.why.n == RECV_BUF_SIZE)
  }

  lemma {:induction false} WideTail(events: seq<ReadEvent>)
    requires WideReads(events) && events != []
    ensures WideReads(events[1..]) && (events[0].Data? && events[0].count > 0 ==> events[0].count >= 3)
  {
    assert events[0] in events;
    assert forall e <- events[1..] :: e in events;
  }

  /** A chunk that makes a straddling window reach behind it has one or two bytes. */
  lemma {:induction false} TinyChunk(b: string, prev: nat, n: nat)
    requires prev < n <= |b| && (Spill(b, prev, n) || Overrun(b, prev, n)) && !HasTerm(b[..n])
    ensures n - prev <= 2
  {
    hide HasTerm;
    TermOfPrefix(b, n);
    if Overrun(b, prev, n) {
      var k :| prev - 3 <= k < prev && k >= 0 && CompareAt(b, k) == Faults;
    }
  }

  lemma {:induction false} WideChunk(x: Receiving, y: Receiving, end: Option<IoEnd>)
    requires x.events != [] && x.n < RECV_BUF_SIZE == |x.buf| && !HasTerm(x.buf[..x.n]) && WideReads(x.events)
    requires (y, end) == ReadOne(x, RECV_BUF_SIZE, false, true)
    ensures WideReads(y.events)
    ensures end in {Some(Terminated), Some(Faulted)} && !HasTerm(y.buf[..y.n]) ==>
      y.unread == "" || y.n == RECV_BUF_SIZE
  {
    hide HasTerm, EndTest, Spill, Overrun;
    WideTail(x.events);
    SearchGoesOn(x, y, end);
    if end in {Some(Terminated), Some(Faulted)} && !HasTerm(y.buf[..y.n]) {
      TinyChunk(y.buf, x.n, y.n);
    }
  }

  lemma {:induction false} StepIsHarmless(s: string, t: Task)
    requires InLine(s, t) && HarmlessEnd(t)
    ensures HarmlessEnd(Step(t))
  {
    hide Requests, AllReplies, ReadOne, WriteOne, LiveReads, LiveWrites, WideReads, HasTerm, IsRun, Before, AllSent;
    hide ParseHead, MethodHasBody, KeepAlive, ResponseBytes, IsHeader, IsNext, NextMessage, Replies, Concat;
    if !t.Stuck() {
      match t.phase
      case Header(_, n) =>
        var x := Receiving(t.buf, n, t.unread, t.readEvents, n);
        WideChunk(x, ReadOne(x, RECV_BUF_SIZE, false, true).0, ReadOne(x, RECV_BUF_SIZE, false, true).1);
        SearchGoesOn(x, ReadOne(x, RECV_BUF_SIZE, false, true).0, ReadOne(x, RECV_BUF_SIZE, false, true).1);
      case Body(_, req, n) =>
        var x := Receiving(t.buf, n, t.unread, t.readEvents, n);
        WideTail(x.events);
        ReadOneMoves(x, BlockSize(req), true, false);
      case _ =>
    }
  }

  // ---- whole runs -------------------------------------------------------------------------

  lemma {:induction false} ReachesFinish(t: Task)
    ensures Reaches(t, Finish(t)) && Finish(t).Stuck()
    decreases Events(t), Rank(t.phase)
  {
    hide Step, Task.Stuck;
    if t.Stuck() {
      ReachesItself(t);
    } else {
      StepProgresses(t);
      ReachesItself(t);
      ReachesNext(t, t);
      ReachesFinish(Step(t));
      ReachesFurther(t, Step(t), Finish(Step(t)));
    }
  }

  /** A run that can go no further is the finished one. */
  lemma {:induction false} StuckIsFinish(t: Task, t': Task)
    requires Reaches(t, t') && t'.Stuck()
    ensures t' == Finish(t)
  {
    hide Step, Task.Stuck;
    var k: nat :| Steps(t, k) == t';
    StepsThenFinish(t, k);
  }

  lemma {:induction false} StepsThenFinish(t: Task, k: nat)
    ensures Finish(Steps(t, k)) == Finish(t)
  {
    hide Step, Task.Stuck;
    if k > 0 {
      StepsThenFinish(t, k - 1);
      FinishStep(Steps(t, k - 1));
    }
  }

  lemma {:induction false} FinishStep(t: Task)
    ensures Finish(Step(t)) == Finish(t)
  {
    hide BeginHeader, StepHeader, TakeHeader, StepBody, Respond, StepSend, Task.Stuck;
    if !t.Stuck() {
      StepProgresses(t);
    }
  }

  lemma {:induction false} FinishKeeps(s: string, t: Task)
    requires InLine(s, t)
    ensures InLine(s, Finish(t)) && Finish(t).Stuck()
    ensures Calm(t) && Unharmed(t) ==> Calm(Finish(t)) && Unharmed(Finish(t)) && Finish(t).env == t.env
    ensures Calm(t) && Unharmed(t) && EnoughReads(t) ==> EnoughReads(Finish(t))
    ensures Calm(t) && Unharmed(t) && t.Sane() && EnoughWrites(s, t) ==> EnoughWrites(s, Finish(t))
    ensures HarmlessEnd(t) ==> HarmlessEnd(Finish(t))
    decreases Events(t), Rank(t.phase)
  {
    SaneOf(s, t);
    hide InLine, Step, EnoughReads, EnoughWrites, Calm, Unharmed, HarmlessEnd, Task.Stuck;
    if !t.Stuck() {
      StepProgresses(t);
      StepKeeps(s, t);
      SaneOf(s, t);
      SaneOf(s, Step(t));
      if Calm(t) && Unharmed(t) {
        StepSupplies(s, t);
      }
      if HarmlessEnd(t) {
        StepIsHarmless(s, t);
      }
      FinishKeeps(s, Step(t));
    }
  }
}
