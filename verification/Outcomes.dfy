/** What each event of the socket must lead to, and what each end of a handler must have come from. */
module Outcomes {
  import opened Bytes
  import opened Terminator
  import opened SocketIo
  import opened Message
  import opened Stream
  import opened Response
  import opened Handler
  import opened HandlerRuns
  import opened Progress
  import opened Loops

  predicate Receives(t: Task) { t.phase.Header? || t.phase.Body? }

  // ---- reads ------------------------------------------------------------------------------

  /** The positions in the context: a receive that has brought bytes leaves all of them behind, to be received
      by the next connection on the context; one that has not leaves what was there. */
  ghost predicate Leaves(t: Task, u: Task) {
    if t.phase.Header? && u.phase != Stopped(RecvFailed) && t.phase.n > t.phase.start
    then u.have == t.phase.n && u.curr == 0
    else u.have == t.have && u.curr == t.curr
  }

  /** The peer has closed: the connection ends. */
  lemma {:induction false} ClosedStops(s: string, t: Task)
    requires InLine(s, t) && Receives(t) && t.readEvents != [] && t.readEvents[0] == ReadClosed
    ensures var u := Step(t);
      && u.phase == Stopped(LostPeer) && u.readEvents == t.readEvents[1..]
      && u.unread == t.unread && u.buf == t.buf && Leaves(t, u)
  {
    hide HasTerm, Before, AllSent, IsHeader, ParseHead, MethodHasBody, Env.Valid, EndTest;
    assert t.phase.Header? ==> HeaderEnd(t.buf[..t.phase.n]) == 0;
  }

  /** A read has failed: the connection ends. */
  lemma {:induction false} FailureStops(t: Task)
    requires t.Sane() && Receives(t) && t.readEvents != [] && t.readEvents[0] == ReadFailed
    ensures var u := Step(t);
      && u.phase == Stopped(RecvFailed) && u.readEvents == t.readEvents[1..]
      && u.unread == t.unread && u.buf == t.buf && Leaves(t, u)
  {
    hide Env.Valid, EndTest, HeaderEnd;
  }

  predicate Nothing(t: Task) {
    && t.readEvents != []
    && (t.readEvents[0].ReadAgain? || (t.readEvents[0].Data? && (t.readEvents[0].count == 0 || t.unread == "")))
  }

  /** Nothing was there to be read: the coroutine waits on. */
  lemma {:induction false} NothingWaits(t: Task)
    requires t.Sane() && Receives(t) && Nothing(t)
    ensures Step(t) == t.(readEvents := t.readEvents[1..])
  {
    hide Env.Valid, EndTest, HeaderEnd;
  }

  /** A header section may come as late as it likes. */
  lemma {:induction false} NoTimeoutInHeader(t: Task, count: nat, more: seq<ReadEvent>)
    requires t.phase.Header? && t.Sane()
    ensures Step(t.(readEvents := [Data(count, true)] + more)) == Step(t.(readEvents := [Data(count, false)] + more))
  {
    hide EndTest, HeaderEnd, HeaderEnds, Env.Valid, Overlay;
    assert ([Data(count, true)] + more)[1..] == more == ([Data(count, false)] + more)[1..];
  }

  /** A chunk of a header section that makes the connection stop stays in the buffer, with all bytes before
      it, as what the next connection on the context will find. */
  lemma {:induction false} StoppingChunkStays(t: Task, start: nat, n: nat, got: nat)
    requires t.Sane() && t.phase == Header(start, n) && t.readEvents != [] && t.readEvents[0].Data?
    requires 0 < got == Min(t.readEvents[0].count, Min(8192 - n, |t.unread|))
    ensures var u := Step(t);
      && |u.buf| == 8192 && u.buf[..n + got] == t.buf[..n] + t.unread[..got] && u.unread == t.unread[got..]
      && (u.phase.Stopped? && !u.phase.why.Crashed? ==> u.have == n + got && u.curr == 0)
  {
    hide EndTest, Env.Valid, Step, HeaderEnd;
    HeaderStep(t, start, Receiving(t.buf, n, t.unread, t.readEvents, n));
  }

  /** The bytes of the block that are asked for: what is lacking of the body, 8192 at most. */
  ghost function Asked(req: Request): nat
    requires OwnsMore(req)
  {
    var lacking := req.headers["content-length"].n - |req.body|;
    if lacking <= 8192 then lacking else 8192
  }

  /** What `got` bytes do to a block that has `n`: whole, it goes to the body; late and short, the connection
      ends without it; else the block goes on. */
  ghost predicate BlockGets(u: Task, hdr: string, req: Request, n: nat, got: nat, late: bool)
    requires OwnsMore(req) && n + got <= Asked(req) && |u.buf| == 8192
  {
    if n + got < Asked(req) then u.phase == if late then Stopped(BodyTimeout) else Body(hdr, req, n + got)
    else
      var whole := req.(body := req.body + u.buf[..n + got]);
      u.phase == if |whole.body| < req.headers["content-length"].n then Body(hdr, whole, 0) else Requested(hdr, whole)
  }

  /** A chunk of a block. */
  lemma {:induction false} BlockChunk(t: Task, hdr: string, req: Request, n: nat, got: nat)
    requires t.Sane() && t.phase == Body(hdr, req, n) && t.readEvents != [] && t.readEvents[0].Data?
    requires 0 < got == Min(t.readEvents[0].count, Min(Asked(req) - n, |t.unread|))
    ensures var u := Step(t);
      && |u.buf| == 8192 && u.buf[..n + got] == t.buf[..n] + t.unread[..got]
      && u.unread == t.unread[got..] && u.readEvents == t.readEvents[1..]
      && BlockGets(u, hdr, req, n, got, t.readEvents[0].late)
  {
    hide Env.Valid, Step, Typed;
    BlockStep(t, hdr, req, Receiving(t.buf, n, t.unread, t.readEvents, n));
  }

  // ---- writes -----------------------------------------------------------------------------

  lemma {:induction false} FailedWriteStops(t: Task)
    requires t.Sane() && t.phase.Sending? && t.writeEvents != [] && t.writeEvents[0] == WriteFailed
    ensures Step(t) == t.(writeEvents := t.writeEvents[1..], phase := Stopped(SendFailed))
  {
    hide Env.Valid, KeepAlive;
  }

  lemma {:induction false} WrittenNothingStops(t: Task)
    requires t.Sane() && t.phase.Sending? && t.writeEvents != [] && t.writeEvents[0] == WroteNothing
    ensures Step(t) == t.(writeEvents := t.writeEvents[1..], phase := Stopped(NotSent))
  {
    hide Env.Valid, KeepAlive;
  }

  lemma {:induction false} WriteAgainWaits(t: Task)
    requires t.Sane() && t.phase.Sending? && t.writeEvents != []
    requires t.writeEvents[0] == WriteAgain || (t.writeEvents[0].Wrote? && t.writeEvents[0].count == 0)
    ensures Step(t) == t.(writeEvents := t.writeEvents[1..])
  {
    hide Env.Valid, KeepAlive;
  }

  /** Where the packet at hand ends: 8192 bytes of the response at most. */
  function PacketEnd(msg: string, pos: nat): nat
    requires pos <= |msg|
  {
    if |msg| - pos <= 8192 then |msg| else pos + 8192
  }

  /** A write: what it took is on the wire; late, and short of the packet, it ends the connection. */
  lemma {:induction false} WriteGoesOut(t: Task, hdr: string, req: Request, msg: string, pos: nat, count: nat, to: nat)
    requires t.Sane() && t.phase == Sending(hdr, req, msg, pos, count) && t.writeEvents != []
    requires t.writeEvents[0].Wrote? && t.writeEvents[0].count > 0
    requires to == pos + count + Min(t.writeEvents[0].count, PacketEnd(msg, pos) - pos - count)
    ensures pos + count < to <= PacketEnd(msg, pos)
    ensures Step(t) == t.(wire := t.wire + msg[pos + count..to], writeEvents := t.writeEvents[1..],
                          phase := if to < PacketEnd(msg, pos) then
                                     if t.writeEvents[0].late then Stopped(NotSent)
                                     else Sending(hdr, req, msg, pos, to - pos)
                                   else if to < |msg| then Sending(hdr, req, msg, to, 0)
                                   else Replied(req))
  {
    hide Env.Valid, KeepAlive;
    SliceOfSlice(msg, pos, PacketSize(msg, pos), count, to - pos);
  }

  /** After a response: on to the next request if the request is valid, does not ask to close, and asks to
      keep the connection alive or is not of version 1.0; else the connection ends. */
  lemma {:induction false} ReplyDecides(t: Task)
    requires t.Sane() && t.phase.Replied?
    ensures Step(t) == t.(phase := if GoesOn(t.phase.req) then Ready else Stopped(AskedToClose))
  {
    hide Env.Valid, KeepAlive, GoesOn;
    KeepAliveIs(t.phase.req);
  }

  // ---- runs -------------------------------------------------------------------------------

  /** How many of `all` are used up when `rest` are left. */
  function Used<T>(all: seq<T>, rest: seq<T>): int { |all| - |rest| }

  /** What the reads so far have been, and what has come of them: the peer's close ends the connection, as
      does a failure, and nothing else ends it that way. */
  ghost predicate ReadsExplain(all: seq<ReadEvent>, t: Task) {
    var k := Used(all, t.readEvents);
    && k >= 0 && t.readEvents == all[k..]
    && (forall i :: 0 <= i < k - 1 ==> all[i].Data? || all[i].ReadAgain?)
    && (t.phase == Stopped(LostPeer) <==> k > 0 && all[k - 1] == ReadClosed)
    && (t.phase == Stopped(RecvFailed) <==> k > 0 && all[k - 1] == ReadFailed)
    && (t.phase == Stopped(BodyTimeout) ==> k > 0 && all[k - 1].Data? && all[k - 1].late)
  }

  ghost predicate WritesExplain(all: seq<WriteEvent>, t: Task) {
    var k := Used(all, t.writeEvents);
    && k >= 0 && t.writeEvents == all[k..]
    && (forall i :: 0 <= i < k - 1 ==> all[i].Wrote? || all[i].WriteAgain?)
    && (t.phase == Stopped(SendFailed) <==> k > 0 && all[k - 1] == WriteFailed)
    && (k > 0 && all[k - 1] == WroteNothing ==> t.phase == Stopped(NotSent))
    && (t.phase == Stopped(NotSent) ==>
          k > 0 && (all[k - 1] == WroteNothing || (all[k - 1].Wrote? && all[k - 1].late)))
  }

  lemma {:induction false} NextUsed<T>(all: seq<T>, rest: seq<T>)
    requires Used(all, rest) >= 0 && rest == all[Used(all, rest)..] && rest != []
    ensures var k := Used(all, rest);
      Used(all, rest[1..]) == k + 1 && rest[1..] == all[k + 1..] && all[k] == rest[0]
  {
  }

  /** What a step comes to by the read it has used. */
  ghost predicate ReadLeads(e: ReadEvent, phase: Phase) {
    && (phase == Stopped(LostPeer) <==> e == ReadClosed)
    && (phase == Stopped(RecvFailed) <==> e == ReadFailed)
    && (phase == Stopped(BodyTimeout) ==> e.Data? && e.late)
  }

  predicate EndedByRead(phase: Phase) {
    phase.Stopped? && (phase.why.LostPeer? || phase.why.RecvFailed? || phase.why.BodyTimeout?)
  }

  lemma {:induction false} HeaderRead(s: string, t: Task)
    requires InLine(s, t) && t.phase.Header? && t.readEvents != []
    ensures Step(t).readEvents == t.readEvents[1..] && ReadLeads(t.readEvents[0], Step(t).phase)
  {
    hide InLine, Step, ReadOne, StepHeader, HeaderEnd;
    SaneOf(s, t);
    match t.readEvents[0]
    case ReadClosed => ClosedStops(s, t);
    case ReadFailed => FailureStops(t);
    case ReadAgain => NothingWaits(t);
    case Data(_, _) => HeaderChunk(t);
  }

  lemma {:induction false} HeaderChunk(t: Task)
    requires t.Sane() && t.phase.Header? && t.readEvents != [] && t.readEvents[0].Data?
    ensures Step(t).readEvents == t.readEvents[1..] && !EndedByRead(Step(t).phase)
  {
    hide EndTest, HeaderEnd, Env.Valid;
  }

  lemma {:induction false} BodyRead(t: Task)
    requires t.Sane() && t.phase.Body? && t.readEvents != []
    ensures Step(t).readEvents == t.readEvents[1..] && ReadLeads(t.readEvents[0], Step(t).phase)
  {
    hide EndTest, HeaderEnd, Env.Valid;
  }

  lemma {:induction false} NoRead(t: Task)
    requires t.Sane() && !(Receives(t) && t.readEvents != [])
    ensures Step(t).readEvents == t.readEvents
    ensures t.phase.Stopped? || EndedByRead(Step(t).phase) ==> Step(t) == t
  {
    hide HeaderEnd, Env.Valid, WriteOne, KeepAlive, ResponseBytes, ParseHead, MethodHasBody, Overlay;
  }

  lemma {:induction false} StepExplainsReads(all: seq<ReadEvent>, s: string, t: Task)
    requires InLine(s, t) && ReadsExplain(all, t)
    ensures ReadsExplain(all, Step(t))
  {
    hide InLine, Step;
    SaneOf(s, t);
    if Receives(t) && t.readEvents != [] {
      NextUsed(all, t.readEvents);
      if t.phase.Header? {
        HeaderRead(s, t);
      } else {
        BodyRead(t);
      }
    } else {
      NoRead(t);
    }
  }

  /** What a step comes to by the write it has used. */
  ghost predicate WriteLeads(e: WriteEvent, phase: Phase) {
    && (phase == Stopped(SendFailed) <==> e == WriteFailed)
    && (e == WroteNothing ==> phase == Stopped(NotSent))
    && (phase == Stopped(NotSent) ==> e == WroteNothing || (e.Wrote? && e.late))
  }

  lemma {:induction false} PacketWrite(t: Task)
    requires t.Sane() && t.phase.Sending? && t.writeEvents != []
    ensures Step(t).writeEvents == t.writeEvents[1..] && WriteLeads(t.writeEvents[0], Step(t).phase)
  {
    hide Step;
    match t.writeEvents[0]
    case WriteAgain => WriteAgainWaits(t);
    case WriteFailed => FailedWriteStops(t);
    case WroteNothing => WrittenNothingStops(t);
    case Wrote(most, _) =>
      if most == 0 {
        WriteAgainWaits(t);
      } else {
        var Sending(hdr, req, msg, pos, count) := t.phase;
        WriteGoesOut(t, hdr, req, msg, pos, count, pos + count + Min(most, PacketEnd(msg, pos) - pos - count));
      }
  }

  lemma {:induction false} NoWrite(t: Task)
    requires t.Sane() && !(t.phase.Sending? && t.writeEvents != [])
    ensures Step(t).writeEvents == t.writeEvents
    ensures t.phase.Stopped? || Step(t).phase == Stopped(SendFailed) || Step(t).phase == Stopped(NotSent) ==>
      Step(t) == t
  {
    hide HeaderEnd, Env.Valid, ReadOne, KeepAlive, ResponseBytes, ParseHead, MethodHasBody, Overlay, Typed;
  }

  lemma {:induction false} StepExplainsWrites(all: seq<WriteEvent>, t: Task)
    requires t.Sane() && WritesExplain(all, t)
    ensures WritesExplain(all, Step(t))
  {
    hide Step;
    if t.phase.Sending? && t.writeEvents != [] {
      NextUsed(all, t.writeEvents);
      PacketWrite(t);
    } else {
      NoWrite(t);
    }
  }

  lemma {:induction false} StepsExplain(s: string, t: Task, k: nat)
    requires InLine(s, t) && t.phase.Ready?
    ensures ReadsExplain(t.readEvents, Steps(t, k)) && WritesExplain(t.writeEvents, Steps(t, k))
  {
    hide InLine, Step, ReadsExplain, WritesExplain;
    if k == 0 {
      NothingUsed(t);
    } else {
      StepsExplain(s, t, k - 1);
      StepsKeep(s, t, k - 1);
      SaneOf(s, Steps(t, k - 1));
      StepExplainsReads(t.readEvents, s, Steps(t, k - 1));
      StepExplainsWrites(t.writeEvents, Steps(t, k - 1));
    }
  }

  lemma {:induction false} NothingUsed(t: Task)
    requires t.phase.Ready?
    ensures ReadsExplain(t.readEvents, t) && WritesExplain(t.writeEvents, t)
  {
  }

  /** At every point of every run the events of the socket explain where the handler stands: it is stopped
      by the peer's close exactly if the last read found it, by a failure exactly if the last read or
      write failed, and with a response cut off only by a write of nothing or a late one; before that
      there were only chunks and waits. */
  lemma {:induction false} EventsExplain(t: Task, u: Task)
    requires Startable(t) && Reaches(t, u)
    ensures ReadsExplain(t.readEvents, u) && WritesExplain(t.writeEvents, u)
  {
    hide InLine, Step, ReadsExplain, WritesExplain, Steps;
    StartsInLine(t);
    var k: nat :| Steps(t, k) == u;
    StepsExplain(StreamOf(t), t, k);
  }

  /** A finished run that waits for bytes has used up its reads, none of which found the connection closed
      or broken; and one that waits to write its writes. */
  lemma {:induction false} WaitersHaveNoEvents(t: Task)
    requires Startable(t)
    ensures Receives(Finish(t)) ==> forall e <- t.readEvents :: e.Data? || e.ReadAgain?
    ensures Finish(t).phase.Sending? ==> forall e <- t.writeEvents :: e.Wrote? || e.WriteAgain?
  {
    hide InLine, Step;
    var u := Finish(t);
    ReachesFinish(t);
    EventsExplain(t, u);
    StartsInLine(t);
    FinishKeeps(StreamOf(t), t);
    SaneOf(StreamOf(t), u);
  }

  // ---- whole operations -------------------------------------------------------------------

  lemma {:induction false} ReadOneEnds(x: Receiving, to: nat, bounded: bool, terminator: bool)
    requires x.events != [] && x.n < to <= |x.buf|
    ensures var (y, end) := ReadOne(x, to, bounded, terminator);
      && (end == Some(PeerClosed) <==> x.events[0] == ReadClosed)
      && (end == Some(IoEnd.Failed) <==> x.events[0] == ReadFailed)
      && (end == Some(TimedOut) ==> bounded && x.events[0].Data? && x.events[0].late)
  {
    hide EndTest, Overlay;
  }

  /** How a receive ends is explained by the event that ends it; all before were chunks and waits. */
  lemma {:induction false} ReceiveExplains(x: Receiving, to: nat, bounded: bool, terminator: bool)
    requires x.n <= to <= |x.buf|
    ensures var (y, end) := Receive(x, to, bounded, terminator);
      var k := Used(x.events, y.events);
      && k >= 0 && y.events == x.events[k..]
      && (forall i :: 0 <= i < k - 1 ==> x.events[i].Data? || x.events[i].ReadAgain?)
      && (end == PeerClosed <==> k > 0 && x.events[k - 1] == ReadClosed)
      && (end == IoEnd.Failed <==> k > 0 && x.events[k - 1] == ReadFailed)
      && (end == TimedOut ==> bounded && k > 0 && x.events[k - 1].Data? && x.events[k - 1].late)
    decreases |x.events|
  {
    hide ReadOne, Moved;
    if x.n != to && x.events != [] {
      ReadOneEnds(x, to, bounded, terminator);
      ReadOneMoves(x, to, bounded, terminator);
      MovedBounds(x, ReadOne(x, to, bounded, terminator).0, to);
      var (y, end) := ReadOne(x, to, bounded, terminator);
      if end.None? {
        ReceiveExplains(y, to, bounded, terminator);
      }
    }
  }

  /** How a send ends is explained by the event that ends it. */
  lemma {:induction false} TransmitExplains(packet: string, x: Transmitting, bounded: bool)
    requires x.count <= |packet|
    ensures var (y, end) := Transmit(packet, x, bounded);
      var k := Used(x.events, y.events);
      && k >= 0 && y.events == x.events[k..]
      && (forall i :: 0 <= i < k - 1 ==> x.events[i].Wrote? || x.events[i].WriteAgain?)
      && (end == PeerClosed <==> k > 0 && x.events[k - 1] == WroteNothing)
      && (end == IoEnd.Failed <==> k > 0 && x.events[k - 1] == WriteFailed)
      && (end == TimedOut ==> bounded && k > 0 && x.events[k - 1].Wrote? && x.events[k - 1].late)
    decreases |x.events|
  {
    if x.count != |packet| && x.events != [] {
      WriteOneSends(packet, x, bounded);
      var (y, end) := WriteOne(packet, x, bounded);
      if end.None? {
        TransmitExplains(packet, y, bounded);
      }
    }
  }
}
