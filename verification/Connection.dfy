/** The code of one connection: every function leads the handler from where it stands when it is called
    to where it stands when it returns. */
module Connection {
  import opened Bytes
  import opened Terminator
  import opened SocketIo
  import opened Message
  import opened Stream
  import opened Response
  import opened Handler
  import opened HandlerRuns
  import opened Progress
  import opened Loops

  datatype Received = Received(count: nat, end: IoEnd)

  class Conn {
    const recvBuf: array<char>
    var have: nat
    var curr: nat
    var isCompleted: bool

    // the socket, and what is left open of the responses
    var unread: string
    var readEvents: seq<ReadEvent>
    var wire: string
    var writeEvents: seq<WriteEvent>
    var env: Env

    // the requests delivered so far
    var served: seq<Request>

    // what the scheduler knows of the context, and where its coroutine has yielded
    var isActive: bool
    var phase: Phase
    var gen: nat

    ghost predicate Valid()
      reads this
    {
      recvBuf.Length == RECV_BUF_SIZE && curr <= have <= RECV_BUF_SIZE && env.Valid()
    }

    /** The connection with its coroutine at `phase`. */
    ghost function At(phase: Phase): (t: Task)
      reads this`have, this`curr, this`unread, this`readEvents, this`wire, this`writeEvents, this`served, this`env,
            recvBuf
      ensures t.phase == phase
    {
      Task(recvBuf[..], have, curr, unread, readEvents, wire, writeEvents, served, env, phase)
    }

    ghost function Now(): (t: Task)
      reads this`have, this`curr, this`unread, this`readEvents, this`wire, this`writeEvents, this`served, this`env,
            this`phase, recvBuf
      ensures t.phase == phase
    {
      At(phase)
    }

    ghost function Buffer(n: nat, last: nat): Receiving
      reads this, recvBuf
    {
      Receiving(recvBuf[..], n, unread, readEvents, last)
    }

    /** `others` is whatever else the coroutines of the worker share the heap with. */
    ghost predicate IsApartFrom(others: set<object>) {
      this !in others && recvBuf !in others
    }

    /** swap_to_main_ctx, seen by the connection that yields: by the time it is resumed, the other
        coroutines may have changed everything but the connection's own context.  It also stands for
        cond_swap_to_main_ctx, which may or may not yield. */
    method SwapToMainCtx(ghost others: set<object>)
      requires IsApartFrom(others)
      modifies others
    {
    }

    /** A context handed out for a new socket: memory and leftover are whatever the last connection
        on it left behind. */
    constructor (memory: seq<char>, have: nat, curr: nat, stream: string,
                 readEvents: seq<ReadEvent>, writeEvents: seq<WriteEvent>, env: Env)
      requires |memory| == RECV_BUF_SIZE && curr <= have <= RECV_BUF_SIZE && env.Valid()
      ensures Valid() && fresh(recvBuf) && !isCompleted
      ensures At(Ready) == NewTask(memory, have, curr, stream, readEvents, writeEvents, env)
    {
      recvBuf := new char[RECV_BUF_SIZE](i requires 0 <= i < |memory| => memory[i]);
      this.have, this.curr, this.isCompleted := have, curr, false;
      this.unread, this.readEvents := stream, readEvents;
      this.wire, this.writeEvents := "", writeEvents;
      this.env, this.served := env, [];
      this.isActive, this.phase, this.gen := true, Ready, 0;
      new;
      assert recvBuf[..] == memory;
    }

    /** alloc_conn_ctx_mem: a context that no connection has used. */
    constructor New()
      ensures fresh(recvBuf) && !isActive && !isCompleted && gen == 0
      ensures Now() == NewTask(seq(RECV_BUF_SIZE, _ => '\0'), 0, 0, "", [], [], Env(_ => "", _ => "", (_, _) => []))
    {
      recvBuf := new char[RECV_BUF_SIZE](_ => '\0');
      have, curr, isCompleted, unread, readEvents, wire, writeEvents := 0, 0, false, "", [], "", [];
      env, served, isActive, phase, gen := Env(_ => "", _ => "", (_, _) => []), [], false, Ready, 0;
      new;
      assert recvBuf[..] == seq(RECV_BUF_SIZE, _ => '\0');
    }

    /** init_new_conn_ctx: memory and leftover stay. */
    method Init(stream: string, readEvents: seq<ReadEvent>, writeEvents: seq<WriteEvent>, env: Env, gen: nat)
      modifies this
      ensures Now() == NewTask(old(recvBuf[..]), old(have), old(curr), stream, readEvents, writeEvents, env)
      ensures this.gen == gen && isActive && !isCompleted
    {
      unread, wire, served, phase := stream, "", [], Ready;
      this.readEvents, this.writeEvents, this.env, this.gen := readEvents, writeEvents, env, gen;
      isActive, isCompleted := true, false;
    }

    /** read(2) into the buffer at `at`; a count of zero stands for EAGAIN. */
    method Read(event: ReadEvent, at: nat, size: nat) returns (count: nat)
      requires event.Data? && at + size <= recvBuf.Length
      modifies this`unread, recvBuf
      ensures count == Min(event.count, Min(size, |old(unread)|))
      ensures unread == old(unread)[count..] && recvBuf[..] == Overlay(old(recvBuf[..]), at, old(unread)[..count])
      ensures count == 0 ==> recvBuf[..] == old(recvBuf[..])
    {
      count := Min(event.count, Min(size, |unread|));
      forall i | 0 <= i < count {
        recvBuf[at + i] := unread[i];
      }
      unread := unread[count..];
    }

    /** The body of the receive loop, for one event. */
    method ReadOnce(n: nat, to: nat, bounded: bool, terminator: bool) returns (m: nat, end: Option<IoEnd>)
      requires readEvents != [] && n < to <= recvBuf.Length
      modifies this`unread, this`readEvents, recvBuf
      ensures n <= m <= to && (Buffer(m, n), end) == ReadOne(old(Buffer(n, n)), to, bounded, terminator)
      ensures var event := old(readEvents)[0];
        && (event == ReadClosed <==> end == Some(PeerClosed)) && (event == ReadFailed <==> end == Some(Failed))
        && (event == ReadAgain ==> end == None && m == n)
    {
      hide EndTest, Overlay;
      m, end := n, None;
      var event := readEvents[0];
      readEvents := readEvents[1..];
      match event {
        case ReadAgain =>
        case ReadFailed => end := Some(Failed);
        case ReadClosed => end := Some(PeerClosed);
        case Data(_, late) =>
          var count := Read(event, n, to - n);
          if count > 0 {
            m := n + count;
            if terminator {
              var v := IsHttpMessageEnd(recvBuf, n, m);
              end := if v == Faults then Some(Faulted) else if v == Same then Some(Terminated) else None;
            }
            if end == None && bounded && late {
              end := Some(TimedOut);
            }
          }
      }
    }

    /** recv_from_curr_conn on the receive buffer. */
    method RecvFromCurrConn(ghost others: set<object>, toRecv: nat, nRecv: nat, bounded: bool, terminator: bool)
        returns (r: Received, last: nat)
      requires Valid() && nRecv + toRecv <= RECV_BUF_SIZE && !isCompleted
      requires IsApartFrom(others)
      modifies this`unread, this`readEvents, this`isCompleted, recvBuf, others
      ensures r.count <= toRecv
      ensures (Buffer(nRecv + r.count, last), r.end)
           == Receive(old(Buffer(nRecv, nRecv)), nRecv + toRecv, bounded, terminator)
      ensures isCompleted <==> r.end.Failed?
    {
      hide ReadOne;
      var n, to, end := nRecv, nRecv + toRecv, None;
      last := nRecv;
      ghost var start := Buffer(nRecv, nRecv);
      while n < to && end == None
        invariant Valid() && nRecv <= n <= to && (isCompleted <==> end == Some(Failed))
        invariant Receive(start, to, bounded, terminator)
               == if end.Some? then (Buffer(n, last), end.value) else Receive(Buffer(n, last), to, bounded, terminator)
        decreases end == None, |readEvents|
      {
        if readEvents == [] {
          return Received(n - nRecv, Blocked), last;
        }
        ReadOneAt(Buffer(n, last), to, bounded, terminator);
        last := n;
        n, end := ReadOnce(n, to, bounded, terminator);
        if end == Some(Failed) {
          isCompleted := true;
        } else if end == None && n == last {
          SwapToMainCtx(others);
        }
      }
      r := Received(n - nRecv, if end.Some? then end.value else Full);
    }

    /** memmove of the leftover to the front of the buffer. */
    method MoveLeftover(nCurr: nat, nHave: nat)
      requires nCurr <= nHave <= recvBuf.Length
      modifies recvBuf
      ensures recvBuf[..] == Overlay(old(recvBuf[..]), 0, old(recvBuf[nCurr..nHave]))
    {
      forall i | 0 <= i < nHave - nCurr {
        recvBuf[i] := recvBuf[nCurr + i];
      }
    }

    /** recv_http_hdr: it returns a header section, or the handler has stopped, or it still waits. */
    method RecvHttpHdr(ghost others: set<object>) returns (p: Phase)
      requires Valid() && !isCompleted && IsApartFrom(others)
      modifies this`have, this`curr, this`unread, this`readEvents, this`isCompleted, recvBuf, others
      ensures Valid() && Reaches(old(At(Ready)), At(p))
      ensures p.Headed? || p.Stopped? || (p.Header? && At(p).Stuck())
      ensures (isCompleted <==> p == Stopped(RecvFailed)) && p != Stopped(SendFailed)
    {
      hide Reaches, Step, Env.Valid, HeaderEnd, Overlay, BeginHeader, Task.Stuck;
      ghost var t := At(Ready);
      ReachesItself(t);
      ReachesNext(t, t);
      ReadyStep(t);
      if curr != have {
        var hdrSize := HeaderEnd(recvBuf[curr..have]);
        if hdrSize == 0 {
          var n := have - curr;
          if n == RECV_BUF_SIZE {
            // the memmove moves nothing, and a receive of no bytes returns at once
            return Stopped(HeaderTooLong);
          }
          MoveLeftover(curr, have);
          p := RecvRestOfHdr(others, n);
          ReachesFurther(t, Step(t), At(p));
        } else {
          p := Headed(recvBuf[curr..curr + hdrSize]);
          SliceHead(recvBuf, curr, have, hdrSize);
          curr := curr + hdrSize;
        }
      } else {
        p := RecvRestOfHdr(others, 0);
        ReachesFurther(t, Step(t), At(p));
      }
    }

    /** The receiving part of recv_http_hdr: `nHave` bytes without a terminator are at the front. */
    method RecvRestOfHdr(ghost others: set<object>, nHave: nat) returns (p: Phase)
      requires Valid() && !isCompleted && nHave < RECV_BUF_SIZE && IsApartFrom(others)
      modifies this`have, this`curr, this`unread, this`readEvents, this`isCompleted, recvBuf, others
      ensures Valid() && Reaches(old(At(Header(nHave, nHave))), At(p))
      ensures p.Headed? || p.Stopped? || (p.Header? && At(p).Stuck())
      ensures (isCompleted <==> p == Stopped(RecvFailed)) && p != Stopped(SendFailed)
    {
      hide Reaches, Step, Env.Valid, Receive, HeaderEnds, OwnsMore, Typed;
      ghost var t := At(Header(nHave, nHave));
      HeaderReceives(t, nHave, Buffer(nHave, nHave));
      ReceiveMoves(Buffer(nHave, nHave), RECV_BUF_SIZE, false, true);
      var r, last := RecvFromCurrConn(others, RECV_BUF_SIZE - nHave, nHave, false, true);
      if r.end.Blocked? {
        return Header(nHave, nHave + r.count);
      }
      p := EndOfHdr(nHave, nHave + r.count, last, r.end, Header(nHave, nHave));
    }

    /** The part behind the receive: only bytes that are in the buffer are searched again. */
    method EndOfHdr(start: nat, n: nat, last: nat, end: IoEnd, ghost p0: Phase) returns (p: Phase)
      requires n <= recvBuf.Length
      modifies this`have, this`curr
      ensures At(p) == HeaderEnds(old(At(p0)), start, old(Buffer(n, last)), end)
      ensures p.Headed? || (p.Stopped? && p != Stopped(SendFailed))
      ensures p == Stopped(RecvFailed) <==> end.Failed?
      ensures old(curr <= have <= RECV_BUF_SIZE) && n <= RECV_BUF_SIZE ==> curr <= have <= RECV_BUF_SIZE
    {
      hide HeaderEnd;
      assert recvBuf[..][..n] == recvBuf[..n];
      match end {
        case Failed => return Stopped(RecvFailed);
        case Faulted => return Stopped(Crashed(last, n));
        case _ =>
      }
      if n == start {
        return Stopped(WhyNoHeader(n, last, end));
      }
      var hdrSize := HeaderEnd(recvBuf[..n]);
      HeaderFits(recvBuf[..n]);
      have, curr := n, hdrSize;
      if hdrSize == 0 {
        return Stopped(WhyNoHeader(n, last, end));
      }
      assert recvBuf[..][..hdrSize] == recvBuf[..hdrSize];
      return Headed(recvBuf[..hdrSize]);
    }

    /** recv_http_msg: it returns a request, whole, or the handler has stopped, or it still waits. */
    method RecvHttpMsg(ghost others: set<object>) returns (req: HttpRequest?, p: Phase)
      requires Valid() && !isCompleted && IsApartFrom(others)
      modifies this`have, this`curr, this`unread, this`readEvents, this`isCompleted, recvBuf, others
      ensures Valid() && Reaches(old(At(Ready)), At(p))
      ensures p.Requested? || p.Stopped? || ((p.Header? || p.Body?) && At(p).Stuck())
      ensures p.Requested? <==> req != null
      ensures p.Requested? ==> fresh(req) && req.View() == p.req && Typed(p.req.headers)
      ensures (isCompleted <==> p == Stopped(RecvFailed)) && p != Stopped(SendFailed)
    {
      hide Reaches, Step, Env.Valid, ParseHead, MethodHasBody, Task.Stuck;
      ghost var t := At(Ready);
      p := RecvHttpHdr(others);
      if !p.Headed? {
        return null, p;
      }
      var hdr := p.hdr;
      ghost var t' := At(p);
      ReachesNext(t, t');
      HeadedStep(t', hdr);
      req := CreateAndParse(hdr);
      if req.error == StatusNone && MethodHasBody(MethodToken(hdr)) {
        p := RecvBody(others, req, hdr);
        ReachesFurther(t, t', At(p));
        if !p.Requested? {
          req := null;
        }
      } else {
        p := Requested(hdr, req.View());
      }
    }

    /** The leftover bytes of the body; a used-up buffer is empty again. */
    method TakeBodyLeftover(req: HttpRequest, ghost hdr: string, bodyLen: nat) returns (gotLen: nat)
      requires Valid() && req.body == "" && Typed(req.headers) && CONTENT_LENGTH in req.headers
      requires bodyLen == req.headers[CONTENT_LENGTH].n
      modifies this`have, this`curr, req`body
      ensures Valid() && gotLen == |req.body| <= bodyLen && req.View() == old(req.View()).(body := req.body)
      ensures At(if gotLen < bodyLen then Body(hdr, req.View(), 0) else Requested(hdr, req.View()))
           == TakeLeftover(old(At(Headed(hdr))), hdr, old(req.View()))
    {
      hide Env.Valid, Typed;
      gotLen := Min(have - curr, bodyLen);
      assert recvBuf[..][curr..curr + gotLen] == recvBuf[curr..curr + gotLen];
      assert "" + recvBuf[curr..curr + gotLen] == recvBuf[curr..curr + gotLen];
      ghost var t, r := At(Headed(hdr)), req.View();
      req.AppendBody(recvBuf[curr..curr + gotLen]);
      curr := curr + gotLen;
      if curr == have {
        have, curr := 0, 0;
      }
      assert req.View() == r.(body := t.buf[t.curr..t.curr + gotLen]);
    }

    /** The body part of recv_http_msg: leftover bytes first, then whole blocks from the socket. */
    method RecvBody(ghost others: set<object>, req: HttpRequest, hdr: string) returns (p: Phase)
      requires Valid() && !isCompleted && IsApartFrom(others) && req !in others
      requires req.View() == ParseHead(hdr) && req.error == StatusNone && MethodHasBody(MethodToken(hdr))
      modifies this`have, this`curr, this`unread, this`readEvents, this`isCompleted, recvBuf, req`body, others
      ensures Valid() && Reaches(old(At(Headed(hdr))), At(p))
      ensures p.Requested? || p.Stopped? || (p.Body? && At(p).Stuck())
      ensures p.Requested? ==> p.req == req.View() && Typed(p.req.headers)
      ensures (isCompleted <==> p == Stopped(RecvFailed)) && p != Stopped(SendFailed)
    {
      hide Reaches, Step, Env.Valid, ParseHead, MethodHasBody, Task.Stuck, TakeLeftover, BlockSize;
      ghost var t := At(Headed(hdr));
      BodyBegins(t, hdr);
      var bodyLen := req.headers[CONTENT_LENGTH].n;
      var gotLen := TakeBodyLeftover(req, hdr, bodyLen);
      while gotLen < bodyLen
        invariant Valid() && !isCompleted && gotLen == |req.body| <= bodyLen
        invariant Typed(req.headers) && CONTENT_LENGTH in req.headers && bodyLen == req.headers[CONTENT_LENGTH].n
        invariant Reaches(t, At(if gotLen < bodyLen then Body(hdr, req.View(), 0) else Requested(hdr, req.View())))
      {
        ghost var t' := At(Body(hdr, req.View(), 0));
        var whole;
        p, whole := RecvBlock(others, req, hdr);
        ReachesFurther(t, t', At(p));
        if !whole {
          return;
        }
        gotLen := |req.body|;
        SwapToMainCtx(others);
      }
      p := Requested(hdr, req.View());
    }

    /** One block of a body, received at the front of the empty buffer, within the timeout. */
    method RecvBlock(ghost others: set<object>, req: HttpRequest, hdr: string) returns (p: Phase, whole: bool)
      requires Valid() && !isCompleted && IsApartFrom(others) && req !in others && OwnsMore(req.View())
      modifies this`unread, this`readEvents, this`isCompleted, recvBuf, req`body, others
      ensures Valid() && Reaches(old(At(Body(hdr, req.View(), 0))), At(p))
      ensures whole ==> |old(req.body)| < |req.body| <= req.headers[CONTENT_LENGTH].n
      ensures whole ==>
        p == if |req.body| < req.headers[CONTENT_LENGTH].n then Body(hdr, req.View(), 0) else Requested(hdr, req.View())
      ensures !whole ==> p.Stopped? || (p.Body? && At(p).Stuck())
      ensures (isCompleted <==> p == Stopped(RecvFailed)) && p != Stopped(SendFailed)
    {
      hide Reaches, Step, Env.Valid, Receive;
      ghost var r0 := req.View();
      var bodyLen := req.headers[CONTENT_LENGTH].n;
      var toRecv := Min(bodyLen - |req.body|, RECV_BUF_SIZE);
      BlockReceives(At(Body(hdr, r0, 0)), hdr, r0, Buffer(0, 0));
      ReceiveMoves(Buffer(0, 0), toRecv, true, false);
      var r, last := RecvFromCurrConn(others, toRecv, 0, true, false);
      if r.end.Failed? {
        return Stopped(RecvFailed), false;
      } else if r.end.Blocked? {
        return Body(hdr, req.View(), r.count), false;
      }
      if r.count != toRecv {
        return Stopped(if r.end.PeerClosed? then LostPeer else BodyTimeout), false;
      }
      assert recvBuf[..][..toRecv] == recvBuf[..toRecv];
      req.AppendBody(recvBuf[..toRecv]);
      return if |req.body| < bodyLen then Body(hdr, req.View(), 0) else Requested(hdr, req.View()), true;
    }

    /** send_to_curr_conn: what was written so far is on the wire, once and in order. */
    method SendToCurrConn(ghost others: set<object>, msg: string, bounded: bool) returns (count: nat, end: IoEnd)
      requires !isCompleted && IsApartFrom(others)
      modifies this`wire, this`writeEvents, this`isCompleted, others
      ensures count <= |msg|
      ensures (Transmitting(count, wire, writeEvents), end)
           == Transmit(msg, old(Transmitting(0, wire, writeEvents)), bounded)
      ensures isCompleted <==> end.Failed?
    {
      count := 0;
      var sendEnded, sendTimeout := false, false;
      ghost var start := Transmitting(0, wire, writeEvents);
      while count < |msg| && !sendEnded && !sendTimeout
        invariant 0 <= count <= |msg| && !isCompleted
        invariant !sendEnded && !sendTimeout ==>
          Transmit(msg, start, bounded) == Transmit(msg, Transmitting(count, wire, writeEvents), bounded)
        invariant sendEnded || sendTimeout ==>
          Transmit(msg, start, bounded)
          == (Transmitting(count, wire, writeEvents), if sendEnded then PeerClosed else TimedOut)
        decreases |writeEvents| + (if sendEnded || sendTimeout then 0 else 1)
      {
        if writeEvents == [] {
          return count, Blocked;
        }
        var event := writeEvents[0];
        writeEvents := writeEvents[1..];
        match event {
          case WriteAgain =>
            SwapToMainCtx(others);
          case WriteFailed =>
            isCompleted := true;
            return count, Failed;
          case WroteNothing =>
            sendEnded := true;
          case Wrote(most, late) =>
            var n := Min(most, |msg| - count);
            if n > 0 {
              wire := wire + msg[count..count + n];
              count := count + n;
              if bounded {
                sendTimeout := late;
              }
            } else {
              SwapToMainCtx(others);
            }
        }
      }
      end := if sendEnded then PeerClosed else if sendTimeout then TimedOut else Full;
    }

    /** One packet of send_http_msg, from `pos`: whole, or nothing more of the message. */
    method SendPacket(ghost others: set<object>, msg: string, pos: nat, hdr: string, req: Request)
        returns (p: Phase, whole: bool)
      requires Valid() && !isCompleted && IsApartFrom(others) && pos < |msg| && Typed(req.headers)
      modifies this`wire, this`writeEvents, this`isCompleted, others
      ensures Valid() && Reaches(old(At(Sending(hdr, req, msg, pos, 0))), At(p))
      ensures whole ==> p == AfterPacket(hdr, req, msg, pos) && |writeEvents| < |old(writeEvents)|
      ensures whole ==> wire == old(wire) + msg[pos..pos + PacketSize(msg, pos)]
      ensures !whole ==> old(wire) <= wire < old(wire) + msg[pos..]
      ensures !whole ==> p == Stopped(SendFailed) || p == Stopped(NotSent) || (p.Sending? && At(p).Stuck())
      ensures isCompleted <==> p == Stopped(SendFailed)
    {
      hide Reaches, Step, Env.Valid, KeepAlive, Transmit, Typed, OwnsMore;
      var packet := msg[pos..pos + PacketSize(msg, pos)];
      ghost var t, start := At(Sending(hdr, req, msg, pos, 0)), Transmitting(0, wire, writeEvents);
      PacketTransmits(t, hdr, req, msg, pos, start);
      TransmitSends(packet, start, true);
      var count, end := SendToCurrConn(others, packet, true);
      PacketOnWire(start.wire, msg, pos, count);
      if end.Failed? {
        return Stopped(SendFailed), false;
      } else if end.Blocked? {
        return Sending(hdr, req, msg, pos, count), false;
      }
      if count != |packet| {
        return Stopped(NotSent), false;
      }
      return AfterPacket(hdr, req, msg, pos), true;
    }

    /** send_http_msg: in packets, stopping at the first one that does not go out whole.  The size of the
        message is returned exactly when all of it is on the wire. */
    method SendHttpMsg(ghost others: set<object>, msg: string, hdr: string, req: Request)
        returns (size: nat, p: Phase)
      requires Valid() && !isCompleted && IsApartFrom(others) && msg != "" && Typed(req.headers)
      modifies this`wire, this`writeEvents, this`isCompleted, others
      ensures Valid() && Reaches(old(At(Sending(hdr, req, msg, 0, 0))), At(p))
      ensures size > 0 ==> size == |msg| && wire == old(wire) + msg && |writeEvents| < |old(writeEvents)|
      ensures size > 0 ==> p == Replied(req)
      ensures size == 0 ==> old(wire) <= wire < old(wire) + msg
      ensures size == 0 ==> p == Stopped(SendFailed) || p == Stopped(NotSent) || (p.Sending? && At(p).Stuck())
      ensures isCompleted <==> p == Stopped(SendFailed)
    {
      hide Reaches, Step, Env.Valid, KeepAlive, Task.Stuck;
      ghost var t, before, script := At(Sending(hdr, req, msg, 0, 0)), wire, writeEvents;
      ReachesItself(t);
      var pos := 0;
      p := Sending(hdr, req, msg, 0, 0);
      while pos < |msg|
        invariant 0 <= pos <= |msg| && Valid() && !isCompleted && wire == before + msg[..pos]
        invariant |writeEvents| <= |script| && (pos > 0 ==> |writeEvents| < |script|)
        invariant Reaches(t, At(p))
        invariant p == if pos < |msg| then Sending(hdr, req, msg, pos, 0) else Replied(req)
      {
        ghost var t' := At(p);
        var whole;
        p, whole := SendPacket(others, msg, pos, hdr, req);
        ReachesFurther(t, t', At(p));
        assert msg[..pos] + msg[pos..] == msg;
        if !whole {
          return 0, p;
        }
        pos := pos + PacketSize(msg, pos);
        SwapToMainCtx(others);
      }
      assert msg[..pos] == msg;
      return |msg|, p;
    }

    /** handle_one_client_request: the next request is received and answered. */
    method HandleOneClientRequest(ghost others: set<object>) returns (p: Phase)
      requires Valid() && !isCompleted && IsApartFrom(others)
      modifies this`have, this`curr, this`unread, this`readEvents, this`wire, this`writeEvents, this`served,
               this`isCompleted, recvBuf, others
      ensures Valid() && Reaches(old(At(Ready)), At(p))
      ensures p.Ready? || p.Stopped? || At(p).Stuck()
      ensures p.Ready? ==> |writeEvents| < |old(writeEvents)|
      ensures isCompleted <==> p == Stopped(RecvFailed) || p == Stopped(SendFailed)
    {
      hide Reaches, Step, Env.Valid, KeepAlive, ResponseBytes, Task.Stuck;
      ghost var t := At(Ready);
      var req;
      req, p := RecvHttpMsg(others);
      if req == null {
        return;
      }
      var r := req.View();
      ghost var t' := At(p);
      ReachesNext(t, t');
      RequestedStep(t', p.hdr, r);
      var msg := SerializedResponse(r, env, |served|);
      NonEmptyResponse(r, env, |served|);
      served := served + [r];
      var size, q := SendHttpMsg(others, msg, p.hdr, r);
      ReachesFurther(t, Step(t'), At(q));
      if size <= 0 {
        return q;
      }
      ghost var t'' := At(q);
      ReachesNext(t, t'');
      RepliedStep(t'', r);
      var keep := WantKeepAlive(r);
      if !keep {
        return Stopped(AskedToClose);
      }
      SwapToMainCtx(others);
      return Ready;
    }

    /** handle_one_connection: requests are received and answered one by one until one fails or asks to
        close; then the connection is closed, unless the coroutine still waits, or is no more. */
    method HandleOneConnection(ghost others: set<object>) returns (p: Phase)
      requires Valid() && !isCompleted && IsApartFrom(others)
      modifies this`have, this`curr, this`unread, this`readEvents, this`wire, this`writeEvents, this`served,
               this`isCompleted, recvBuf, others
      ensures Valid() && At(p) == Finish(old(At(Ready)))
      ensures isCompleted <==> p.Stopped? && !p.why.Crashed?
    {
      hide Reaches, Step, Env.Valid, Task.Stuck;
      ghost var t := At(Ready);
      p := HandleOneClientRequest(others);
      while p.Ready?
        invariant Valid() && Reaches(t, At(p)) && (p.Ready? || p.Stopped? || At(p).Stuck())
        invariant isCompleted <==> p == Stopped(RecvFailed) || p == Stopped(SendFailed)
        decreases p.Ready?, |writeEvents|
      {
        ghost var t' := At(p);
        p := HandleOneClientRequest(others);
        ReachesFurther(t, t', At(p));
      }
      StoppedIsStuck(At(p));
      StuckIsFinish(t, At(p));
      if p.Stopped? && !p.why.Crashed? {
        isCompleted := true;
      }
    }

    // ---- one step, in place ---------------------------------------------------------------

    /** The coroutine goes on from where it has yielded to the next point where it can yield. */
    method Advance()
      requires Now().Sane()
      modifies this`have, this`curr, this`unread, this`readEvents, this`wire, this`writeEvents, this`served,
               this`phase, recvBuf
      ensures Now() == Step(old(Now()))
    {
      hide BeginHeader, StepHeader, TakeHeader, StepBody, Respond, StepSend, Env.Valid, KeepAlive;
      match phase {
        case Ready =>
          AdvanceReady();
        case Header(start, n) =>
          if readEvents != [] {
            AdvanceHeader(start, n);
          }
        case Headed(hdr) =>
          AdvanceHeaded(hdr);
        case Body(hdr, req, n) =>
          if readEvents != [] {
            AdvanceBody(hdr, req, n);
          }
        case Requested(hdr, req) =>
          AdvanceRequested(hdr, req);
        case Sending(hdr, req, msg, pos, count) =>
          if writeEvents != [] {
            AdvanceSending(hdr, req, msg, pos, count);
          }
        case Replied(req) =>
          var keep := WantKeepAlive(req);
          phase := if keep then Ready else Stopped(AskedToClose);
        case Stopped(_) =>
      }
    }

    method AdvanceReady()
      requires Now().Sane() && phase.Ready?
      modifies this`curr, this`phase, recvBuf
      ensures Now() == BeginHeader(old(Now()))
    {
      hide Env.Valid, HeaderEnd, Overlay;
      assert recvBuf[..][curr..have] == recvBuf[curr..have];
      if curr == have {
        phase := Header(0, 0);
        return;
      }
      var leftover := recvBuf[curr..have];
      var hdrSize := HeaderEnd(leftover);
      if hdrSize != 0 {
        curr := curr + hdrSize;
        phase := Headed(leftover[..hdrSize]);
      } else if |leftover| == RECV_BUF_SIZE {
        phase := Stopped(HeaderTooLong);
      } else {
        MoveLeftover(curr, have);
        phase := Header(|leftover|, |leftover|);
      }
    }

    method AdvanceHeader(start: nat, n: nat)
      requires Now().Sane() && phase == Header(start, n) && readEvents != []
      modifies this`have, this`curr, this`unread, this`readEvents, this`phase, recvBuf
      ensures Now() == StepHeader(old(Now()), start, n)
    {
      hide Env.Valid, HeaderEnd, ReadOne;
      var m, end := ReadOnce(n, RECV_BUF_SIZE, false, true);
      if end == None && m < RECV_BUF_SIZE {
        phase := Header(start, m);
      } else {
        phase := EndOfHdr(start, m, n, if end.Some? then end.value else Full, phase);
      }
    }

    method AdvanceHeaded(hdr: string)
      requires Now().Sane() && phase == Headed(hdr)
      modifies this`have, this`curr, this`phase
      ensures Now() == TakeHeader(old(Now()), hdr)
    {
      hide Env.Valid, ParseHead, MethodHasBody;
      TypedDispatch(hdr);
      var obj := CreateAndParse(hdr);
      var r := obj.View();
      if r.error != StatusNone || !MethodHasBody(r.meth) {
        phase := Requested(hdr, r);
        return;
      }
      var bodyLen := r.headers[CONTENT_LENGTH].n;
      var got := Min(have - curr, bodyLen);
      assert recvBuf[..][curr..curr + got] == recvBuf[curr..curr + got];
      var req := r.(body := recvBuf[curr..curr + got]);
      curr := curr + got;
      if curr == have {
        have, curr := 0, 0;
      }
      phase := if got < bodyLen then Body(hdr, req, 0) else Requested(hdr, req);
    }

    method AdvanceBody(hdr: string, req: Request, n: nat)
      requires Now().Sane() && phase == Body(hdr, req, n) && readEvents != []
      modifies this`unread, this`readEvents, this`phase, recvBuf
      ensures Now() == StepBody(old(Now()), hdr, req, n)
    {
      hide Env.Valid, ReadOne;
      var size := Min(req.headers[CONTENT_LENGTH].n - |req.body|, RECV_BUF_SIZE);
      var m, end := ReadOnce(n, size, true, false);
      assert recvBuf[..][..size] == recvBuf[..size];
      if end == None && m < size {
        phase := Body(hdr, req, m);
      } else if end == Some(Failed) {
        phase := Stopped(RecvFailed);
      } else if m != size {
        phase := Stopped(if end == Some(PeerClosed) then LostPeer else BodyTimeout);
      } else {
        var req' := req.(body := req.body + recvBuf[..size]);
        phase := if |req'.body| < req.headers[CONTENT_LENGTH].n then Body(hdr, req', 0) else Requested(hdr, req');
      }
    }

    method AdvanceRequested(hdr: string, req: Request)
      requires Now().Sane() && phase == Requested(hdr, req)
      modifies this`served, this`phase
      ensures Now() == Respond(old(Now()), hdr, req)
    {
      hide Env.Valid, ResponseBytes;
      var msg := SerializedResponse(req, env, |served|);
      served := served + [req];
      phase := Sending(hdr, req, msg, 0, 0);
    }

    method AdvanceSending(hdr: string, req: Request, msg: string, pos: nat, count: nat)
      requires Now().Sane() && phase == Sending(hdr, req, msg, pos, count) && writeEvents != []
      modifies this`wire, this`writeEvents, this`phase
      ensures Now() == StepSend(old(Now()), hdr, req, msg, pos, count)
    {
      hide Env.Valid, KeepAlive;
      var packet := msg[pos..pos + PacketSize(msg, pos)];
      WriteOneSends(packet, Transmitting(count, wire, writeEvents), true);
      var (x, end) := WriteOne(packet, Transmitting(count, wire, writeEvents), true);
      wire, writeEvents := x.wire, x.events;
      if end == None && x.count < |packet| {
        phase := Sending(hdr, req, msg, pos, x.count);
      } else if end == Some(Failed) {
        phase := Stopped(SendFailed);
      } else if x.count != |packet| {
        phase := Stopped(NotSent);
      } else if pos + |packet| < |msg| {
        phase := Sending(hdr, req, msg, pos + |packet|, 0);
      } else {
        phase := Replied(req);
      }
    }
  }

  /** The part of a packet that went out. */
  lemma {:induction false} PacketOnWire(before: string, msg: string, pos: nat, count: nat)
    requires pos < |msg| && count <= PacketSize(msg, pos)
    ensures var size := PacketSize(msg, pos); var wire := before + msg[pos..pos + size][0..count];
      && (count == size ==> wire == before + msg[pos..pos + size])
      && (count < size ==> before <= wire < before + msg[pos..])
  {
    var size := PacketSize(msg, pos);
    SliceOfSlice(msg, pos, size, 0, count);
    assert msg[pos..pos + count] == msg[pos..][..count];
  }

  /** Where the handler stands after a packet that went out whole. */
  function AfterPacket(hdr: string, req: Request, msg: string, pos: nat): Phase
    requires Typed(req.headers) && pos < |msg|
  {
    var next := pos + PacketSize(msg, pos);
    if next < |msg| then Sending(hdr, req, msg, next, 0) else Replied(req)
  }

  /** The next event does not depend on what the last one found. */
  lemma {:induction false} ReadOneAt(x: Receiving, to: nat, bounded: bool, terminator: bool)
    requires x.events != [] && x.n < to <= |x.buf|
    ensures ReadOne(x, to, bounded, terminator) == ReadOne(x.(last := x.n), to, bounded, terminator)
    ensures |ReadOne(x, to, bounded, terminator).0.events| < |x.events|
  {
    hide EndTest;
    ReadOneMoves(x, to, bounded, terminator);
  }

  lemma {:induction false} SliceHead(a: array<char>, i: nat, j: nat, k: nat)
    requires i + k <= j <= a.Length
    ensures a[i..j][..k] == a[i..i + k] && a[..][i..j] == a[i..j]
  {
  }

  lemma {:induction false} HeadedStep(t: Task, hdr: string)
    requires t.Sane() && t.phase == Headed(hdr)
    ensures var r := ParseHead(hdr);
      && Typed(r.headers) && r.body == "" && (r.IsOk() ==> r.meth == MethodToken(hdr))
      && (r.IsOk() && MethodHasBody(r.meth) ==> CONTENT_LENGTH in r.headers)
      && Step(t) == if r.IsOk() && MethodHasBody(r.meth) then TakeLeftover(t, hdr, r)
                    else t.(phase := Requested(hdr, r))
  {
    hide ParseHead, MethodHasBody, TakeLeftover;
    TypedDispatch(hdr);
  }

  lemma {:induction false} BodyBegins(t: Task, hdr: string)
    requires t.Sane() && t.phase == Headed(hdr)
    requires ParseHead(hdr).IsOk() && MethodHasBody(MethodToken(hdr))
    ensures var r := ParseHead(hdr);
      Typed(r.headers) && r.body == "" && CONTENT_LENGTH in r.headers && Reaches(t, TakeLeftover(t, hdr, r))
  {
    hide ParseHead, MethodHasBody, TakeLeftover, Reaches, Step;
    HeadedStep(t, hdr);
    ReachesItself(t);
    ReachesNext(t, t);
  }

  lemma {:induction false} RequestedStep(t: Task, hdr: string, req: Request)
    requires t.Sane() && t.phase == Requested(hdr, req)
    ensures Step(t) == t.(served := t.served + [req],
                          phase := Sending(hdr, req, ResponseBytes(req, t.env, |t.served|), 0, 0))
  {
    hide ResponseBytes;
  }

  lemma {:induction false} RepliedStep(t: Task, req: Request)
    requires t.Sane() && t.phase == Replied(req)
    ensures Step(t) == t.(phase := if KeepAlive(req) then Ready else Stopped(AskedToClose))
  {
    hide KeepAlive;
  }

  /** The Create and ParseRequestHeader steps of recv_http_msg. */
  method CreateAndParse(hdr: string) returns (req: HttpRequest)
    ensures fresh(req) && req.View() == ParseHead(hdr)
  {
    if |hdr| > MAX_HTTP_HDR_SIZE {
      req := new HttpRequest.Error(HeaderFieldsTooLarge);
      return;
    }
    req := new HttpRequest.Create(MethodToken(hdr));
    if req.error == StatusNone {
      req.ParseRequestHeader(hdr);
    }
  }

  /** MakeResponse, then Serialize. */
  method SerializedResponse(r: Request, env: Env, k: nat) returns (msg: string)
    requires Typed(r.headers) && env.Valid()
    ensures msg == ResponseBytes(r, env, k)
  {
    var resp := MakeResponseObject(r, env, k);
    msg := resp.Serialize(env.order(k, resp.headers));
  }

  /** A connection on a context whose memory and leftover are arbitrary: what handle_one_connection does
      is the run of the handler. */
  method RunConnection(memory: seq<char>, have: nat, curr: nat, stream: string, readScript: seq<ReadEvent>,
                       writeScript: seq<WriteEvent>, env: Env)
      returns (served: seq<Request>, wire: string, p: Phase)
    requires |memory| == RECV_BUF_SIZE && curr <= have <= RECV_BUF_SIZE && env.Valid()
    ensures var t := Finish(NewTask(memory, have, curr, stream, readScript, writeScript, env));
      served == t.served && wire == t.wire && p == t.phase
  {
    hide Env.Valid, Finish;
    var conn := new Conn(memory, have, curr, stream, readScript, writeScript, env);
    p := conn.HandleOneConnection({});
    served, wire := conn.served, conn.wire;
  }
}
