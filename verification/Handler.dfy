/** handle_one_connection as a machine.  A step is what the coroutine does for one event of its socket,
    or between two points where functions of the handler begin and return; so it can be resumed after
    every step. */
module Handler {
  import opened Bytes
  import opened SocketIo
  import opened Message
  import opened Stream
  import opened Response

  const SEND_PACKET_SIZE: nat := 8192

  /** Why a coroutine has run to its end. */
  datatype Stop =
    | HeaderTooLong                      // the buffer is full and holds no terminator
    | SpuriousEnd(prev: nat, n: nat)     // a window spilled when the n-th byte came after the prev-th
    | Crashed(prev: nat, n: nat)         // a window overran the buffer: the process is gone
    | LostPeer                           // the peer closed before the request was whole
    | BodyTimeout
    | RecvFailed
    | SendFailed
    | NotSent                            // the response was cut off
    | AskedToClose                       // answered, and the request does not keep the connection alive

  /** Where the coroutine stands, and the locals it has there.  `hdr` is the header section of the
      request at hand. */
  datatype Phase =
    | Ready                                               // at the head of its loop
    | Header(start: nat, n: nat)                          // receiving from `start`, `n` bytes in the buffer
    | Headed(hdr: string)                                 // recv_http_hdr has returned
    | Body(hdr: string, req: Request, n: nat)             // receiving a block, `n` bytes in the buffer
    | Requested(hdr: string, req: Request)                // recv_http_msg has returned
    | Sending(hdr: string, req: Request, msg: string, pos: nat, count: nat)  // a packet from `pos`
    | Replied(req: Request)                               // send_http_msg has put the whole response out
    | Stopped(why: Stop)

  /** A connection: its context's memory, its socket, what it has served, and its coroutine. */
  datatype Task = Task(
    buf: string, have: nat, curr: nat,
    unread: string, readEvents: seq<ReadEvent>, wire: string, writeEvents: seq<WriteEvent>,
    served: seq<Request>, env: Env, phase: Phase)
  {
    ghost predicate Sane() {
      && |buf| == RECV_BUF_SIZE && curr <= have <= RECV_BUF_SIZE && env.Valid()
      && match phase
         case Header(start, n) => start <= n < RECV_BUF_SIZE
         case Body(_, req, n) => OwnsMore(req) && n < BlockSize(req)
         case Requested(_, req) => Typed(req.headers)
         case Sending(_, req, msg, pos, count) =>
           Typed(req.headers) && pos < |msg| && count < PacketSize(msg, pos)
         case Replied(req) => Typed(req.headers)
         case _ => true
    }

    /** Nothing can happen until the socket has something new, if ever. */
    ghost predicate Stuck() {
      || !Sane() || phase.Stopped?
      || ((phase.Header? || phase.Body?) && readEvents == [])
      || (phase.Sending? && writeEvents == [])
    }
  }

  /** A parsed request that still lacks bytes of its body. */
  ghost predicate OwnsMore(req: Request) {
    && Typed(req.headers) && CONTENT_LENGTH in req.headers
    && |req.body| < req.headers[CONTENT_LENGTH].n
  }

  ghost function BlockSize(req: Request): nat
    requires OwnsMore(req)
  {
    Min(req.headers[CONTENT_LENGTH].n - |req.body|, RECV_BUF_SIZE)
  }

  function PacketSize(msg: string, pos: nat): nat
    requires pos < |msg|
  {
    Min(SEND_PACKET_SIZE, |msg| - pos)
  }

  // ---- recv_http_hdr ----------------------------------------------------------------------

  /** The leftover is searched, and moved to the front when a receive is needed. */
  ghost function BeginHeader(t: Task): Task
    requires t.Sane()
  {
    var leftover := t.buf[t.curr..t.have];
    var h := HeaderEnd(leftover);
    if leftover == "" then t.(phase := Header(0, 0))
    else if h != 0 then t.(curr := t.curr + h, phase := Headed(leftover[..h]))
    else if |leftover| == RECV_BUF_SIZE then t.(phase := Stopped(HeaderTooLong))
    else t.(buf := Overlay(t.buf, 0, leftover), phase := Header(|leftover|, |leftover|))
  }

  ghost function WithIo(t: Task, x: Receiving): Task {
    t.(buf := x.buf, unread := x.unread, readEvents := x.events)
  }

  ghost function StepHeader(t: Task, start: nat, n: nat): Task
    requires t.Sane() && t.phase == Header(start, n) && t.readEvents != []
  {
    var (x, end) := ReadOne(Receiving(t.buf, n, t.unread, t.readEvents, n), RECV_BUF_SIZE, false, true);
    if end.Some? then HeaderEnds(WithIo(t, x), start, x, end.value)
    else if x.n == RECV_BUF_SIZE then HeaderEnds(WithIo(t, x), start, x, Full)
    else WithIo(t, x).(phase := Header(start, x.n))
  }

  /** Why a receive that leaves `n` bytes in the buffer has no header section. */
  function WhyNoHeader(n: nat, last: nat, end: IoEnd): Stop {
    if n == RECV_BUF_SIZE then HeaderTooLong
    else if end.PeerClosed? then LostPeer
    else SpuriousEnd(last, n)
  }

  /** After the receive: only bytes in the buffer are searched again; if none came, the positions in
      the context stay as they were. */
  ghost function HeaderEnds(t: Task, start: nat, x: Receiving, end: IoEnd): Task
    requires x.n <= |t.buf|
  {
    if end.Failed? then t.(phase := Stopped(RecvFailed))
    else if end.Faulted? then t.(phase := Stopped(Crashed(x.last, x.n)))
    else if x.n == start then t.(phase := Stopped(WhyNoHeader(x.n, x.last, end)))
    else
      var h := HeaderEnd(t.buf[..x.n]);
      t.(have := x.n, curr := h,
         phase := if h == 0 then Stopped(WhyNoHeader(x.n, x.last, end)) else Headed(t.buf[..h]))
  }

  // ---- recv_http_msg ----------------------------------------------------------------------

  /** Parsing, and the share of the body that is in the buffer already. */
  ghost function TakeHeader(t: Task, hdr: string): Task
    requires t.Sane()
  {
    TypedDispatch(hdr);
    var r := ParseHead(hdr);
    if r.IsOk() && MethodHasBody(r.meth) then TakeLeftover(t, hdr, r)
    else t.(phase := Requested(hdr, r))
  }

  ghost function TakeLeftover(t: Task, hdr: string, r: Request): Task
    requires t.Sane() && Typed(r.headers) && CONTENT_LENGTH in r.headers
  {
    var bodyLen := r.headers[CONTENT_LENGTH].n;
    var got := Min(t.have - t.curr, bodyLen);
    var req := r.(body := t.buf[t.curr..t.curr + got]);
    var drained := t.curr + got == t.have;
    t.(have := if drained then 0 else t.have, curr := if drained then 0 else t.curr + got,
       phase := if got < bodyLen then Body(hdr, req, 0) else Requested(hdr, req))
  }

  ghost function StepBody(t: Task, hdr: string, req: Request, n: nat): Task
    requires t.Sane() && t.phase == Body(hdr, req, n) && t.readEvents != []
  {
    var size := BlockSize(req);
    var (x, end) := ReadOne(Receiving(t.buf, n, t.unread, t.readEvents, n), size, true, false);
    if end.Some? then BlockEnds(WithIo(t, x), hdr, req, size, x, end.value)
    else if x.n == size then BlockEnds(WithIo(t, x), hdr, req, size, x, Full)
    else WithIo(t, x).(phase := Body(hdr, req, x.n))
  }

  /** After the receive of a block: whole, or no request. */
  ghost function BlockEnds(t: Task, hdr: string, req: Request, size: nat, x: Receiving, end: IoEnd): Task
    requires OwnsMore(req) && size == BlockSize(req) <= |t.buf|
  {
    if end.Failed? then t.(phase := Stopped(RecvFailed))
    else if x.n != size then t.(phase := Stopped(if end.PeerClosed? then LostPeer else BodyTimeout))
    else
      var req' := req.(body := req.body + t.buf[..size]);
      t.(phase := if |req'.body| < req.headers[CONTENT_LENGTH].n then Body(hdr, req', 0) else Requested(hdr, req'))
  }

  // ---- send_http_msg ----------------------------------------------------------------------

  ghost function Respond(t: Task, hdr: string, req: Request): Task
    requires t.Sane() && Typed(req.headers)
  {
    t.(served := t.served + [req],
       phase := Sending(hdr, req, ResponseBytes(req, t.env, |t.served|), 0, 0))
  }

  ghost function StepSend(t: Task, hdr: string, req: Request, msg: string, pos: nat, count: nat): Task
    requires t.Sane() && t.phase == Sending(hdr, req, msg, pos, count) && t.writeEvents != []
  {
    var packet := msg[pos..pos + PacketSize(msg, pos)];
    var (x, end) := WriteOne(packet, Transmitting(count, t.wire, t.writeEvents), true);
    var t' := t.(wire := x.wire, writeEvents := x.events);
    if end.Some? then PacketEnds(t', hdr, req, msg, pos, x.count, end.value)
    else if x.count == |packet| then PacketEnds(t', hdr, req, msg, pos, x.count, Full)
    else t'.(phase := Sending(hdr, req, msg, pos, x.count))
  }

  /** After the send of a packet: only if it went out whole, the next one or the end of the response. */
  ghost function PacketEnds(t: Task, hdr: string, req: Request, msg: string, pos: nat, count: nat, end: IoEnd): Task
    requires Typed(req.headers) && pos < |msg|
  {
    var next := pos + PacketSize(msg, pos);
    if end.Failed? then t.(phase := Stopped(SendFailed))
    else if count != PacketSize(msg, pos) then t.(phase := Stopped(NotSent))
    else if next < |msg| then t.(phase := Sending(hdr, req, msg, next, 0))
    else t.(phase := Replied(req))
  }

  /** The end of handle_one_client_request: the next request, or none. */
  ghost function FinishRequest(t: Task, req: Request): Task
    requires Typed(req.headers)
  {
    t.(phase := if KeepAlive(req) then Ready else Stopped(AskedToClose))
  }

  // ---- steps ------------------------------------------------------------------------------

  ghost function Step(t: Task): Task {
    if t.Stuck() then t
    else
      match t.phase
      case Ready => BeginHeader(t)
      case Header(start, n) => StepHeader(t, start, n)
      case Headed(hdr) => TakeHeader(t, hdr)
      case Body(hdr, req, n) => StepBody(t, hdr, req, n)
      case Requested(hdr, req) => Respond(t, hdr, req)
      case Sending(hdr, req, msg, pos, count) => StepSend(t, hdr, req, msg, pos, count)
      case Replied(req) => FinishRequest(t, req)
  }

  lemma {:induction false} StoppedIsStuck(t: Task)
    ensures t.phase.Stopped? ==> t.Stuck()
  {
  }

  lemma {:induction false} StoppedStays(t: Task)
    requires t.phase.Stopped?
    ensures Step(t) == t
  {
  }

  ghost function Steps(t: Task, k: nat): Task {
    if k == 0 then t else Step(Steps(t, k - 1))
  }

  /** Some number of steps lead from `t` to `t'`. */
  ghost predicate Reaches(t: Task, t': Task) { exists k: nat :: Steps(t, k) == t' }

  lemma {:induction false} ReachesItself(t: Task)
    ensures Reaches(t, t)
  {
    assert Steps(t, 0) == t;
  }

  lemma {:induction false} ReachesNext(t: Task, t': Task)
    requires Reaches(t, t')
    ensures Reaches(t, Step(t'))
  {
    hide Step;
    var k: nat :| Steps(t, k) == t';
    assert Steps(t, k + 1) == Step(t');
  }

  lemma {:induction false} StepsAdd(t: Task, j: nat, k: nat)
    ensures Steps(Steps(t, j), k) == Steps(t, j + k)
  {
    hide Step;
    if k > 0 {
      StepsAdd(t, j, k - 1);
    }
  }

  lemma {:induction false} ReachesFurther(t: Task, t': Task, t'': Task)
    requires Reaches(t, t') && Reaches(t', t'')
    ensures Reaches(t, t'')
  {
    hide Step;
    var j: nat :| Steps(t, j) == t';
    var k: nat :| Steps(t', k) == t'';
    StepsAdd(t, j, k);
  }

  lemma {:induction false} ReadyStep(t: Task)
    requires t.Sane() && t.phase == Ready
    ensures var leftover := t.buf[t.curr..t.have];
      var h := HeaderEnd(leftover);
      && h <= |leftover|
      && Step(t) == if leftover == "" then t.(phase := Header(0, 0))
                    else if h != 0 then t.(curr := t.curr + h, phase := Headed(leftover[..h]))
                    else if |leftover| == RECV_BUF_SIZE then t.(phase := Stopped(HeaderTooLong))
                    else t.(buf := Overlay(t.buf, 0, leftover), phase := Header(|leftover|, |leftover|))
  {
    hide HeaderEnd, Overlay;
  }

  // ---- whole runs -------------------------------------------------------------------------

  function Rank(phase: Phase): nat {
    match phase
    case Replied(_) => 4
    case Ready => 3
    case Headed(_) => 2
    case Requested(_, _) => 1
    case _ => 0
  }

  ghost function Events(t: Task): nat { |t.readEvents| + |t.writeEvents| }

  /** Each step uses up an event or comes closer to waiting for one. */
  lemma {:induction false} StepProgresses(t: Task)
    requires !t.Stuck()
    ensures var t' := Step(t);
      Events(t') < Events(t) || (Events(t') == Events(t) && Rank(t'.phase) < Rank(t.phase))
  {
    hide ReadOne, WriteOne, HeaderEnd, Overlay, ParseHead, KeepAlive, MethodHasBody, ResponseBytes, Env.Valid, Typed;
    match t.phase
    case Header(start, n) =>
      ReadOneMoves(Receiving(t.buf, n, t.unread, t.readEvents, n), RECV_BUF_SIZE, false, true);
    case Body(_, req, n) =>
      ReadOneMoves(Receiving(t.buf, n, t.unread, t.readEvents, n), BlockSize(req), true, false);
    case Sending(_, _, msg, pos, count) =>
      WriteOneSends(msg[pos..pos + PacketSize(msg, pos)], Transmitting(count, t.wire, t.writeEvents), true);
    case _ =>
  }

  /** The run of a coroutine alone, until it has ended or waits with its schedule used up. */
  ghost function Finish(t: Task): Task
    decreases Events(t), Rank(t.phase)
  {
    if t.Stuck() then t
    else
      StepProgresses(t);
      Finish(Step(t))
  }
}
