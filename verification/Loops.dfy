/** The receive and send operations of the handler, as steps of it. */
module Loops {
  import opened Bytes
  import opened Terminator
  import opened SocketIo
  import opened Message
  import opened Stream
  import opened Response
  import opened Handler

  /** Where the handler stands after the receive of recv_http_hdr. */
  ghost function HeaderReceived(t: Task, start: nat, y: Receiving, end: IoEnd): Task
    requires y.n <= |y.buf|
  {
    if end.Blocked? then WithIo(t, y).(phase := Header(start, y.n)) else HeaderEnds(WithIo(t, y), start, y, end)
  }

  lemma {:induction false} PhaseForgotten(t: Task, x: Receiving, p: Phase, start: nat, y: Receiving, end: IoEnd)
    requires y.n <= |y.buf|
    ensures HeaderReceived(WithIo(t, x).(phase := p), start, y, end) == HeaderReceived(t, start, y, end)
  {
  }

  /** Receiving for a header section, step by step. */
  lemma {:induction false} HeaderReceives(t: Task, start: nat, x: Receiving)
    requires t.Sane() && t.phase == Header(start, x.n)
    requires x == Receiving(t.buf, x.n, t.unread, t.readEvents, x.last)
    ensures var (y, end) := Receive(x, RECV_BUF_SIZE, false, true);
      y.n <= RECV_BUF_SIZE == |y.buf| && Reaches(t, HeaderReceived(t, start, y, end))
    decreases |t.readEvents|
  {
    hide EndTest, HeaderEnds, Step, Env.Valid, ReadOne, Reaches;
    ReceiveMoves(x, RECV_BUF_SIZE, false, true);
    ReachesItself(t);
    if t.readEvents != [] {
      ReachesNext(t, t);
      HeaderStep(t, start, x);
      ReadOneMoves(x, RECV_BUF_SIZE, false, true);
      var (y, end) := ReadOne(x, RECV_BUF_SIZE, false, true);
      if end.None? && y.n < RECV_BUF_SIZE {
        HeaderReceives(Step(t), start, y);
        var (z, last) := Receive(y, RECV_BUF_SIZE, false, true);
        PhaseForgotten(t, y, Header(start, y.n), start, z, last);
        ReachesFurther(t, Step(t), HeaderReceived(t, start, z, last));
      }
    }
  }

  lemma {:induction false} HeaderStep(t: Task, start: nat, x: Receiving)
    requires t.Sane() && t.phase == Header(start, x.n) && t.readEvents != []
    requires x == Receiving(t.buf, x.n, t.unread, t.readEvents, x.last)
    ensures var (y, end) := ReadOne(x, RECV_BUF_SIZE, false, true);
      && y.n <= RECV_BUF_SIZE == |y.buf| && x.n <= y.n
      && Step(t) == (if end.Some? then HeaderEnds(WithIo(t, y), start, y, end.value)
                     else if y.n == RECV_BUF_SIZE then HeaderEnds(WithIo(t, y), start, y, Full)
                     else WithIo(t, y).(phase := Header(start, y.n)))
  {
    hide EndTest, HeaderEnds, Env.Valid, HeaderEnd, Overlay;
    ReadOneMoves(x, RECV_BUF_SIZE, false, true);
  }

  /** Where the handler stands after the receive of a block. */
  ghost function BlockReceived(t: Task, hdr: string, req: Request, y: Receiving, end: IoEnd): Task
    requires OwnsMore(req) && BlockSize(req) <= |y.buf|
  {
    if end.Blocked? then WithIo(t, y).(phase := Body(hdr, req, y.n))
    else BlockEnds(WithIo(t, y), hdr, req, BlockSize(req), y, end)
  }

  lemma {:induction false} BlockPhaseForgotten(t: Task, x: Receiving, p: Phase, hdr: string, req: Request, y: Receiving,
                                               end: IoEnd)
    requires OwnsMore(req) && BlockSize(req) <= |y.buf|
    ensures BlockReceived(WithIo(t, x).(phase := p), hdr, req, y, end) == BlockReceived(t, hdr, req, y, end)
  {
  }

  /** Receiving a block of a body, step by step. */
  lemma {:induction false} BlockReceives(t: Task, hdr: string, req: Request, x: Receiving)
    requires t.Sane() && t.phase == Body(hdr, req, x.n)
    requires x == Receiving(t.buf, x.n, t.unread, t.readEvents, x.last)
    ensures var (y, end) := Receive(x, BlockSize(req), true, false);
      BlockSize(req) <= |y.buf| && Reaches(t, BlockReceived(t, hdr, req, y, end))
    decreases |t.readEvents|
  {
    hide EndTest, BlockEnds, Step, Env.Valid, ReadOne, Reaches;
    var size := BlockSize(req);
    ReceiveMoves(x, size, true, false);
    ReachesItself(t);
    if t.readEvents != [] {
      ReachesNext(t, t);
      BlockStep(t, hdr, req, x);
      ReadOneMoves(x, size, true, false);
      var (y, end) := ReadOne(x, size, true, false);
      if end.None? && y.n < size {
        BlockReceives(Step(t), hdr, req, y);
        var (z, last) := Receive(y, size, true, false);
        BlockPhaseForgotten(t, y, Body(hdr, req, y.n), hdr, req, z, last);
        ReachesFurther(t, Step(t), BlockReceived(t, hdr, req, z, last));
      }
    }
  }

  lemma {:induction false} BlockStep(t: Task, hdr: string, req: Request, x: Receiving)
    requires t.Sane() && t.phase == Body(hdr, req, x.n) && t.readEvents != []
    requires x == Receiving(t.buf, x.n, t.unread, t.readEvents, x.last)
    ensures var (y, end) := ReadOne(x, BlockSize(req), true, false);
      && x.n <= y.n <= BlockSize(req) <= |y.buf| == RECV_BUF_SIZE
      && Step(t) == (if end.Some? then BlockEnds(WithIo(t, y), hdr, req, BlockSize(req), y, end.value)
                     else if y.n == BlockSize(req) then BlockEnds(WithIo(t, y), hdr, req, BlockSize(req), y, Full)
                     else WithIo(t, y).(phase := Body(hdr, req, y.n)))
  {
    hide EndTest, BlockEnds, Env.Valid, Overlay;
    ReadOneMoves(x, BlockSize(req), true, false);
  }

  ghost function WithWire(t: Task, x: Transmitting): Task {
    t.(wire := x.wire, writeEvents := x.events)
  }

  /** Where the handler stands after the send of a packet. */
  ghost function PacketSent(t: Task, hdr: string, req: Request, msg: string, pos: nat, x: Transmitting,
                            end: IoEnd): Task
    requires Typed(req.headers) && pos < |msg|
  {
    if end.Blocked? then WithWire(t, x).(phase := Sending(hdr, req, msg, pos, x.count))
    else PacketEnds(WithWire(t, x), hdr, req, msg, pos, x.count, end)
  }

  lemma {:induction false} PacketPhaseForgotten(t: Task, x: Transmitting, p: Phase, hdr: string, req: Request,
                                                msg: string, pos: nat, y: Transmitting, end: IoEnd)
    requires Typed(req.headers) && pos < |msg|
    ensures PacketSent(WithWire(t, x).(phase := p), hdr, req, msg, pos, y, end)
         == PacketSent(t, hdr, req, msg, pos, y, end)
  {
    hide KeepAlive;
  }

  /** Sending a packet, step by step. */
  lemma {:induction false} PacketTransmits(t: Task, hdr: string, req: Request, msg: string, pos: nat, x: Transmitting)
    requires t.Sane() && t.phase == Sending(hdr, req, msg, pos, x.count)
    requires x == Transmitting(x.count, t.wire, t.writeEvents)
    ensures var (y, end) := Transmit(msg[pos..pos + PacketSize(msg, pos)], x, true);
      Reaches(t, PacketSent(t, hdr, req, msg, pos, y, end))
    decreases |t.writeEvents|
  {
    hide PacketEnds, Step, Env.Valid, WriteOne, Reaches, KeepAlive;
    var packet := msg[pos..pos + PacketSize(msg, pos)];
    ReachesItself(t);
    if t.writeEvents != [] {
      ReachesNext(t, t);
      PacketStep(t, hdr, req, msg, pos, x);
      WriteOneSends(packet, x, true);
      var (y, end) := WriteOne(packet, x, true);
      if end.None? && y.count < |packet| {
        PacketTransmits(Step(t), hdr, req, msg, pos, y);
        var (z, last) := Transmit(packet, y, true);
        PacketPhaseForgotten(t, y, Sending(hdr, req, msg, pos, y.count), hdr, req, msg, pos, z, last);
        ReachesFurther(t, Step(t), PacketSent(t, hdr, req, msg, pos, z, last));
      }
    }
  }

  lemma {:induction false} PacketStep(t: Task, hdr: string, req: Request, msg: string, pos: nat, x: Transmitting)
    requires t.Sane() && t.phase == Sending(hdr, req, msg, pos, x.count) && t.writeEvents != []
    requires x == Transmitting(x.count, t.wire, t.writeEvents)
    ensures var packet := msg[pos..pos + PacketSize(msg, pos)];
      var (y, end) := WriteOne(packet, x, true);
      && x.count <= y.count <= |packet|
      && Step(t) == (if end.Some? then PacketEnds(WithWire(t, y), hdr, req, msg, pos, y.count, end.value)
                     else if y.count == |packet| then PacketEnds(WithWire(t, y), hdr, req, msg, pos, y.count, Full)
                     else WithWire(t, y).(phase := Sending(hdr, req, msg, pos, y.count)))
  {
    hide PacketEnds, KeepAlive;
    WriteOneSends(msg[pos..pos + PacketSize(msg, pos)], x, true);
  }
}
