/** One receive or send operation on a socket, as a function of what each read or write comes back
    with. */
module SocketIo {
  import opened Bytes
  import opened Terminator

  /** What one read(2) on the socket comes back with.  `late` says whether the operation timeout
      has expired by then; Data on an empty stream is EAGAIN. */
  datatype ReadEvent = Data(count: nat, late: bool) | ReadAgain | ReadFailed | ReadClosed

  datatype WriteEvent = Wrote(count: nat, late: bool) | WriteAgain | WriteFailed | WroteNothing

  /** How a receive or send operation ends.  Blocked: the schedule is over while the coroutine waits
      to be resumed.  Failed: the connection was closed inside the operation, which never returns.
      Faulted: the process was killed inside it. */
  datatype IoEnd = Full | Terminated | PeerClosed | TimedOut | Failed | Blocked | Faulted

  // ---- receiving --------------------------------------------------------------------------

  /** A receive in progress: `n` bytes are in the buffer; the last event found `last` there. */
  datatype Receiving = Receiving(buf: string, n: nat, unread: string, events: seq<ReadEvent>, last: nat)

  function Overlay(b: string, at: nat, chunk: string): (r: string)
    requires at + |chunk| <= |b|
    ensures |r| == |b| && r[..at] == b[..at] && r[at..at + |chunk|] == chunk
    ensures r[..at + |chunk|] == b[..at] + chunk
  {
    b[..at] + chunk + b[at + |chunk|..]
  }

  /** The body of the receive loop, for the next event; the end of the operation if that was it. */
  ghost function ReadOne(x: Receiving, to: nat, bounded: bool, terminator: bool): (Receiving, Option<IoEnd>)
    requires x.events != [] && x.n < to <= |x.buf|
  {
    var y := x.(events := x.events[1..], last := x.n);
    match x.events[0]
    case ReadAgain => (y, None)
    case ReadFailed => (y, Some(Failed))
    case ReadClosed => (y, Some(PeerClosed))
    case Data(most, late) =>
      var count := Min(most, Min(to - x.n, |x.unread|));
      if count == 0 then (y, None)
      else
        var z := y.(buf := Overlay(x.buf, x.n, x.unread[..count]), n := x.n + count, unread := x.unread[count..]);
        (z, ChunkEnd(z, bounded && late, terminator))
  }

  /** Whether the chunk that has just been received ends the operation. */
  ghost function ChunkEnd(z: Receiving, late: bool, terminator: bool): Option<IoEnd>
    requires z.last <= z.n <= |z.buf|
  {
    if terminator && EndTest(z.buf, z.last, z.n) == Faults then Some(Faulted)
    else if terminator && EndTest(z.buf, z.last, z.n) == Same then Some(Terminated)
    else if late then Some(TimedOut)
    else None
  }

  /** recv_from_curr_conn. */
  ghost function Receive(x: Receiving, to: nat, bounded: bool, terminator: bool): (Receiving, IoEnd)
    requires x.n <= to <= |x.buf|
    decreases |x.events|
  {
    if x.n == to then (x, Full)
    else if x.events == [] then (x, Blocked)
    else
      var (y, end) := ReadOne(x, to, bounded, terminator);
      if end.Some? then (y, end.value) else Receive(y, to, bounded, terminator)
  }

  // ---- sending ----------------------------------------------------------------------------

  /** A send in progress: `count` bytes of the packet are on the wire. */
  datatype Transmitting = Transmitting(count: nat, wire: string, events: seq<WriteEvent>)

  /** The body of the send loop. */
  function WriteOne(packet: string, x: Transmitting, bounded: bool): (Transmitting, Option<IoEnd>)
    requires x.events != [] && x.count < |packet|
  {
    var y := x.(events := x.events[1..]);
    match x.events[0]
    case WriteAgain => (y, None)
    case WriteFailed => (y, Some(Failed))
    case WroteNothing => (y, Some(PeerClosed))
    case Wrote(most, late) =>
      var n := Min(most, |packet| - x.count);
      if n == 0 then (y, None)
      else (y.(count := x.count + n, wire := x.wire + packet[x.count..x.count + n]),
            if bounded && late then Some(TimedOut) else None)
  }

  /** send_to_curr_conn. */
  function Transmit(packet: string, x: Transmitting, bounded: bool): (Transmitting, IoEnd)
    requires x.count <= |packet|
    decreases |x.events|
  {
    if x.count == |packet| then (x, Full)
    else if x.events == [] then (x, Blocked)
    else
      var (y, end) := WriteOne(packet, x, bounded);
      if end.Some? then (y, end.value) else Transmit(packet, y, bounded)
  }

  // ---- what every operation keeps ---------------------------------------------------------

  /** Bytes move from the stream to the buffer, in order, and nowhere else. */
  ghost predicate Moved(x: Receiving, y: Receiving, to: nat) {
    && |y.buf| == |x.buf| && x.n <= y.n <= to <= |x.buf| && |y.unread| <= |x.unread|
    && y.buf[..y.n] + y.unread == x.buf[..x.n] + x.unread
    && y.buf[to..] == x.buf[to..]
  }

  lemma {:induction false} ChunkMoves(x: Receiving, to: nat, count: nat)
    requires x.n + count <= to <= |x.buf| && count <= |x.unread|
    ensures var buf := Overlay(x.buf, x.n, x.unread[..count]);
      Moved(x, x.(buf := buf, n := x.n + count, unread := x.unread[count..]), to)
  {
    assert x.unread == x.unread[..count] + x.unread[count..];
  }

  lemma {:induction false} ReadOneMoves(x: Receiving, to: nat, bounded: bool, terminator: bool)
    requires x.events != [] && x.n < to <= |x.buf|
    ensures var (y, end) := ReadOne(x, to, bounded, terminator);
      && Moved(x, y, to) && y.events == x.events[1..] && y.last == x.n
      && (end == None || end == Some(Failed) || end == Some(PeerClosed) || y.n > x.n)
      && end != Some(Full) && end != Some(Blocked)
  {
    hide EndTest;
    match x.events[0]
    case Data(most, late) => ChunkMoves(x, to, Min(most, Min(to - x.n, |x.unread|)));
    case _ => ChunkMoves(x, to, 0);
  }

  lemma {:induction false} MovedTwice(x: Receiving, y: Receiving, z: Receiving, to: nat)
    requires Moved(x, y, to) && Moved(y, z, to)
    ensures Moved(x, z, to)
  {
  }

  /** Conservation over a whole receive; it ends full exactly when it asked for no more. */
  lemma {:induction false} ReceiveMoves(x: Receiving, to: nat, bounded: bool, terminator: bool)
    requires x.n <= to <= |x.buf|
    ensures var (y, end) := Receive(x, to, bounded, terminator);
      && Moved(x, y, to) && (end.Full? ==> y.n == to)
      && (end.Blocked? ==> y.events == [] && y.n < to)
      && |y.events| <= |x.events| && y.events == x.events[|x.events| - |y.events|..]
    decreases |x.events|
  {
    hide ReadOne, Moved;
    if x.n == to || x.events == [] {
      ChunkMovesNot(x, to);
    } else {
      ReadOneMoves(x, to, bounded, terminator);
      var (y, end) := ReadOne(x, to, bounded, terminator);
      MovedBounds(x, y, to);
      if end.None? {
        ReceiveMoves(y, to, bounded, terminator);
        MovedTwice(x, y, Receive(y, to, bounded, terminator).0, to);
      }
    }
  }

  lemma {:induction false} ChunkMovesNot(x: Receiving, to: nat)
    requires x.n <= to <= |x.buf|
    ensures Moved(x, x, to)
  {
  }

  lemma {:induction false} MovedBounds(x: Receiving, y: Receiving, to: nat)
    requires Moved(x, y, to)
    ensures |y.buf| == |x.buf| && x.n <= y.n <= to <= |y.buf| && |y.unread| <= |x.unread|
  {
  }

  /** Bytes of the packet go out in order, each once. */
  ghost predicate Sent(packet: string, x: Transmitting, y: Transmitting) {
    x.count <= y.count <= |packet| && y.wire == x.wire + packet[x.count..y.count]
  }

  lemma {:induction false} WriteOneSends(packet: string, x: Transmitting, bounded: bool)
    requires x.events != [] && x.count < |packet|
    ensures var (y, end) := WriteOne(packet, x, bounded);
      && Sent(packet, x, y) && y.events == x.events[1..]
      && (end.Some? ==> end.value in {Failed, PeerClosed, TimedOut})
      && (end in {Some(Failed), Some(PeerClosed)} ==> y.count == x.count)
  {
  }

  lemma {:induction false} SentTwice(packet: string, x: Transmitting, y: Transmitting, z: Transmitting)
    requires Sent(packet, x, y) && Sent(packet, y, z)
    ensures Sent(packet, x, z)
  {
    assert packet[x.count..y.count] + packet[y.count..z.count] == packet[x.count..z.count];
  }

  /** A send puts a prefix of what is left of the packet on the wire; it is full exactly when it asks
      for no more. */
  lemma {:induction false} TransmitSends(packet: string, x: Transmitting, bounded: bool)
    requires x.count <= |packet|
    ensures var (y, end) := Transmit(packet, x, bounded);
      && Sent(packet, x, y) && (end.Full? ==> y.count == |packet|)
      && (end.Blocked? ==> y.events == [] && y.count < |packet|)
      && end in {Full, Blocked, Failed, PeerClosed, TimedOut}
      && (end.Failed? || end.PeerClosed? ==> y.count < |packet|)
      && (y.count > x.count ==> |y.events| < |x.events|)
      && |y.events| <= |x.events| && y.events == x.events[|x.events| - |y.events|..]
    decreases |x.events|
  {
    hide WriteOne;
    if x.count != |packet| && x.events != [] {
      WriteOneSends(packet, x, bounded);
      var (y, end) := WriteOne(packet, x, bounded);
      if end.None? {
        TransmitSends(packet, y, bounded);
        SentTwice(packet, x, y, Transmit(packet, y, bounded).0);
      }
    }
  }
}
