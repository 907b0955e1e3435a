# An asynchronous HTTP server, modelled and proved

One worker process of the server multiplexes many connections with hand-written coroutines. This
project models the two parts that carry its hard properties, and ties them together.

**Framing and parsing over a persistent buffer.** Each connection has a receive buffer that
outlives its requests. Bytes arrive in arbitrary chunks, the header terminator is searched
incrementally, leftover bytes of pipelined requests are moved to the front, bodies are cut off by
Content-Length, headers are parsed into a typed map, and responses are formed, printed and sent in
partial writes.

- `Bytes`, `Lines`, `Message`: searches, header sections as lists of lines, the header map, the
  parser and the printer. `Verdicts` says what a header section is worth from its text alone. `Stream` is the reference definition: a pure function from a whole byte
  stream to the requests in it, which knows nothing of buffers, chunks or schedules. `Transcript`
  is the theory of such streams, from three laws.
- `Terminator` is the incremental search, in a buffer with its guard page behind it. `SocketIo` is
  one receive or send operation, as a function of what each read and write comes back with.
- `Handler` is `handle_one_connection` as a machine whose steps are what the coroutine does for one
  socket event. `HandlerRuns` proves that every step keeps the machine in line with `Stream`
  (`InLine`); `Progress` and `RunTheorems` say which schedules make it receive and answer
  everything, and draw the conclusions. `Outcomes` says what each event of the socket leads to, and what
  each end of a run has come from. `Examples` are concrete runs that show where the code
  differs from what it means.
- `Connection` is the code: a class with the buffer as an array. Each of its functions is proved to
  lead the machine from where it stands when the function is called to where it stands when it
  returns (`Loops` does so for the three loops over socket events), so `HandleOneConnection`
  computes exactly `Handler.Finish`. `Advance` is the same code cut at its yields: one step, in place.
- `RoundTrip` proves that receiving inverts printing. `Response` and `ResponseReader` form
  responses and split them again on the client's side; `Answers` is their text.

**The coroutine scheduler.** `QList` is the intrusive circular list on the heap. `Schedule` and
`ScheduleRuns` are the main loop as a state machine: accepting, resuming, reaping, the bounded
context cache, the active and inactive counters; a resumed coroutine does any number of steps of its
own machine. `Server` is the same on heap lists and heap connections, each operation proved to
compute its specification. A `conn_t` is a list link and a `Conn` object. `Fairness` is round robin,
said of the event log. `Closing` accounts for every accepted connection, and for the memory it starts on.

**Connection isolation.** `Server.Server.Coupled` keeps the memory of the connections pairwise
disjoint. What runs is the coroutine of `curr_conn`, on the memory of `curr_conn` and nothing else;
while it runs, all other contexts are apart from it (`Server.Server.CurrIsApart`), which is what
`Connection.Conn.HandleOneConnection` asks of the others whenever it yields. For every reachable state
of the scheduler, the projection onto a connection is a run of its own handler, on its own stream
(`Isolation.ConnectionIsolation`, and `Server.Server.HeapIsolation` on the heap), so all theorems about
runs hold of it in every interleaving. `Server.RunWorker` has the same states as the machine
(`ScheduleRuns.After`), turn by turn.

`gen` numbers the accepted connections, and `log`, `rounds`, `born` and `ended` record what
happened, so that properties of the past can be stated. None of them decides what the server does.

## Where the code differs from what it means

1. The windows of the terminator search can reach two bytes past the message
   (`srv_async/srv_conn_send_recv.c:36-40`). Before the end of the buffer they meet stale bytes; a
   window that matches thanks to them *spills*, and the connection is closed although its request
   could still be received: outcome `SpuriousEnd`, runs `Examples.SpuriousRun` and
   `Examples.OwnBytesSpill`, where the stale bytes are those of the connection's own last request. At
   the end of the buffer they meet the guard page (`srv_async/srv_conn_ctxt.c:43`); a window that agrees
   with the terminator up to there *overruns*, and the process is killed with all its connections:
   outcome `Crashed`, exact condition `Terminator.FaultIff`, run `Examples.GuardPageRun`. Both take a
   chunk of one or two bytes that ends inside a terminator. So chunk independence is false of the code
   in general. On a calm schedule that lasts, a run receives and answers everything and ends as its
   stream does if and only if it meets no such chunk (`RunTheorems.RunCompletes`). When every read comes
   back with at least three bytes where there are that many, it always receives and answers everything,
   and ends as its stream does unless the stream itself breaks off with CR or LF
   (`RunTheorems.WideRunCompletes`, `RunTheorems.ChunkIndependence`). A schedule is calm without errors
   and timeouts, and lasts when it delivers the whole stream and does not end in the middle of a
   response (`RunTheorems.CalmRunIf`, `Examples.OneReadDelivers`).
2. `init_new_conn_ctx` does not reset the leftover counters
   (`srv_async/srv_conn_ctxt.c:119-130`). A connection that is closed as asked leaves whatever was
   read behind its last request on its context (`Examples.LeftBehind`), and the next connection on
   that context is answered a request that its peer never sent (`Examples.NextOnContext`). One that
   stops in a header section leaves the bytes of that (`Outcomes.ClosedStops`,
   `Outcomes.StoppingChunkStays`), and the context closed last is the next one to be used
   (`Closing.ServeOutcome`, `Closing.AcceptOutcome`). Every
   theorem about a run is about leftover ++ stream; that this is the connection's own stream, for all
   streams, is equivalent to an empty leftover (`Examples.OwnStreamIffNoLeftover`).
3. An erroneous HEAD request is answered with a body
   (`srv_async/http/srv_http_response_msg.cpp:75-78`). A client that has sent a request takes exactly
   its response if and only if it is not an erroneous HEAD, where what counts is the method the client
   has sent: a HEAD section above 2048 bytes is refused before the server looks at its method
   (`ResponseReader.SelfDelimitingIff`, both kinds of input in `ResponseReader.ErroneousHeads`).
4. The status text table has 432 entries but is indexed at 500 and 501
   (`srv_async/http/srv_http_msg.cpp:55-73`), although its comment says that any status is a valid
   index. The status of a response is a valid index if and only if the request is erroneous or of class
   GET or HEAD (`Response.StatusIsIndex`); a POST request is answered 501
   (`Examples.PostIsBehindTable`). The text behind the end of the table is that which the code means to
   store there.

A test named "headers larger than RECV_BUF_SIZE return 431"
(`srv_async/plug_tests/run_http_tests.sh:118`) describes the code only up to 8192 bytes: a section
of 2049 to 8192 bytes gives 431, a longer one closes the connection without a response
(`RunTheorems.HeaderSizes`).

## What is left open in the model

Bytes are characters; nothing depends on their range. The schedule of read and write outcomes, with
a flag for an expired timeout on each, the Date, the iteration order of each header map, the text
of each page (non-empty, and of a size that fits a size_t, for all targets that fit a header section;
so pages may echo them), which allocations succeed, when connections arrive, when a coroutine's
activity changes, and the contents of recycled memory are all parameters, and every theorem holds
for all of them. `tolower` is that of the C locale. Sizes are unbounded integers where the code
cannot reach a bound, and the range of size_t is explicit where text is read into one. A run is
finite: when its schedule is over it stays where it waits.

`SearchBoundary`, `SearchChunk`, `RecvRestOfHdr`, `EndOfHdr`, `TakeBodyLeftover`, `RecvBody`,
`RecvBlock`, `SendPacket`, `ReadOnce`, `ParseFieldLines`, `ParseField`, `FillOne`, `RunCurrConn`, `NextTurn`,
`RunTurns`, `ServeInPass`, `Reap` and `RefillCache` are parts of source functions that have a contract
of their own here.

## Model

| member | source | states |
|---|---|---|
| `RunTheorems.RunCompletes` | srv_async/srv_conn_send_recv.c:51-102 | On every calm schedule that lasts, in chunks of any size and on any memory and leftover, a run delivers all requests of its stream, answers all of them and ends as the stream does, if and only if it never reads a chunk without an end of the header section that ends inside a terminator while a window over its start spills or overruns; such a chunk has one or two bytes. A schedule lasts when the run does not end waiting for bytes still to come or for a response to go out |
| `RunTheorems.WideRunCompletes` | srv_async/srv_conn_send_recv.c:51-102 | With reads of at least three bytes, on calm schedules that last, every stream is delivered and answered whole, and the run ends as the stream does unless that breaks off with CR or LF |
| `RunTheorems.ChunkIndependence` | srv_async/srv_conn_send_recv.c:51-102 | Two runs on the same bytes, cut into any chunks of at least three and on any memory, deliver the same requests, put the same bytes on the wire and end alike; the schedules need no more reads than chunks, and the peer may close at the end |
| `RunTheorems.CalmRunIf` | srv_async/srv_conn_send_recv.c:51-152 | A calm schedule with a write for each byte of the responses lasts when it delivers the whole stream, or has a read for each byte of it |
| `RunTheorems.NothingIsDropped` | srv_async/http/srv_http_send_recv.cpp:42-136 | Whenever receiving ends, by the close of the peer, an error, a timeout, a full buffer or a window gone astray, at any point of any schedule, exactly the requests among the bytes that had arrived are delivered, and all of them answered |
| `RunTheorems.FinishedRun` | srv_async/srv_routines.c:27-59 | Every run, under every schedule, stops or waits in line with the reference definition of its stream; the reason to stop fits what the stream says |
| `HandlerRuns.ServedIsPrefix` | srv_async/http/srv_http_send_recv.cpp:162-202 | At every point of every run what was delivered is a prefix of the requests of the stream, and the wire is a prefix of their responses |
| `RunTheorems.SchedulesExist` | srv_async/srv_conn_send_recv.c:51-102 | For every stream, memory and leftover there are calm schedules with a read for each byte and a write for each byte, all reads wide |
| `RunTheorems.PipelinedRun` | srv_async/http/srv_http_send_recv.cpp:42-136 | End to end: on what a pipelining client printed, in chunks of at least three bytes, exactly its requests are delivered and answered, and the server waits for more |
| `RunTheorems.HeaderSizes` | srv_async/http/srv_http_send_recv.cpp:50-95 | A header section of at most 2048 bytes is parsed, one of 2049 to 8192 bytes gives a 431 request, a longer one is refused |
| `RunTheorems.PersistenceAgreement` | srv_async/http/srv_http_response_msg.cpp:57-60 | At every point of every run all responses but the last say keep-alive, no request is delivered after one whose response says close, and the connection is closed as answered only after that one |
| `RunTheorems.ConnectionHeader` | srv_async/http/srv_http_response_msg.cpp:59-60 | The response says keep-alive exactly when the connection goes on |
| `HandlerRuns.StepKeeps` | srv_async/http/srv_http_send_recv.cpp:42-202 | Every step of the handler, on every event, keeps it in line with its stream: consumed bytes, buffered bytes and bytes to come are the stream, and what was delivered and sent is what they say |
| `HandlerRuns.KeepReady` | srv_async/http/srv_http_send_recv.cpp:50-56 | The search of the leftover and the memmove |
| `HandlerRuns.KeepHeader` | srv_async/http/srv_http_send_recv.cpp:57-83 | A chunk of a header section, and what recv_http_hdr makes of the bytes when the receive ends; without a section the arrived bytes hold no request, or a window spilled or overran |
| `HandlerRuns.KeepHeaded` | srv_async/http/srv_http_send_recv.cpp:91-118 | Parsing, and the share of the body that is in the buffer |
| `HandlerRuns.KeepBody` | srv_async/http/srv_http_send_recv.cpp:120-132 | A chunk of a body block: a request only when its body is whole, else the arrived bytes hold no further one |
| `HandlerRuns.KeepRequested` | srv_async/http/srv_http_send_recv.cpp:180 | The response to the request is what is going to be sent |
| `HandlerRuns.KeepSending` | srv_async/http/srv_http_send_recv.cpp:142-160 | A partial write: the wire is the earlier responses and a prefix of this one; the next request only after all of it |
| `HandlerRuns.KeepReplied` | srv_async/http/srv_http_send_recv.cpp:194-201 | After the whole response, and a yield behind its last packet: the next request or the close |
| `HandlerRuns.ReachesKeeps` | srv_async/http/srv_http_send_recv.cpp:162-202 | The invariant over any number of steps, so over whatever an interleaving lets the coroutine do |
| `HandlerRuns.StartsInLine` | srv_async/srv_conn_ctxt.c:119-130 | It holds of a connection that starts on leftover ++ stream |
| `Outcomes.EventsExplain` | srv_async/srv_conn_send_recv.c:59-149 | At every point of every run the events of the socket explain where the handler stands: it has stopped for the close of the peer exactly if the last read found it, for an error exactly if the last read or write failed, for a timeout only by a late chunk, with its response cut off only by a write of nothing or a late one; all events before were chunks and waits |
| `Outcomes.WaitersHaveNoEvents` | srv_async/srv_routines.c:42-58 | A finished run that waits for bytes has met no close and no error, and one that waits to write neither |
| `Outcomes.ClosedStops` | srv_async/srv_conn_send_recv.c:95-98 | A read of nothing ends the connection; the bytes of an unfinished header section stay behind as the leftover |
| `Outcomes.FailureStops` | srv_async/srv_conn_send_recv.c:76-83 | A failed read ends the connection |
| `Outcomes.NothingWaits` | srv_async/srv_conn_send_recv.c:60-75 | Where there is nothing to read the coroutine waits on, unchanged |
| `Outcomes.StoppingChunkStays` | srv_async/http/srv_http_send_recv.cpp:76-83 | A chunk of a header section that makes the connection stop stays in the buffer, with all bytes before it, as the leftover of the next connection on the context |
| `Outcomes.NoTimeoutInHeader` | srv_async/http/srv_http_send_recv.cpp:57-66 | A header section may come as late as it likes |
| `Outcomes.BlockChunk` | srv_async/http/srv_http_send_recv.cpp:120-130 | A chunk of a block of at most 8192 bytes: whole, it goes to the body; late and short, the connection ends; else the block goes on |
| `Outcomes.FailedWriteStops` | srv_async/srv_conn_send_recv.c:129-136 | A failed write ends the connection |
| `Outcomes.WrittenNothingStops` | srv_async/srv_conn_send_recv.c:145-148 | A write of nothing ends the connection |
| `Outcomes.WriteAgainWaits` | srv_async/srv_conn_send_recv.c:114-128 | Where nothing can be written the coroutine waits on, unchanged |
| `Outcomes.WriteGoesOut` | srv_async/srv_conn_send_recv.c:137-144 | What a write takes is on the wire; late and short of the packet of 8192 bytes, it ends the connection; else the packet, the next one or the end of the response follows |
| `Outcomes.ReplyDecides` | srv_async/http/srv_http_send_recv.cpp:194-201 | After a response the next request follows if the request is valid, no close occurs in its lowercased Connection value, and keep-alive occurs there or the version is not HTTP/1.0; else the connection ends |
| `Outcomes.ReceiveExplains` | srv_async/srv_conn_send_recv.c:59-101 | How a whole receive ends is explained by the event that ends it: Closed, Failed and late chunks, and nothing else |
| `Outcomes.TransmitExplains` | srv_async/srv_conn_send_recv.c:112-151 | And so for a whole send |
| `Handler.StepProgresses` | srv_async/http/srv_http_send_recv.cpp:162-202 | Each step uses up a socket event or comes closer to waiting for one, so every run is finite |
| `Progress.StepSupplies` | srv_async/srv_conn_send_recv.c:51-152 | On calm schedules every step makes progress: what is left of them suffices for the bytes still to come, and still to go, if it did before |
| `Progress.StuckIsComplete` | srv_async/http/srv_http_send_recv.cpp:162-202 | A run that can go no further, and does not wait for bytes still to come or for a response to go out, is complete and ends as its stream does, if and only if no window spilled or overran |
| `Progress.SupplyLasts` | srv_async/srv_conn_send_recv.c:51-152 | With enough writes no run ends while a response goes out, and with enough reads none waits for bytes still to come |
| `Progress.StepIsHarmless` | srv_async/srv_conn_send_recv.c:36-40 | With reads of at least three bytes a window spills or overruns only at the end of the stream or of the buffer |
| `Progress.StuckIsFinish` | srv_async/srv_routines.c:27-59 | A point where the coroutine can go no further is the end of its run, however it was interleaved |
| `Connection.RunConnection` | srv_async/srv_routines.c:27-59 | The code of a whole connection, on a context with arbitrary memory, leftover and schedules, does exactly the run of the machine |
| `Connection.Conn.HandleOneConnection` | srv_async/srv_routines.c:42-58 | The same for one context among others that change arbitrarily whenever it yields; the socket is closed exactly when the run has stopped, unless by a crash |
| `Connection.Conn.HandleOneClientRequest` | srv_async/http/srv_http_send_recv.cpp:162-202 | One request/response round leads from the head of the loop back to it, to a stop, or to where it waits |
| `Connection.Conn.RecvHttpMsg` | srv_async/http/srv_http_send_recv.cpp:85-136 | A request object with exactly the request of the machine, or none |
| `Connection.Conn.RecvHttpHdr` | srv_async/http/srv_http_send_recv.cpp:42-83 | The search of the leftover, the memmove and the receive lead to a header section, a stop or a wait |
| `Connection.Conn.RecvRestOfHdr` | srv_async/http/srv_http_send_recv.cpp:54-83 | The part after the search of the leftover |
| `Connection.Conn.EndOfHdr` | srv_async/http/srv_http_send_recv.cpp:60-83 | What becomes of the received bytes: the section, or why there is none |
| `Connection.Conn.MoveLeftover` | srv_async/http/srv_http_send_recv.cpp:54-56 | The memmove brings the leftover to the front and leaves the rest of the memory as it was |
| `Connection.Conn.TakeBodyLeftover` | srv_async/http/srv_http_send_recv.cpp:105-118 | The leftover share of the body; a used-up buffer is empty again |
| `Connection.Conn.RecvBody` | srv_async/http/srv_http_send_recv.cpp:103-132 | The refill loop, block by block |
| `Connection.Conn.RecvBlock` | srv_async/http/srv_http_send_recv.cpp:121-129 | One block of the body: whole, or no request |
| `Connection.Conn.RecvFromCurrConn` | srv_async/srv_conn_send_recv.c:51-102 | The loop computes the receive operation of its schedule |
| `Connection.Conn.ReadOnce` | srv_async/srv_conn_send_recv.c:60-98 | One event of it: a close ends the operation as such, so does a failure, a wait does nothing |
| `Connection.Conn.Read` | srv_async/srv_conn_send_recv.c:60 | A read writes a prefix of the unread stream behind what the buffer has, and nothing else |
| `Connection.Conn.SendToCurrConn` | srv_async/srv_conn_send_recv.c:104-152 | The loop computes the send operation of its schedule |
| `Connection.Conn.SendPacket` | srv_async/http/srv_http_send_recv.cpp:147-154 | One packet: whole, or the handler has stopped or waits |
| `Connection.Conn.SendHttpMsg` | srv_async/http/srv_http_send_recv.cpp:142-160 | The size is returned exactly when the whole message is on the wire; else a proper prefix of it is |
| `Connection.Conn.Advance` | srv_async/http/srv_http_send_recv.cpp:42-202 | The coroutine from one yield to the next, in place: one step of the machine |
| `Connection.Conn.constructor` | srv_async/srv_conn_ctxt.c:119-130 | A handed-out context has whatever memory and leftover bytes the last connection left |
| `Connection.Conn.Init` | srv_async/srv_conn_ctxt.c:119-130 | The new connection keeps the memory and the leftover of its context |
| `Connection.Conn.New` | srv_async/srv_conn_ctxt.c:30-66 | A new context has zeroed memory and no leftover |
| `Connection.CreateAndParse` | srv_async/http/srv_http_send_recv.cpp:91-100 | The object after the size test, Create and ParseRequestHeader is ParseHead of the header section |
| `Connection.SerializedResponse` | srv_async/http/srv_http_send_recv.cpp:180-181 | MakeResponse and Serialize on objects give the response bytes of the request |
| `Loops.HeaderReceives` | srv_async/srv_conn_send_recv.c:59-99 | Receiving for a header section is a run of single steps |
| `Loops.BlockReceives` | srv_async/srv_conn_send_recv.c:59-99 | So is receiving a block of a body |
| `Loops.PacketTransmits` | srv_async/srv_conn_send_recv.c:112-149 | And sending a packet |
| `SocketIo.ReceiveMoves` | srv_async/srv_conn_send_recv.c:51-102 | Conservation: bytes move from the stream to the buffer, in order, and nothing outside is touched, on every schedule; full means all that was asked for |
| `SocketIo.ReadOneMoves` | srv_async/srv_conn_send_recv.c:60-98 | The same for one event; it ends the operation without a byte only on an error or a close |
| `SocketIo.TransmitSends` | srv_async/srv_conn_send_recv.c:104-152 | A prefix of the packet goes out, each byte once and in order, under every schedule of partial writes, EAGAIN, errors and timeouts; full means all of it |
| `SocketIo.WriteOneSends` | srv_async/srv_conn_send_recv.c:113-148 | The same for one event |
| `Terminator.IsHttpMessageEnd` | srv_async/srv_conn_send_recv.c:18-49 | The three loops compute the test, faults included, and read no byte behind the buffer otherwise |
| `Terminator.SearchBoundary` | srv_async/srv_conn_send_recv.c:36-40 | The windows over the boundary between chunks, the widest first |
| `Terminator.SearchChunk` | srv_async/srv_conn_send_recv.c:43-46 | The search of the last chunk |
| `Terminator.Compare` | srv_async/srv_conn_send_recv.c:32-40 | strncmp stops at the first difference; it faults exactly when all bytes up to the end of the buffer agree |
| `Terminator.IncrementalSearch` | srv_async/srv_conn_send_recv.c:18-49 | If no terminator ended before the chunk, the test says yes exactly if the message has one or a window spilled, and faults exactly if it has none and a window overran the buffer |
| `Terminator.ExactUnlessSpill` | srv_async/srv_conn_send_recv.c:36-40 | The test is exact if and only if there is a terminator or no window spills or overruns; a spill takes a chunk of at most two bytes and the stale bytes that complete it |
| `Terminator.FaultIff` | srv_async/srv_conn_send_recv.c:36-40 | The search runs into the guard page if and only if the buffer ends in CR LF and its last byte begins the chunk, or it ends in CR LF CR and the chunk begins with one of its last two bytes |
| `Terminator.SpillExample` | srv_async/srv_conn_send_recv.c:36-40 | A message without a terminator, one stale byte, and the answer yes |
| `Examples.SpuriousRun` | srv_async/srv_conn_send_recv.c:36-40 | A run on a stale line feed, with a request cut behind its fifth byte: the connection is closed although the rest of the request can be read |
| `Examples.OwnBytesSpill` | srv_async/srv_conn_send_recv.c:36-40 | Two requests on one connection, on any memory, the second one cut behind its 16th and 17th byte: bytes the first one left in the buffer complete a window, and the second one is dropped |
| `Examples.PromptRun` | srv_async/srv_conn_send_recv.c:36-40 | In chunks of at least three bytes the same request is answered, on every memory |
| `Examples.GuardPageRun` | srv_async/srv_conn_ctxt.c:43 | 8192 bytes without a terminator that end in CR LF, the last one received alone: the process is killed; received at once they only close the connection |
| `Examples.GuardPageBytes` | srv_async/srv_conn_ctxt.c:43 | There are such bytes |
| `Examples.OneReadDelivers` | srv_async/srv_conn_send_recv.c:60 | A schedule that begins with one read of the whole stream delivers it, so it lasts if its writes do |
| `Examples.LeftBehind` | srv_async/srv_conn_ctxt.c:119-130 | For every text that a peer sends behind a request that closes, a run that leaves exactly that text on the context |
| `Examples.NextOnContext` | srv_async/srv_conn_ctxt.c:119-130 | The next connection on a context with a request left on it is answered that request, whatever its own peer sends |
| `Examples.OwnStreamIffNoLeftover` | srv_async/srv_conn_ctxt.c:119-130 | A connection on a handed-out context receives its own stream, for all streams, if and only if the context comes with no leftover bytes |
| `Examples.LeftoverShows` | srv_async/srv_conn_ctxt.c:119-130 | For every non-empty leftover, a stream that is received differently because of it |
| `Stream.NextMessage` | srv_async/http/srv_http_send_recv.cpp:85-136 | The reference definition: the message lies in the stream, is typed, and keeps the connection exactly as WantKeepAlive says |
| `Stream.FirstMessage` | srv_async/http/srv_http_send_recv.cpp:42-136 | The first message, read off the stream: the first terminator within 8192 bytes ends its section, and exactly a valid POST, PUT or PATCH owns as many bytes more as its length says |
| `Stream.KeepAliveIs` | srv_async/http/srv_http_request_msg.cpp:90-107 | When a connection goes on: the request is valid, no close occurs in its lowercased Connection value, and keep-alive occurs there or the version is not HTTP/1.0 |
| `Stream.Decided` | srv_async/http/srv_http_send_recv.cpp:72-95 | More bytes never change a message that is already decided |
| `Stream.OwnBytes` | srv_async/http/srv_http_send_recv.cpp:102-135 | A message is decided by its own bytes |
| `Stream.NextIsLawful` | srv_async/http/srv_http_send_recv.cpp:85-136 | Both laws and progress, for all streams: the theory of message streams applies |
| `Stream.OnlyLastCloses` | srv_async/http/srv_http_request_msg.cpp:90-107 | Only the last delivered request asks to close, and the stream is finished exactly when it does |
| `Stream.WantKeepAlive` | srv_async/http/srv_http_request_msg.cpp:90-107 | The searches decide exactly that |
| `HandlerRuns.MessageOf` | srv_async/http/srv_http_send_recv.cpp:91-109 | What a header section decides about the message: refused or body-less ones end with it, the others own Content-Length more bytes |
| `HandlerRuns.BodyLacking` | srv_async/http/srv_http_send_recv.cpp:120-126 | A stream cut inside a body holds no further message |
| `Transcript.ValuesOfPrefix` | srv_async/http/srv_http_send_recv.cpp:42-83 | The messages of a prefix of a stream are a prefix of its messages, and all of them once it has ended |
| `Transcript.AfterConsumed` | srv_async/http/srv_http_send_recv.cpp:76-77 | After the consumed messages the rest of the stream is on its own |
| `Transcript.Pause` | srv_async/http/srv_http_send_recv.cpp:42-83 | If the bytes that arrived hold no further message, what was delivered is all of theirs |
| `Message.ParserMeetsFraming` | srv_async/http/srv_http_request_msg.cpp:15-88 | On every section that ends at its first terminator no missing-CRLF branch is taken and the empty line comes once, last; the result is the declarative split into lines, with the first bad line deciding the error and the last line of a lowercased name the value; the lines before a rejected one stay stored |
| `Verdicts.SectionVerdict` | srv_async/http/srv_http_request_msg.cpp:15-88 | For every framed header section the request and its error, read off the text: 431 above 2048 bytes, 405 unless it begins with one of the six methods and a space, 400 unless the first line has three parts, the last one without spaces and beginning with HTTP/; then 413 or 400 by the first offending line, 411 for POST, PUT and PATCH without a length; class, method, target and version; and for every name, up to case, the value of its last good line |
| `Verdicts.LineVerdict` | srv_async/http/srv_http_request_msg.cpp:53-81 | A line is worth 413 exactly if it is a Content-Length of POST, PUT or PATCH whose text between spaces is a numeral above 33554432 and below 2^64; 400 exactly if it has no colon, or is a Content-Length of another method, or not a numeral below 2^64 |
| `Verdicts.FieldIs` | srv_async/http/srv_http_request_msg.cpp:54-61 | A line is a field exactly if it has a colon: its name is what is in front of the first one, up to case, and its value what is behind it, between spaces |
| `Verdicts.PartsOfLine` | srv_async/http/srv_http_request_msg.cpp:21-44 | A request line is accepted only if it has three non-empty parts: the method up to the first space, the version from the last one on |
| `Verdicts.LineOfParts` | srv_async/http/srv_http_request_msg.cpp:21-44 | And every line of three such parts is |
| `Verdicts.BodyMethods` | srv_async/http/srv_http_request_msg.cpp:110-147 | Exactly POST, PUT and PATCH own a body; six methods have a class |
| `Message.StoredByLastLine` | srv_async/http/srv_http_request_msg.cpp:75-80 | For every name the map holds what the last line with that lowercased name says |
| `Message.StoredBeforeBadLine` | srv_async/http/srv_http_request_msg.cpp:53-81 | Where a line is rejected, every name maps to what the last line before it with that name says |
| `Message.VerdictOfLines` | srv_async/http/srv_http_request_msg.cpp:46-87 | The error is that of the first offending line, else 411 for a body method without Content-Length; what offends is Verdicts.LineVerdict |
| `Message.TypedDispatch` | srv_async/http/srv_http_request_msg.cpp:62-88 | For every header section Content-Length is a size of at most 32 MiB and all else a string; a valid request has the class of its parsed method, and a Content-Length exactly for body methods |
| `Message.TokenIsMethod` | srv_async/http/srv_http_send_recv.cpp:31-37 | The first token of the section is the method of the request line whenever that parses |
| `Message.LineValue` | srv_async/http/srv_http_request_msg.cpp:62-80 | A size is stored for Content-Length and for nothing else, within the limit |
| `Message.HttpRequest.ParseRequestHeader` | srv_async/http/srv_http_request_msg.cpp:15-88 | Leaves the request that the specification of the parser gives |
| `Message.HttpRequest.ParseFieldLines` | srv_async/http/srv_http_request_msg.cpp:46-87 | The field loop and the check behind it; fields stored before an error stay |
| `Message.HttpRequest.ParseField` | srv_async/http/srv_http_request_msg.cpp:53-81 | One line: stored under its lowercased name, or exactly its error and nothing stored |
| `Message.HttpRequest.Create` | srv_async/http/srv_http_request_msg.cpp:126-141 | The object of the class of the method, or a 405 request |
| `Message.HttpRequest.Error` | srv_async/http/srv_http_msg.h:96-97 | An empty request with an error |
| `Message.HttpRequest.AddHeader` | srv_async/http/srv_http_msg.cpp:75-85 | Stores the value under the lowercased name and changes no other field |
| `Message.HttpRequest.AppendBody` | srv_async/http/srv_http_msg.h:71 | Appends to the body |
| `Message.HttpRequest.SetErrorCode` | srv_async/http/srv_http_msg.h:108 | Sets the error |
| `Message.HttpRequest.Serialize` | srv_async/http/srv_http_request_msg.cpp:150-157 | Prints the request line, the headers in map order, the empty line and the body |
| `Message.PrintHeadersAndBody` | srv_async/http/srv_http_msg.cpp:102-109 | The loop over the map prints one line a header, then the empty line and the body |
| `Lines.FramingOfSection` | srv_async/http/srv_http_send_recv.cpp:23-28 | Framing finds exactly the end of a printed section, whatever follows |
| `Lines.SectionOfFraming` | srv_async/http/srv_http_request_msg.cpp:46-83 | What framing cuts off is the print of its own lines, none empty but the last |
| `RoundTrip.HeaderRoundTrip` | srv_async/http/srv_http_request_msg.cpp:15-88 | Parsing the printed header section of a well-formed request rebuilds its request line and header map, in every order of the map |
| `RoundTrip.RequestRoundTrip` | srv_async/http/srv_http_send_recv.cpp:85-136 | Receiving a printed request, followed by anything, gives that request and stops at its last byte |
| `RoundTrip.PipelinedRoundTrip` | srv_async/http/srv_http_send_recv.cpp:42-136 | Any list of well-formed keep-alive requests printed back to back is received as exactly that list, with nothing left |
| `Bytes.HeaderEnd` | srv_async/http/srv_http_send_recv.cpp:23-28 | Zero exactly when there is no terminator, else just behind the first one |
| `Bytes.HeaderEndOfPrefix` | srv_async/http/srv_http_send_recv.cpp:72-74 | The first terminator of a stream is found in exactly the prefixes that contain it |
| `Bytes.LowerString` | srv_async/http/srv_http_msg.cpp:16-23 | The loop lowers every character |
| `Bytes.SearchCi` | srv_async/http/srv_http_msg.cpp:25-42 | contains_ci is a substring test on lowercased strings, false for an empty needle |
| `Bytes.TrimString` | srv_async/http/srv_http_msg.cpp:44-51 | The two loops compute TrimSpaces |
| `Bytes.TrimSpacesCuts` | srv_async/http/srv_http_msg.cpp:44-51 | Trimming cuts only spaces and leaves none outside |
| `Bytes.FromChars` | srv_async/http/srv_http_request_msg.cpp:66-74 | A value exactly when the text is a non-empty run of digits that fits a size_t; then it is the numeral |
| `Bytes.Decimal` | srv_async/http/srv_http_msg.cpp:104-107 | The printed size is the decimal numeral of the number |
| `Bytes.DecimalRoundTrip` | srv_async/http/srv_http_request_msg.cpp:66-77 | Reading a printed size gives it back, for all that fit a size_t |
| `Response.MakePageResponse` | srv_async/http/srv_http_response_msg.cpp:48-68 | The object filled header by header is the page response; for HEAD the Content-Length is that of the page left out |
| `Response.MakeErrorResponse` | srv_async/http/srv_http_response_msg.cpp:70-85 | The error page, with Allow for a 405 |
| `Response.MakeResponseObject` | srv_async/http/srv_http_request_msg.cpp:159-177 | The object is the answer to the request, with status, page, body and headers as Response.AnswerOf says |
| `Response.AnswerOf` | srv_async/http/srv_http_response_msg.cpp:48-85 | What a request is answered: GET and HEAD of / and /index.html 200 with the main page, of anything else 404 with the page that echoes it; POST, PUT, DELETE and PATCH 501 with their page; an erroneous request its own error with the error page; the body is left out exactly for a valid HEAD; the header map is exactly Date, Server, Connection by the rule above, Content-Type, Content-Length of the page, and Allow exactly for 405 |
| `Answers.AnswerBytes` | srv_async/http/srv_http_response_msg.cpp:89-97 | The answer on the wire: the first line with the code and the reason of its status, one line a header in some order, the empty line, the body |
| `Answers.CodeWords` | srv_async/http/srv_http_msg.cpp:55-73 | The code and the reason of each status as they are read |
| `Response.HttpResponse.Serialize` | srv_async/http/srv_http_response_msg.cpp:89-97 | Prints the status line, the headers in map order, the empty line and the body |
| `Response.HttpResponse.constructor` | srv_async/http/srv_http_msg.h:204-205 | A response with a status and nothing else |
| `Response.HttpResponse.AddHeader` | srv_async/http/srv_http_msg.cpp:75-85 | Stores the value under the lowercased name |
| `Response.HttpResponse.SetBody` | srv_async/http/srv_http_msg.h:70 | Sets the body |
| `Response.NonEmptyResponse` | srv_async/http/srv_http_send_recv.cpp:181 | A response is never empty, so a result of zero always means not sent |
| `Response.EchoIsValid` | srv_async/http/srv_http_request_get.cpp:21-24 | The pages of the server, which echo the target between two texts, are among those the theorems speak of |
| `Response.EnvExists` | srv_async/http/srv_http_response_msg.cpp:48-97 | What the theorems about responses assume of pages, dates and map orders can be met |
| `Response.ParsedTargetFits` | srv_async/http/srv_http_request_msg.cpp:21-44 | The target of a parsed request fits a header section |
| `Response.StatusIsIndex` | srv_async/http/srv_http_msg.cpp:55-73 | The status of the response to any section and body is a valid index of the table of texts if and only if the request is erroneous, or of class GET or HEAD |
| `Examples.PostIsBehindTable` | srv_async/http/srv_http_msg.cpp:55-73 | A POST request that is answered with a status behind the end of the table |
| `ResponseReader.SelfDelimitingIff` | srv_async/http/srv_http_response_msg.cpp:70-85 | A client that has sent a header section and a body, and reads to the first terminator and then Content-Length bytes unless it sent HEAD, takes exactly the response, whatever follows, if and only if it did not send an erroneous HEAD request |
| `ResponseReader.ErroneousHeads` | srv_async/http/srv_http_send_recv.cpp:91-100 | Two HEAD requests that fail: one without a request line, a 400 of class HEAD; one above 2048 bytes, a 431 of the base class |
| `ResponseReader.ResponsesSplitUniquely` | srv_async/http/srv_http_response_msg.cpp:48-97 | The responses to any list of valid requests are split into exactly those responses, for every header order and every echoed target |
| `ResponseReader.ResponseHeadersAreClean` | srv_async/http/srv_http_response_msg.cpp:57-65 | No header of any response can break the framing |
| `ResponseReader.HeadMirrorsGet` | srv_async/http/srv_http_request_get.cpp:11-32 | A HEAD response has the status and header map of the GET response up to Date, and no body |
| `QList.List.constructor` | srv_async/srv_qlist.h:11-15 | An empty ring |
| `QList.List.IsEmpty` | srv_async/srv_qlist.h:17-18 | True exactly for no items |
| `QList.List.First` | srv_async/srv_qlist.h:26-27 | The first item, or the head of an empty list |
| `QList.List.Next` | srv_async/srv_qlist.h:23-24 | The item behind, or the head behind the last |
| `QList.List.AddHead` | srv_async/srv_qlist.h:32-39 | Prepends to the sequence of items and keeps the ring |
| `QList.List.AddTail` | srv_async/srv_qlist.h:41-48 | Appends to the sequence of items and keeps the ring |
| `QList.List.DelEntry` | srv_async/srv_qlist.h:50-58 | Removes the item from the sequence, keeps the ring and clears the links of the item |
| `QList.ForeachSafe` | srv_async/srv_qlist.h:65-70 | Every entry present at the start is visited once, in order, and the list keeps exactly the entries not taken off, for every choice of entries the body moves to another list |
| `QList.VisitEntry` | srv_async/srv_routines.c:160-167 | One turn of that loop, with the saved successor still the next entry |
| `Isolation.ConnectionIsolation` | srv_async/srv_conn_ctxt.c:229-259 | In every state that keeps the invariants, of the machine or of the heap server, each queued connection is at a point of the run of its own handler on its own stream, and each closed one has done exactly that run to its end, whatever the others did; the process is gone exactly when a queued one has crashed |
| `Isolation.RunsAreIsolated` | srv_async/srv_routines.c:120-167 | So it is at every loop head of every run |
| `Closing.AllAccounted` | srv_async/srv_routines.c:120-167 | At every loop head of every run no queued handler has stopped, unless by a crash; every accepted connection is queued, or has ended and its socket is closed; the g-th one began on what the g-th peer brought, in memory that was new or exactly what one closed connection had left |
| `Closing.ServeOutcome` | srv_async/srv_routines.c:161-166 | A resumption does the steps of its handler and nothing else; once that has stopped, for whatever reason but a crash, the socket is closed and the connection reaped before the next one is resumed, and its context goes to the head of the cache, memory and all, or is freed if there are 300 |
| `Closing.AcceptOutcome` | srv_async/srv_conn_ctxt.c:92-143 | Accepting fails exactly when no context can be had; else the connection is at the head of the queue, active and at its beginning, on the context that was cached last, with its memory as it is, or on a new one |
| `Closing.RunIsTraced` | srv_async/srv_routines.c:120-167 | The invariant behind the three |
| `Closing.ActTraces` | srv_async/srv_conn_ctxt.c:173-199 | Everything a running coroutine does keeps it: completed means stopped and recorded |
| `Isolation.IterateKeepsOwn` | srv_async/srv_routines.c:120-167 | Every turn of the main loop keeps that |
| `Isolation.ServeKeepsOwn` | srv_async/srv_routines.c:161-166 | So do a resumption and the reaping behind it |
| `Isolation.DoActKeepsOwn` | srv_async/srv_conn_ctxt.c:173-199 | And each thing a running coroutine does |
| `Isolation.TakeKeepsOwn` | srv_async/srv_conn_ctxt.c:119-143 | A new connection starts on its own stream and on the memory of its context |
| `Server.Server.CurrIsApart` | srv_async/srv_conn_ctxt.c:248-259 | While one connection runs, all memory of the others is apart from its own |
| `Fairness.FairOverLog` | srv_async/srv_routines.c:160-167 | Round robin in the log of every state that keeps the invariants, of the machine or of the heap server: between two consecutive resumptions of a connection, every other connection that is live over that span is resumed exactly once |
| `Fairness.RunsAreFair` | srv_async/srv_routines.c:120-167 | So it is at every loop head of every run |
| `Fairness.ConsecutivePasses` | srv_async/srv_routines.c:160-167 | Two consecutive resumptions of a connection are in consecutive passes |
| `ScheduleRuns.LoopHead` | srv_async/srv_routines.c:120-167 | Over all runs, at every loop head: every allocated, unfreed context is in exactly one of queue and cache, the counters are the numbers they count, allocated minus freed is their total, the cache is within 300, no queued connection is completed, no socket is closed twice, no closed connection is resumed, and the passes have been fair |
| `ScheduleRuns.IterateKeepsInv` | srv_async/srv_routines.c:120-167 | Every turn of the main loop keeps the invariant and extends a fair history |
| `ScheduleRuns.PassKeepsInv` | srv_async/srv_routines.c:160-167 | A pass keeps the invariant and leaves the connections not completed, in order |
| `ScheduleRuns.PassLog` | srv_async/srv_routines.c:160-161 | A pass resumes exactly the queued connections, once each, in order |
| `ScheduleRuns.CreateKeepsInv` | srv_async/srv_conn_ctxt.c:261-279 | Accepting keeps the invariant; it fails exactly when the cache is empty and nothing can be allocated |
| `ScheduleRuns.FillKeepsInv` | srv_async/srv_conn_ctxt.c:74-90 | Filling an empty cache keeps the invariant |
| `ScheduleRuns.TakeKeepsInv` | srv_async/srv_conn_ctxt.c:92-143 | Moving a cached context to the queue keeps the invariant |
| `ScheduleRuns.BlocksIffAllInactive` | srv_async/srv_routines.c:121-125 | The loop blocks indefinitely exactly when all queued connections are inactive |
| `ScheduleRuns.RoundRobin` | srv_async/srv_routines.c:160-167 | Between two consecutive resumptions of a connection every other connection live over the span is resumed exactly once |
| `ScheduleRuns.NoPassSkipped` | srv_async/srv_routines.c:160-167 | Consecutive resumptions of a connection are in consecutive passes |
| `ScheduleRuns.GoneForGood` | srv_async/srv_routines.c:163-166 | A connection a pass no longer resumes is never resumed again |
| `ScheduleRuns.SameOrder` | srv_async/srv_conn_ctxt.c:134-143 | Consecutive passes resume their common connections in the same order: arrivals go to the head |
| `Schedule.ServeKeepsInv` | srv_async/srv_routines.c:161-166 | Resuming a connection, whatever it does, and reaping it keep the invariant; only it can leave |
| `Schedule.DoActsServe` | srv_async/srv_conn_ctxt.c:173-199 | Whatever a running coroutine does, the counters stay right and only its own socket is closed, once |
| `Schedule.ActivityMoves` | srv_async/srv_conn_ctxt.c:181-199 | An idle connection that becomes active, or falls idle, moves between the counters, once |
| `Schedule.ReapEnds` | srv_async/srv_conn_ctxt.c:109-154 | Removing and freeing a completed connection restores the invariant |
| `Server.RunWorker` | srv_async/srv_routines.c:61-179 | The worker on its heap lists and connections: from start-up over any number of turns its state at every loop head is that of the state machine, every connection is isolated and the log is round robin; it ends early only when no context can be allocated or a queued handler has crashed, and never goes on after a crash; no stopped connection is left in the queue, and every accepted one is accounted for |
| `Server.Server.RunTurns` | srv_async/srv_routines.c:120-167 | The loop |
| `Server.Server.NextTurn` | srv_async/srv_routines.c:120-167 | A turn extends the run of the state machine, or ends it for want of memory |
| `Server.Server.HeapIsolation` | srv_async/srv_conn_ctxt.c:229-259 | The memory of a queued connection is at a point of the run of its handler, in line with its own stream |
| `Server.Server.CrashIsReal` | srv_async/srv_conn_ctxt.c:43 | The worker is gone exactly when a queued connection is where a window has overrun the buffer |
| `Server.Server.AccountedOnHeap` | srv_async/srv_routines.c:160-167 | No connection in the queue on the heap is completed, or stopped but for a crash |
| `Server.Server.Turn` | srv_async/srv_routines.c:120-167 | One turn of the loop computes its specification, on disjoint connections |
| `Server.Server.HandleQueue` | srv_async/srv_routines.c:159-167 | The pass computes its specification, and is recorded |
| `Server.Server.ResumeAll` | srv_async/srv_routines.c:160-167 | The safe iteration with reaping in its body computes the pass over the queue as it was at the start |
| `Server.Server.ServeInPass` | srv_async/srv_routines.c:160-167 | One turn of that iteration: the saved successor is the next connection to serve |
| `Server.Server.ServeConn` | srv_async/srv_routines.c:161-166 | Resume, then reap if completed, on the heap |
| `Server.Server.Reap` | srv_async/srv_routines.c:163-166 | remove_conn_from_queue and free_closed_conn together |
| `Server.Server.SwapToConnCtx` | srv_async/srv_conn_ctxt.c:248-259 | The coroutine runs as curr_conn; it does steps of its own handler, and nothing but its own context, the counters and the log changes |
| `Server.Server.RunCurrConn` | srv_async/srv_conn_ctxt.c:248-259 | What the coroutine does until it swaps back is done to its own context |
| `Server.Server.ResumeCurrConn` | srv_async/srv_conn_ctxt.c:248-259 | A step of curr_conn, on the memory of curr_conn and no other |
| `Server.Server.CurrConnAdvance` | srv_async/srv_routines.c:56-58 | The step at which the handler stops closes its socket, for whatever reason but a crash; a crash, and only a crash, marks the process as gone |
| `Server.Server.CurrConnClose` | srv_async/srv_conn_ctxt.c:173-179 | Closes the socket and completes the connection, the first time only |
| `Server.Server.CurrConnSetInactive` | srv_async/srv_conn_ctxt.c:181-188 | The connection is inactive, and has moved between the counters if it was not |
| `Server.Server.CurrConnUpdateActive` | srv_async/srv_conn_ctxt.c:190-199 | The connection is active, and has moved back if it was not |
| `Server.Server.RemoveConnFromQueue` | srv_async/srv_conn_ctxt.c:145-154 | Takes the connection off the queue and out of the counter it was in |
| `Server.Server.FreeConnCtx` | srv_async/srv_conn_ctxt.c:109-117 | Into the cache while it has room, else freed |
| `Server.Server.AllocConnCtxMem` | srv_async/srv_conn_ctxt.c:30-66 | A new context shares no memory with any other |
| `Server.Server.AddNewContext` | srv_async/srv_conn_ctxt.c:80-84 | A new context at the head of the cache |
| `Server.Server.FillConnCtxCache` | srv_async/srv_conn_ctxt.c:74-90 | The count-down terminates, and puts exactly the contexts that could be allocated into the cache, as many as allocations succeeded |
| `Server.Server.InitConnCtxCache` | srv_async/srv_conn_ctxt.c:165-171 | The filled cache starts all invariants |
| `Server.Server.RefillCache` | srv_async/srv_conn_ctxt.c:96-97 | Only an empty cache is refilled |
| `Server.Server.AllocConnCtx` | srv_async/srv_conn_ctxt.c:102-106 | Takes the first cached context |
| `Server.Server.InitNewConnCtx` | srv_async/srv_conn_ctxt.c:119-130 | A new connection on the memory the last one left |
| `Server.Server.AddConnToQueue` | srv_async/srv_conn_ctxt.c:134-143 | The head of the queue, and its counter |
| `Server.Server.StartConn` | srv_async/srv_conn_ctxt.c:119-143 | A new active connection at the head of the queue |
| `Server.Server.TakeContext` | srv_async/srv_conn_ctxt.c:99-143 | Both together |
| `Server.Server.CreateNewConn` | srv_async/srv_conn_ctxt.c:261-279 | Refill, take, enqueue; fails exactly when the cache is empty and every allocation fails |
| `Server.Server.Timeout` | srv_async/srv_routines.c:121-125 | -1 exactly when all queued connections are inactive |
| `Server.Server.constructor` | srv_async/srv_conn_ctxt.c:156-168 | Empty queue and cache with zero counters |

## Left out

- Connection.Conn.HandleOneConnection: its contract is about one coroutine, whose yields let all else change; `swapcontext` and the stacks are not modelled, and in `Server` the coroutine goes on from a recorded phase by `Advance`.
- Server.Server.SwapToConnCtx: which of its steps a resumed coroutine does before it swaps back is arbitrary, and so are its updates of the activity flag, which depend on the clock; the code's own points to yield are among them, as every one of them is between two steps.
- Server.Server.HandleQueue: after a crash the model still finishes the pass it happened in; no further turn is taken.
- RunTheorems.ChunkIndependence: speaks of schedules without errors and timeouts that deliver the whole stream, and reads of three bytes and more; the other ones are covered by `RunCompletes` and `NothingIsDropped`.
- Isolation.ConnectionIsolation: the process, with all its connections, ends at a crash of any handler.
- HasHeader and GetHeaderValue are map lookups on the lowercased name and have no member of their own.
- Response.MakeResponseObject: the POST, PUT, DELETE and PATCH stubs are one case, a 501 page; page texts are opaque, and the status text and code inside them too.
- Liveness that depends on signals and on epoll waking up: not decided by this code.
- EINTR and the kinds of socket errors: one outcome for every error that closes the connection.
- System calls, timers and worker processes: parameters or not modelled.
- Exits of the process other than for a failed allocation or the guard page.
- Lifetimes of C++ objects and abandoned coroutine stacks.
- Configuration, option parsing, logging and statistics: easy range checks and output.
- `srv/srv.c` and the client: fixed strings over sockets, with no state to speak of.
