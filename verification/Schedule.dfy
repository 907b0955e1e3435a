/** The scheduler as a state machine over its main loop: contexts are identified by their list links,
    here any type with equality. */
module Schedule {
  import opened SocketIo
  import opened Response
  import opened Stream
  import opened Handler
  import opened HandlerRuns

  const MIN_CONN_CTX_CACHE_CNT: nat := 50
  const MAX_CONN_CTX_CACHE_CNT: nat := 300

  /** A conn_t with its coroutine.  `gen` numbers the accepted connections, so that two uses of one
      context differ. */
  datatype Ctx = Ctx(gen: nat, active: bool, completed: bool, task: Task)

  /** What a coroutine does between being resumed and swapping back: steps of its handler, and updates of
      its activity, which depend on the clock. */
  datatype Act = SetInactive | UpdateActive | Advance

  /** What a new connection brings: its stream, what its reads and writes come back with, and what is
      left open of its responses. */
  datatype Peer = Peer(stream: string, readEvents: seq<ReadEvent>, writeEvents: seq<WriteEvent>, env: Env)

  /** A context with zeroed memory, which no connection has used. */
  function NewContext(): Task {
    NewTask(seq(RECV_BUF_SIZE, _ => '\0'), 0, 0, "", [], [], Env(_ => "", _ => "", (_, _) => []))
  }

  /** init_new_conn_ctx: a new coroutine; memory and leftover stay as the last connection left them. */
  function Handover(last: Task, peer: Peer): Task {
    NewTask(last.buf, last.have, last.curr, peer.stream, peer.readEvents, peer.writeEvents, peer.env)
  }

  datatype Event = Resumed(gen: nat) | SocketClosed(gen: nat)

  /** One pass over the queue: who was resumed, in order, who is left, and how many connections had
      been accepted by then. */
  datatype Round = Round(resumed: seq<nat>, left: seq<nat>, accepted: nat)

  datatype State<T(==)> = State(
    queue: seq<T>, active: int, inactive: int,
    cache: seq<T>, cnt: int,
    ctx: map<T, Ctx>,
    made: nat, freed: nat, accepted: nat,
    crashed: bool,            // a handler has crashed: the process is gone
    born: seq<Task>,          // how each accepted connection started
    ended: map<nat, Task>,    // how each closed connection ended
    log: seq<Event>, rounds: seq<Round>)

  // ---- operations -------------------------------------------------------------------------

  function Without<T(==)>(s: seq<T>, x: T): seq<T> {
    if s == [] then [] else if s[0] == x then s[1..] else [s[0]] + Without(s[1..], x)
  }

  function Reverse<T>(s: seq<T>): (r: seq<T>)
    ensures |r| == |s|
  {
    if s == [] then [] else Reverse(s[1..]) + [s[0]]
  }

  predicate HasCrashed(task: Task) { task.phase.Stopped? && task.phase.why.Crashed? }

  /** The handler closes its socket when it stops; a crash closes nothing. */
  predicate Closes(task: Task) { task.phase.Stopped? && !HasCrashed(task) }

  /** curr_conn_set_inactive, curr_conn_update_active, and a step of the handler, with curr_conn_close at
      its end, on connection `c`. */
  ghost function DoAct<T>(s: State<T>, c: T, act: Act): State<T>
    requires c in s.ctx
  {
    var x := s.ctx[c];
    match act
    case SetInactive =>
      if x.active then
        s.(ctx := s.ctx[c := x.(active := false)], active := s.active - 1, inactive := s.inactive + 1)
      else s
    case UpdateActive =>
      if !x.active then
        s.(ctx := s.ctx[c := x.(active := true)], active := s.active + 1, inactive := s.inactive - 1)
      else s
    case Advance =>
      var task := Step(x.task);
      var s' := s.(ctx := s.ctx[c := x.(task := task)], crashed := s.crashed || HasCrashed(task));
      if Closes(task) then CloseSocket(s', c) else s'
  }

  /** curr_conn_close. */
  function CloseSocket<T>(s: State<T>, c: T): State<T>
    requires c in s.ctx
  {
    var x := s.ctx[c];
    if x.completed then s
    else s.(ctx := s.ctx[c := x.(completed := true)], log := s.log + [SocketClosed(x.gen)],
            ended := s.ended[x.gen := x.task])
  }

  ghost function DoActs<T>(s: State<T>, c: T, acts: seq<Act>): (s': State<T>)
    requires c in s.ctx
    ensures s'.ctx.Keys == s.ctx.Keys
    decreases |acts|
  {
    if acts == [] then s else DoActs(DoAct(s, c, acts[0]), c, acts[1..])
  }

  /** remove_conn_from_queue. */
  function Remove<T>(s: State<T>, c: T): State<T>
    requires c in s.ctx
  {
    var s' := s.(queue := Without(s.queue, c));
    if s.ctx[c].active then s'.(active := s.active - 1) else s'.(inactive := s.inactive - 1)
  }

  /** free_conn_ctx. */
  function Free<T>(s: State<T>, c: T): State<T> {
    if s.cnt < MAX_CONN_CTX_CACHE_CNT then s.(cache := [c] + s.cache, cnt := s.cnt + 1)
    else s.(freed := s.freed + 1, ctx := s.ctx - {c})
  }

  /** swap_to_conn_ctx, then the reaping of a completed connection. */
  ghost function Serve<T>(s: State<T>, c: T, acts: seq<Act>): State<T>
    requires c in s.ctx
  {
    var s' := DoActs(s.(log := s.log + [Resumed(s.ctx[c].gen)]), c, acts);
    if s'.ctx[c].completed then Free(Remove(s', c), c) else s'
  }

  /** How each resumption behaves: a function of the connection and of the point in the run. */
  type Behaviour = (nat, nat) -> seq<Act>

  ghost predicate AllIn<T>(order: seq<T>, ctx: map<T, Ctx>) { forall c <- order :: c in ctx }

  ghost predicate Distinct<T>(s: seq<T>) { forall i, j :: 0 <= i < j < |s| ==> s[i] != s[j] }

  lemma {:induction false} ServeKeepsOthers<T>(s: State<T>, c: T, acts: seq<Act>)
    requires c in s.ctx
    ensures forall d <- s.ctx :: d != c ==> d in Serve(s, c, acts).ctx && Serve(s, c, acts).ctx[d] == s.ctx[d]
  {
    ActsKeepOthers(s.(log := s.log + [Resumed(s.ctx[c].gen)]), c, acts);
  }

  lemma {:induction false} ActsKeepOthers<T>(s: State<T>, c: T, acts: seq<Act>)
    requires c in s.ctx
    ensures forall d <- s.ctx :: d != c ==> DoActs(s, c, acts).ctx[d] == s.ctx[d]
    decreases |acts|
  {
    if acts != [] {
      ActsKeepOthers(DoAct(s, c, acts[0]), c, acts[1..]);
    }
  }

  /** The connections of `order`, one after the other. */
  ghost function Pass<T>(s: State<T>, order: seq<T>, behave: Behaviour): State<T>
    requires AllIn(order, s.ctx) && Distinct(order)
    decreases |order|
  {
    if order == [] then s
    else
      var acts := behave(s.ctx[order[0]].gen, |s.log|);
      ServeKeepsOthers(s, order[0], acts);
      Pass(Serve(s, order[0], acts), order[1..], behave)
  }

  /** fill_conn_ctx_cache, when `got` are the contexts it could allocate. */
  function Fill<T>(s: State<T>, got: seq<T>): State<T> {
    s.(cache := Reverse(got) + s.cache, cnt := s.cnt + |got|, made := s.made + |got|,
       ctx := s.ctx + FreshContexts(got))
  }

  function FreshContexts<T>(got: seq<T>): map<T, Ctx> {
    map c | c in got :: Ctx(0, false, false, NewContext())
  }

  datatype Created<T> = OutOfMemory(state: State<T>) | Created(state: State<T>)

  /** The rest of alloc_conn_ctx, init_new_conn_ctx and add_conn_to_queue: the first cached context
      becomes a new, active connection at the head of the queue. */
  function Take<T>(s: State<T>, peer: Peer): State<T>
    requires s.cache != [] && s.cache[0] in s.ctx
  {
    var c := s.cache[0];
    var task := Handover(s.ctx[c].task, peer);
    s.(cache := s.cache[1..], cnt := s.cnt - 1,
       ctx := s.ctx[c := Ctx(s.accepted, true, false, task)], accepted := s.accepted + 1, born := s.born + [task],
       queue := [c] + s.queue, active := s.active + 1)
  }

  /** create_new_conn, which refills an empty cache first. */
  function Create<T>(s: State<T>, got: seq<T>, peer: Peer): Created<T> {
    var s1 := if s.cnt == 0 then Fill(s, got) else s;
    if s1.cnt == 0 || s1.cache == [] || s1.cache[0] !in s1.ctx then OutOfMemory(s1) else Created(Take(s1, peer))
  }

  function Gens<T>(s: State<T>, order: seq<T>): (g: seq<nat>)
    requires forall c <- order :: c in s.ctx
    ensures |g| == |order| && forall i :: 0 <= i < |order| ==> g[i] == s.ctx[order[i]].gen
  {
    seq(|order|, i requires 0 <= i < |order| => s.ctx[order[i]].gen)
  }

  // ---- the invariant ----------------------------------------------------------------------

  function CountActive<T>(q: seq<T>, ctx: map<T, Ctx>, active: bool): nat
    requires forall c <- q :: c in ctx
  {
    if q == [] then 0
    else (if ctx[q[0]].active == active then 1 else 0) + CountActive(q[1..], ctx, active)
  }

  /** Every context that is allocated and not freed is in exactly one of the two lists, once. */
  ghost predicate Placed<T>(s: State<T>) {
    && (forall c <- s.queue :: c in s.ctx) && (forall c <- s.cache :: c in s.ctx)
    && (forall c <- s.ctx :: c in s.queue || c in s.cache)
    && (forall c <- s.queue :: c !in s.cache)
    && Distinct(s.queue) && Distinct(s.cache)
  }

  /** Counters say what the lists hold. */
  ghost predicate Counted<T>(s: State<T>)
    requires Placed(s)
  {
    && s.active == CountActive(s.queue, s.ctx, true)
    && s.inactive == CountActive(s.queue, s.ctx, false)
    && s.cnt == |s.cache| <= MAX_CONN_CTX_CACHE_CNT
    && s.made - s.freed == |s.queue| + |s.cache|
  }

  /** No resumption of, and no second close on, a connection whose socket is closed. */
  ghost predicate GoodLog(log: seq<Event>) {
    forall i, j :: 0 <= i < j < |log| && log[i].SocketClosed? ==> log[j].gen != log[i].gen
  }

  /** Queued connections are different accepted ones, none completed, none with a closed socket. */
  ghost predicate LiveQueue<T>(s: State<T>)
    requires Placed(s)
  {
    && (forall i, j :: 0 <= i < j < |s.queue| ==> s.ctx[s.queue[i]].gen != s.ctx[s.queue[j]].gen)
    && (forall c <- s.queue :: !s.ctx[c].completed && s.ctx[c].gen < s.accepted
                            && SocketClosed(s.ctx[c].gen) !in s.log)
    && (forall e <- s.log :: e.gen < s.accepted)
    && GoodLog(s.log)
  }

  /** The invariant of the main loop. */
  ghost predicate Inv<T>(s: State<T>) { Placed(s) && Counted(s) && LiveQueue(s) }

  // ---- counting ---------------------------------------------------------------------------

  lemma {:induction false} CountFrame<T>(q: seq<T>, ctx: map<T, Ctx>, ctx': map<T, Ctx>, active: bool)
    requires forall c <- q :: c in ctx && c in ctx' && ctx'[c].active == ctx[c].active
    ensures CountActive(q, ctx', active) == CountActive(q, ctx, active)
  {
    if q != [] {
      CountFrame(q[1..], ctx, ctx', active);
    }
  }

  lemma {:induction false} CountUpdate<T>(q: seq<T>, ctx: map<T, Ctx>, c: T, x: Ctx, active: bool)
    requires (forall d <- q :: d in ctx) && Distinct(q) && c in q
    ensures CountActive(q, ctx[c := x], active)
         == CountActive(q, ctx, active)
            - (if ctx[c].active == active then 1 else 0) + (if x.active == active then 1 else 0)
  {
    if q[0] == c {
      CountFrame(q[1..], ctx, ctx[c := x], active);
    } else {
      CountUpdate(q[1..], ctx, c, x, active);
    }
  }

  lemma {:induction false} CountWithout<T>(q: seq<T>, ctx: map<T, Ctx>, c: T, active: bool)
    requires (forall d <- q :: d in ctx) && c in q
    ensures forall d <- Without(q, c) :: d in ctx
    ensures CountActive(Without(q, c), ctx, active)
         == CountActive(q, ctx, active) - (if ctx[c].active == active then 1 else 0)
  {
    if q[0] != c {
      CountWithout(q[1..], ctx, c, active);
    }
  }

  lemma {:induction false} WithoutSplit<T>(a: seq<T>, c: T, b: seq<T>)
    requires c !in a
    ensures Without(a + [c] + b, c) == a + b
  {
    if a == [] {
      assert [] + [c] + b == [c] + b && [] + b == b;
    } else {
      assert (a + [c] + b)[1..] == a[1..] + [c] + b;
      WithoutSplit(a[1..], c, b);
    }
  }

  lemma {:induction false} CountAll<T>(q: seq<T>, ctx: map<T, Ctx>)
    requires forall c <- q :: c in ctx
    ensures CountActive(q, ctx, true) + CountActive(q, ctx, false) == |q|
    ensures CountActive(q, ctx, true) == 0 <==> forall c <- q :: !ctx[c].active
  {
    if q != [] {
      CountAll(q[1..], ctx);
      assert q == [q[0]] + q[1..];
    }
  }

  // ---- serving one connection -------------------------------------------------------------

  /** While `c` runs, it alone may be completed, which it is exactly when its socket is closed. */
  ghost predicate Running<T>(s: State<T>, c: T)
    requires Placed(s)
  {
    && c in s.queue
    && (forall i, j :: 0 <= i < j < |s.queue| ==> s.ctx[s.queue[i]].gen != s.ctx[s.queue[j]].gen)
    && (forall d <- s.queue :: s.ctx[d].gen < s.accepted
                            && (s.ctx[d].completed <==> SocketClosed(s.ctx[d].gen) in s.log))
    && (forall d <- s.queue :: s.ctx[d].completed ==> d == c)
    && (forall e <- s.log :: e.gen < s.accepted)
    && GoodLog(s.log)
  }

  ghost predicate Serving<T>(s: State<T>, c: T) { Placed(s) && Counted(s) && Running(s, c) }

  lemma {:induction false} ServeStarts<T>(s: State<T>, c: T)
    requires Inv(s) && c in s.queue
    ensures Serving(s.(log := s.log + [Resumed(s.ctx[c].gen)]), c)
  {
  }

  /** What a coroutine does concerns its own context. */
  lemma {:induction false} DoActIs<T>(s: State<T>, c: T, act: Act)
    requires c in s.ctx
    ensures var s' := DoAct(s, c, act);
      && c in s'.ctx && s'.ctx == s.ctx[c := s'.ctx[c]] && s'.ctx[c].gen == s.ctx[c].gen
      && s'.queue == s.queue && s'.cache == s.cache && s'.cnt == s.cnt && s'.accepted == s.accepted
      && s'.made == s.made && s'.freed == s.freed && s'.born == s.born
      && s'.active == s.active - (if s.ctx[c].active then 1 else 0) + (if s'.ctx[c].active then 1 else 0)
      && s'.inactive == s.inactive - (if s.ctx[c].active then 0 else 1) + (if s'.ctx[c].active then 0 else 1)
      && (if s.ctx[c].completed || !s'.ctx[c].completed
          then s'.log == s.log && s'.ctx[c].completed == s.ctx[c].completed
          else s'.log == s.log + [SocketClosed(s.ctx[c].gen)])
  {
    hide Step;
  }

  /** An idle connection that becomes active again, or falls idle, moves between the counters, once. */
  lemma {:induction false} ActivityMoves<T>(s: State<T>, c: T)
    requires c in s.ctx
    ensures var x := s.ctx[c]; var s' := DoAct(s, c, UpdateActive);
      && s'.ctx[c] == x.(active := true) && (x.active ==> s' == s)
      && (!x.active ==> s'.active == s.active + 1 && s'.inactive == s.inactive - 1)
    ensures var x := s.ctx[c]; var s' := DoAct(s, c, SetInactive);
      && s'.ctx[c] == x.(active := false) && (!x.active ==> s' == s)
      && (x.active ==> s'.active == s.active - 1 && s'.inactive == s.inactive + 1)
  {
  }

  lemma {:induction false} DoActCounts<T>(s: State<T>, c: T, act: Act)
    requires Placed(s) && Counted(s) && c in s.queue
    ensures Placed(DoAct(s, c, act)) && Counted(DoAct(s, c, act))
  {
    hide DoAct;
    DoActIs(s, c, act);
    CountUpdate(s.queue, s.ctx, c, DoAct(s, c, act).ctx[c], true);
    CountUpdate(s.queue, s.ctx, c, DoAct(s, c, act).ctx[c], false);
  }

  lemma {:induction false} DoActRuns<T>(s: State<T>, c: T, act: Act)
    requires Placed(s) && Running(s, c) && Placed(DoAct(s, c, act))
    ensures Running(DoAct(s, c, act), c)
  {
    hide DoAct;
    DoActIs(s, c, act);
    var s' := DoAct(s, c, act);
    assert forall d <- s.queue :: s'.ctx[d].gen == s.ctx[d].gen;
    assert forall d <- s.queue :: d != c ==> s'.ctx[d] == s.ctx[d];
    if s'.ctx[c].completed && !s.ctx[c].completed {
      CloseRuns(s, c, s');
    }
  }

  lemma {:induction false} CloseRuns<T>(s: State<T>, c: T, s': State<T>)
    requires Placed(s) && Running(s, c) && !s.ctx[c].completed
    requires Placed(s') && s'.queue == s.queue && s'.accepted == s.accepted
    requires s'.log == s.log + [SocketClosed(s.ctx[c].gen)]
    requires s'.ctx[c].completed && s'.ctx[c].gen == s.ctx[c].gen
    requires forall d <- s.queue :: d != c ==> s'.ctx[d] == s.ctx[d]
    ensures Running(s', c)
  {
    forall d <- s.queue | d != c ensures s.ctx[d].gen != s.ctx[c].gen {
      var i :| 0 <= i < |s.queue| && s.queue[i] == c;
      var j :| 0 <= j < |s.queue| && s.queue[j] == d;
    }
  }

  lemma {:induction false} DoActServes<T>(s: State<T>, c: T, act: Act)
    requires Serving(s, c)
    ensures Serving(DoAct(s, c, act), c) && DoAct(s, c, act).queue == s.queue
  {
    DoActCounts(s, c, act);
    DoActRuns(s, c, act);
  }

  lemma {:induction false} DoActsServe<T>(s: State<T>, c: T, acts: seq<Act>)
    requires Serving(s, c)
    ensures Serving(DoActs(s, c, acts), c) && DoActs(s, c, acts).queue == s.queue
    decreases |acts|
  {
    if acts != [] {
      DoActServes(s, c, acts[0]);
      DoActsServe(DoAct(s, c, acts[0]), c, acts[1..]);
    }
  }

  lemma {:induction false} DistinctSplit<T>(a: seq<T>, c: T, b: seq<T>)
    requires Distinct(a + [c] + b)
    ensures c !in a && c !in b && Distinct(a + b)
    ensures forall d <- a + b :: d in a + [c] + b && d != c
    ensures forall d <- a + [c] + b :: d == c || d in a + b
  {
    var q := a + [c] + b;
    assert q[|a|] == c;
    assert forall i :: 0 <= i < |a| ==> q[i] == a[i];
    assert forall i :: 0 <= i < |b| ==> q[|a| + 1 + i] == b[i];
    forall i, j | 0 <= i < j < |a + b| ensures (a + b)[i] != (a + b)[j] {
      assert (a + b)[i] == q[if i < |a| then i else i + 1];
      assert (a + b)[j] == q[if j < |a| then j else j + 1];
    }
  }

  lemma {:induction false} DistinctCons<T>(c: T, s: seq<T>)
    requires Distinct(s) && c !in s
    ensures Distinct([c] + s)
  {
  }

  lemma {:induction false} ReapPlaces<T>(s: State<T>, kept: seq<T>, c: T, order: seq<T>)
    requires Placed(s) && c in s.ctx && s.queue == kept + [c] + order
    ensures var s' := Free(Remove(s, c), c);
      Placed(s') && s'.queue == kept + order && forall d <- s'.queue :: s'.ctx[d] == s.ctx[d]
  {
    hide Distinct, Without;
    DistinctSplit(kept, c, order);
    WithoutSplit(kept, c, order);
    var s' := Free(Remove(s, c), c);
    assert s.queue[|kept|] == c;
    assert s'.queue == kept + order;
    assert c !in s.cache;
    DistinctCons(c, s.cache);
    assert forall d <- s'.queue :: d in s.queue && d != c;
    assert forall d <- s'.cache :: d == c || d in s.cache;
    assert forall d <- s.cache :: d != c && d !in s'.queue;
    forall d <- s'.ctx ensures d in s'.queue || d in s'.cache {
      if d != c {
        assert d in s.queue || d in s.cache;
      } else {
        assert s'.cache == [c] + s.cache;
      }
    }
  }

  lemma {:induction false} CountReaped<T>(q: seq<T>, q': seq<T>, ctx: map<T, Ctx>, ctx': map<T, Ctx>, c: T,
                                          active: bool)
    requires (forall d <- q :: d in ctx) && c in q && q' == Without(q, c)
    requires forall d <- q' :: d in ctx' && d in ctx && ctx'[d] == ctx[d]
    ensures CountActive(q', ctx', active) == CountActive(q, ctx, active) - (if ctx[c].active == active then 1 else 0)
  {
    hide Without, CountActive;
    CountWithout(q, ctx, c, active);
    CountFrame(q', ctx, ctx', active);
  }

  lemma {:induction false} PlacedIn<T>(s: State<T>)
    requires Placed(s)
    ensures (forall d <- s.queue :: d in s.ctx) && (forall d <- s.queue :: d !in s.cache)
  {
  }

  lemma {:induction false} ReapFields<T>(s: State<T>, c: T)
    requires c in s.ctx && s.cnt == |s.cache| <= MAX_CONN_CTX_CACHE_CNT
    ensures var s' := Free(Remove(s, c), c);
      && s'.active == s.active - (if s.ctx[c].active then 1 else 0)
      && s'.inactive == s.inactive - (if s.ctx[c].active then 0 else 1)
      && s'.cnt == |s'.cache| <= MAX_CONN_CTX_CACHE_CNT && s'.queue == Without(s.queue, c)
      && s'.made - s'.freed - |s'.cache| == s.made - s.freed - |s.cache| - 1
      && s'.log == s.log && s'.accepted == s.accepted
  {
    hide Without;
  }

  lemma {:induction false} ReapCounts<T>(s: State<T>, kept: seq<T>, c: T, order: seq<T>)
    requires Placed(s) && Counted(s) && c in s.ctx && s.queue == kept + [c] + order
    requires Placed(Free(Remove(s, c), c)) && Free(Remove(s, c), c).queue == kept + order
    requires var s' := Free(Remove(s, c), c); forall d <- s'.queue :: s'.ctx[d] == s.ctx[d]
    ensures Counted(Free(Remove(s, c), c))
  {
    hide Distinct, Without, CountActive, Placed, Free, Remove;
    PlacedIn(s);
    PlacedIn(Free(Remove(s, c), c));
    ReapFields(s, c);
    var s' := Free(Remove(s, c), c);
    assert c in s.queue && (forall d <- kept + order :: d in s.queue) by {
      assert s.queue[|kept|] == c;
    }
    CountReaped(s.queue, s'.queue, s.ctx, s'.ctx, c, true);
    CountReaped(s.queue, s'.queue, s.ctx, s'.ctx, c, false);
  }

  lemma {:induction false} GensSplit<T>(kept: seq<T>, c: T, order: seq<T>, ctx: map<T, Ctx>)
    requires forall d <- kept + [c] + order :: d in ctx
    requires forall i, j :: 0 <= i < j < |kept + [c] + order| ==>
      ctx[(kept + [c] + order)[i]].gen != ctx[(kept + [c] + order)[j]].gen
    ensures forall d <- kept + order :: d in ctx
    ensures forall i, j :: 0 <= i < j < |kept + order| ==> ctx[(kept + order)[i]].gen != ctx[(kept + order)[j]].gen
  {
    var q, r := kept + [c] + order, kept + order;
    assert forall i :: 0 <= i < |r| ==> r[i] == q[if i < |kept| then i else i + 1];
  }

  lemma {:induction false} ReapLives<T>(s: State<T>, kept: seq<T>, c: T, order: seq<T>, s': State<T>)
    requires Placed(s) && Running(s, c) && s.ctx[c].completed && s.queue == kept + [c] + order
    requires Placed(s') && s'.queue == kept + order && s'.log == s.log && s'.accepted == s.accepted
    requires forall d <- s'.queue :: d in s.ctx && s'.ctx[d] == s.ctx[d]
    ensures LiveQueue(s')
  {
    hide Distinct, GoodLog;
    assert Distinct(s.queue);
    GensSplit(kept, c, order, s.ctx);
    DistinctSplit(kept, c, order);
  }

  /** Reaping puts the invariant back. */
  lemma {:induction false} ReapEnds<T>(s: State<T>, kept: seq<T>, c: T, order: seq<T>)
    requires Serving(s, c) && s.ctx[c].completed && s.queue == kept + [c] + order
    ensures Inv(Free(Remove(s, c), c)) && Free(Remove(s, c), c).queue == kept + order
  {
    hide Placed, Counted, LiveQueue, Running, Free, Remove, Without;
    CompletedIn(s, c);
    ReapPlaces(s, kept, c, order);
    ReapCounts(s, kept, c, order);
    PlacedIn(Free(Remove(s, c), c));
    PlacedIn(s);
    assert forall d <- kept + order :: d in s.queue;
    ReapLives(s, kept, c, order, Free(Remove(s, c), c));
  }

  lemma {:induction false} CompletedIn<T>(s: State<T>, c: T)
    requires Serving(s, c)
    ensures c in s.queue && c in s.ctx && s.cnt == |s.cache| <= MAX_CONN_CTX_CACHE_CNT
    ensures var s' := Free(Remove(s, c), c); s'.log == s.log && s'.accepted == s.accepted
  {
    ReapFields(s, c);
  }

  lemma {:induction false} ServeKeepsInv<T>(s: State<T>, kept: seq<T>, c: T, order: seq<T>, acts: seq<Act>)
    requires Inv(s) && s.queue == kept + [c] + order
    ensures Inv(Serve(s, c, acts))
    ensures Serve(s, c, acts).queue == kept + [c] + order || Serve(s, c, acts).queue == kept + order
  {
    assert s.queue[|kept|] == c;
    var s1 := s.(log := s.log + [Resumed(s.ctx[c].gen)]);
    ServeStarts(s, c);
    DoActsServe(s1, c, acts);
    var s2 := DoActs(s1, c, acts);
    if s2.ctx[c].completed {
      ReapEnds(s2, kept, c, order);
    }
  }
}
