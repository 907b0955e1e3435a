/** The scheduler itself, on its linked lists and its connections in memory: every operation computes its
    specification. */
module Server {
  import opened Bytes
  import opened Response
  import opened Handler
  import opened Connection
  import opened QList
  import opened Schedule
  import opened ScheduleRuns
  import opened HandlerRuns
  import opened Isolation
  import opened Fairness
  import opened Closing

  ghost function AsCtx(c: Conn): Ctx
    reads c, c.recvBuf
  {
    Ctx(c.gen, c.isActive, c.isCompleted, c.Now())
  }

  class Server {
    const queue: List
    const cache: List
    var active: int
    var inactive: int
    var cnt: int
    var conns: map<Link, Conn>   // the conn_t around each list link
    var curr: Link?
    var made: nat
    var freed: nat
    var accepted: nat
    var log: seq<Event>
    var crashed: bool
    ghost var ctx: map<Link, Ctx>
    ghost var born: seq<Task>
    ghost var ended: map<nat, Task>
    ghost var rounds: seq<Round>

    ghost function View(): State<Link>
      reads this, queue, cache
    {
      State(queue.items, active, inactive, cache.items, cnt, ctx, made, freed, accepted, crashed, born, ended, log,
            rounds)
    }

    /** Two separate, well-formed lists of known contexts. */
    ghost predicate Shape()
      reads this, queue, cache, queue.head, cache.head, queue.items, cache.items
    {
      && queue.Valid() && cache.Valid() && Apart(queue, cache)
      && Within(queue, ctx.Keys) && Within(cache, ctx.Keys)
      && queue.head !in ctx && cache.head !in ctx
    }

    /** All that is reached from a context: its conn_t and its receive buffer. */
    ghost function Contexts(): set<object>
      reads this`conns
    {
      (set l <- conns :: conns[l] as object) + (set l <- conns :: conns[l].recvBuf as object)
    }

    /** No two contexts share memory, and `ctx` says what is in each of them. */
    ghost predicate Coupled()
      reads this`conns, this`ctx, Contexts()
    {
      && conns.Keys == ctx.Keys
      && (forall l <- conns :: ctx[l] == AsCtx(conns[l]))
      && (forall l, m :: l in conns && m in conns && l != m ==>
            conns[l] != conns[m] && conns[l].recvBuf != conns[m].recvBuf)
    }

    ghost predicate Valid()
      reads this, queue, cache, queue.head, cache.head, queue.items, cache.items, Contexts()
    {
      Shape() && Coupled() && Inv(View()) && Own(View())
    }

    /** init_conn_queue and init_conn_ctx_cache before it is filled. */
    constructor ()
      ensures Shape() && Coupled() && View() == Empty() && Contexts() == {} && !crashed && cache.items == []
      ensures fresh(queue) && fresh(cache) && fresh(queue.head) && fresh(cache.head)
    {
      queue := new List();
      cache := new List();
      active, inactive, cnt, conns, ctx, curr := 0, 0, 0, map[], map[], null;
      made, freed, accepted, log, rounds, born, ended, crashed := 0, 0, 0, [], [], [], map[], false;
    }

    // ---- what a running coroutine does --------------------------------------------------

    /** While one coroutine runs, all contexts but its own are what other coroutines may change. */
    lemma {:induction false} CurrIsApart(l: Link)
      requires Coupled() && l in conns
      ensures conns[l].IsApartFrom(Contexts() - {conns[l] as object, conns[l].recvBuf as object})
      ensures forall m <- conns :: m != l ==> conns[m].IsApartFrom({conns[l] as object, conns[l].recvBuf as object})
    {
    }

    lemma {:induction false} NoContext()
      ensures this !in Contexts()
    {
    }

    lemma {:induction false} CoupledAt(l: Link)
      requires Coupled() && l in conns
      ensures l in ctx && ctx[l] == AsCtx(conns[l])
    {
    }

    lemma {:induction false} KnownContext(l: Link)
      requires Coupled() && l in ctx
      ensures l in conns && conns[l] in Contexts() && conns[l].recvBuf in Contexts()
    {
    }

    /** Work on one context leaves the others as they were. */
    twostate lemma StaysCoupled(l: Link)
      requires old(Coupled()) && l in conns && conns == old(conns)
      requires ctx == old(ctx)[l := AsCtx(conns[l])]
      requires forall c: object | c in Contexts() :: c != conns[l] && c != conns[l].recvBuf ==> unchanged(c)
      ensures Coupled()
    {
      forall m <- conns ensures ctx[m] == AsCtx(conns[m]) {
        if m != l {
          assert conns[m] in Contexts() && conns[m].recvBuf in Contexts();
        }
      }
    }

    /** Here and below, `c` names what curr_conn is. */
    method CurrConnSetInactive(ghost c: Link)
      requires curr == c && c in conns && c in ctx && Coupled()
      modifies this`ctx, this`active, this`inactive, conns[c]
      ensures View() == DoAct(old(View()), c, SetInactive)
      ensures Coupled() && !conns[c].isActive
    {
      hide Coupled, Step, Conn.At, Conn.Now, CloseSocket, Contexts;
      CoupledAt(curr);
      NoContext();
      var conn := conns[curr];
      if conn.isActive {
        conn.isActive := false;
        ctx := ctx[curr := ctx[curr].(active := false)];
        active := active - 1;
        inactive := inactive + 1;
        StaysCoupled(curr);
      }
    }

    method CurrConnUpdateActive(ghost c: Link)
      requires curr == c && c in conns && c in ctx && Coupled()
      modifies this`ctx, this`active, this`inactive, conns[c]
      ensures View() == DoAct(old(View()), c, UpdateActive)
      ensures Coupled() && conns[c].isActive
    {
      hide Coupled, Step, Conn.At, Conn.Now, CloseSocket, Contexts;
      CoupledAt(curr);
      NoContext();
      var conn := conns[curr];
      if !conn.isActive {
        conn.isActive := true;
        ctx := ctx[curr := ctx[curr].(active := true)];
        active := active + 1;
        inactive := inactive - 1;
        StaysCoupled(curr);
      }
    }

    method CurrConnClose(ghost c: Link)
      requires curr == c && c in conns && c in ctx && Coupled()
      modifies this`ctx, this`log, this`ended, conns[c]
      ensures View() == CloseSocket(old(View()), c)
      ensures Coupled() && conns[c].isCompleted && conns[c].phase == old(conns[c].phase)
    {
      hide Coupled, Conn.At, Conn.Now, Contexts;
      CoupledAt(curr);
      NoContext();
      var conn := conns[curr];
      if !conn.isCompleted {
        conn.isCompleted := true;
        log := log + [SocketClosed(conn.gen)];
        ended := ended[conn.gen := ctx[curr].task];
        ctx := ctx[curr := ctx[curr].(completed := true)];
        StaysCoupled(curr);
      }
    }

    /** The coroutine of curr_conn does a step, on the memory of curr_conn. */
    method ResumeCurrConn(ghost c: Link)
      requires curr == c && c in conns && c in ctx && Coupled() && conns[c].Now().Sane()
      modifies this`ctx, conns[c], conns[c].recvBuf
      ensures View() == old(View()).(ctx := old(ctx)[c := old(ctx)[c].(task := Step(old(ctx)[c].task))])
      ensures c in ctx && conns[c].phase == ctx[c].task.phase
      ensures conns[c].isCompleted == old(conns[c].isCompleted)
      ensures Coupled()
    {
      hide Coupled, Step, Task.Sane, Conn.At, Conn.Now;
      CoupledAt(curr);
      NoContext();
      var conn := conns[curr];
      conn.Advance();
      ctx := ctx[curr := ctx[curr].(task := conn.Now())];
      StaysCoupled(curr);
    }

    /** A step of the handler, and curr_conn_close at its end. */
    method CurrConnAdvance(ghost c: Link)
      requires curr == c && c in conns && c in ctx && Coupled() && conns[c].Now().Sane()
      modifies this`ctx, this`log, this`ended, this`crashed, conns[c], conns[c].recvBuf
      ensures View() == DoAct(old(View()), c, Advance)
      ensures Coupled()
      ensures var phase := conns[c].phase;
        && (conns[c].isCompleted <==> old(conns[c].isCompleted) || (phase.Stopped? && !phase.why.Crashed?))
        && (crashed <==> old(crashed) || (phase.Stopped? && phase.why.Crashed?))
    {
      hide Coupled, Step, Task.Sane, Conn.At, Conn.Now, CloseSocket;
      ResumeCurrConn(curr);
      NoContext();
      var phase := conns[curr].phase;
      if phase.Stopped? {
        if phase.why.Crashed? {
          crashed := true;
        } else {
          CurrConnClose(curr);
        }
      }
    }

    method Perform(ghost c: Link, act: Act)
      requires curr == c && c in conns && c in ctx && c in queue.items && Coupled() && Own(View())
      modifies this`ctx, this`active, this`inactive, this`log, this`ended, this`crashed,
               conns[c], conns[c].recvBuf
      ensures View() == DoAct(old(View()), c, act)
      ensures Own(View())
      ensures Coupled()
    {
      hide Coupled, Own, DoAct, Task.Sane, DoActs;
      DoActKeepsOwn(View(), curr, act);
      OwnIsSane(View(), curr);
      CoupledAt(curr);
      match act {
        case SetInactive => CurrConnSetInactive(curr);
        case UpdateActive => CurrConnUpdateActive(curr);
        case Advance => CurrConnAdvance(curr);
      }
    }

    lemma {:induction false} InView(l: Link)
      ensures l in View().ctx <==> l in ctx
      ensures l in View().queue <==> l in queue.items
    {
    }

    /** What the coroutine of curr_conn does until it swaps back. */
    method RunCurrConn(ghost c: Link, acts: seq<Act>)
      requires curr == c && c in conns && c in ctx && c in queue.items && Coupled() && Own(View())
      modifies this`ctx, this`active, this`inactive, this`log, this`ended, this`crashed,
               conns[c], conns[c].recvBuf
      ensures View() == DoActs(old(View()), c, acts)
      ensures Own(View())
      ensures Coupled()
    {
      hide Own, DoAct, Task.Sane, Coupled, View, Contexts, AsCtx, Conn.At, Conn.Now;
      ghost var start := View();
      InView(curr);
      var i := 0;
      while i < |acts|
        invariant 0 <= i <= |acts| && curr in conns && curr in ctx && Coupled()
        invariant Own(View()) && curr in queue.items && curr in View().ctx
        invariant DoActs(start, curr, acts) == DoActs(View(), curr, acts[i..])
      {
        assert acts[i..][1..] == acts[i + 1..];
        Perform(curr, acts[i]);
        CoupledAt(curr);
        InView(curr);
        i := i + 1;
      }
    }

    /** swap_to_conn_ctx: the coroutine of `conn` runs until it swaps back. */
    method SwapToConnCtx(conn: Link, acts: seq<Act>)
      requires conn in conns && conn in ctx && conn in queue.items && Coupled() && Own(View())
      modifies this`curr, this`ctx, this`active, this`inactive, this`log, this`ended, this`crashed,
               conns[conn], conns[conn].recvBuf
      ensures curr == conn
      ensures View() == DoActs(old(View()).(log := old(log) + [Resumed(old(ctx)[conn].gen)]), conn, acts)
      ensures Own(View())
      ensures Coupled()
    {
      hide Own, DoActs, Task.Sane, Coupled;
      CoupledAt(conn);
      NoContext();
      OwnIgnoresLog(View(), log + [Resumed(conns[conn].gen)]);
      curr := conn;
      log := log + [Resumed(conns[conn].gen)];
      RunCurrConn(conn, acts);
    }

    // ---- reaping ------------------------------------------------------------------------

    /** Links and lists are not what contexts are made of. */
    lemma {:induction false} NoLink(nodes: set<Link>)
      ensures this !in Contexts() && queue !in Contexts() && cache !in Contexts() && nodes !! Contexts()
      ensures queue.head !in Contexts() && cache.head !in Contexts()
    {
    }

    /** Giving contexts back leaves the others as they were. */
    twostate lemma FewerCoupled(gone: set<Link>)
      requires old(Coupled()) && conns == old(conns) - gone && ctx == old(ctx) - gone
      requires forall c: object | c in old(Contexts()) :: unchanged(c)
      ensures Coupled() && Contexts() <= old(Contexts())
    {
      forall m <- conns ensures ctx[m] == AsCtx(conns[m]) {
        assert conns[m] in old(Contexts()) && conns[m].recvBuf in old(Contexts());
      }
    }

    method RemoveConnFromQueue(conn: Link, ghost k: nat)
      requires Shape() && Distinct(queue.items) && k < |queue.items| && queue.items[k] == conn && conn in ctx
      requires conn in conns && conns[conn].isActive == ctx[conn].active
      modifies this`active, this`inactive, queue, queue.head, queue.items
      ensures Shape() && View() == Remove(old(View()), conn) && queue.items == Without(old(queue.items), conn)
      ensures conn !in queue.items && conn !in cache.items && conn != queue.head && conn != cache.head
      ensures queue.Ring(k) == old(queue.Ring(k + 1))
    {
      hide List.Valid, List.Ring;
      ghost var q := queue.items;
      assert q == q[..k] + [conn] + q[k + 1..];
      WithoutSplit(q[..k], conn, q[k + 1..]);
      TakeOff(queue, cache, conn, k);
      if conns[conn].isActive {
        active := active - 1;
      } else {
        inactive := inactive - 1;
      }
    }

    /** free_conn_ctx: into the cache while it has room, else back to the system. */
    method FreeConnCtx(conn: Link)
      requires Shape() && conn in ctx
      requires conn !in queue.items && conn !in cache.items && conn != queue.head && conn != cache.head
      modifies this`cnt, this`freed, this`ctx, this`conns, cache, cache.head, cache.items, conn
      ensures Shape() && View() == Free(old(View()), conn)
      ensures var gone := if old(cnt) < MAX_CONN_CTX_CACHE_CNT then {} else {conn};
        conns == old(conns) - gone && ctx == old(ctx) - gone
      ensures queue.items == old(queue.items) && forall i :: queue.Ring(i) == old(queue.Ring(i))
    {
      hide List.Valid;
      if cnt < MAX_CONN_CTX_CACHE_CNT {
        PutInCache(conn);
      } else {
        freed := freed + 1;
        ctx := ctx - {conn};
        conns := conns - {conn};
      }
    }

    /** remove_conn_from_queue and free_closed_conn on the entry behind `kept`. */
    method Reap(conn: Link, ghost kept: seq<Link>, ghost more: seq<Link>)
      requires Shape() && Distinct(queue.items) && queue.items == kept + [conn] + more && conn in ctx && conn in conns
      requires conns[conn].isActive == ctx[conn].active
      modifies this`active, this`inactive, this`cnt, this`freed, this`ctx, this`conns, queue, queue.head, queue.items,
               cache, cache.head, cache.items
      ensures Shape() && View() == Free(Remove(old(View()), conn), conn)
      ensures queue.items == kept + more && queue.Ring(|kept|) == old(queue.Ring(|kept| + 1))
      ensures var gone := if old(cnt) < MAX_CONN_CTX_CACHE_CNT then {} else {conn};
        conns == old(conns) - gone && ctx == old(ctx) - gone
    {
      hide List.Valid, List.Ring, View, Free, Remove, Without, Distinct;
      assert queue.items[|kept|] == conn;
      DistinctSplit(kept, conn, more);
      WithoutSplit(kept, conn, more);
      RemoveConnFromQueue(conn, |kept|);
      FreeConnCtx(conn);
    }

    /** Reaping touches no context's memory. */
    method ReapCoupled(conn: Link, ghost kept: seq<Link>, ghost more: seq<Link>)
      requires Shape() && Distinct(queue.items) && queue.items == kept + [conn] + more && conn in ctx && conn in conns
      requires Coupled()
      modifies this`active, this`inactive, this`cnt, this`freed, this`ctx, this`conns, queue, queue.head, queue.items,
               cache, cache.head, cache.items
      ensures Shape() && View() == Free(Remove(old(View()), conn), conn)
      ensures queue.items == kept + more && queue.Ring(|kept|) == old(queue.Ring(|kept| + 1))
      ensures Coupled() && Contexts() <= old(Contexts()) && ctx.Keys <= old(ctx.Keys)
    {
      hide List.Valid, List.Ring, Coupled, Shape, Remove, Free, List.Ring;
      CoupledAt(conn);
      NoLink(set l <- queue.items);
      NoLink(set l <- cache.items);
      ghost var gone := if cnt < MAX_CONN_CTX_CACHE_CNT then {} else {conn};
      Reap(conn, kept, more);
      FewerCoupled(gone);
    }

    /** One step of the main loop's iteration: resume the connection, reap it if it is completed. */
    method ServeConn(conn: Link, acts: seq<Act>, ghost kept: seq<Link>, ghost more: seq<Link>)
        returns (ghost kept': seq<Link>)
      requires Valid() && queue.items == kept + [conn] + more && conn in ctx
      modifies this, queue, queue.head, cache, cache.head, ctx.Keys, Contexts()
      ensures Valid() && View() == Serve(old(View()), conn, acts)
      ensures ctx.Keys <= old(ctx.Keys) && Contexts() <= old(Contexts())
      ensures queue.items == kept' + more && queue.Ring(|kept'|) == old(queue.Ring(|kept| + 1))
    {
      hide Inv, Own, Coupled, List.Valid, List.Ring, Remove, Free, DoActs;
      ServeKeepsInv(View(), kept, conn, more, acts);
      ServeKeepsOwn(View(), kept, conn, more, acts);
      QueueGens(View());
      kept' := kept + [conn];
      KnownContext(conn);
      SwapToConnCtx(conn, acts);
      CoupledAt(conn);
      if conns[conn].isCompleted {
        ReapCoupled(conn, kept, more);
        kept' := kept;
      }
    }

    method ServeInPass(conn: Link, behave: Behaviour, ghost start: State<Link>, ghost kept: seq<Link>,
                       ghost rest: seq<Link>)
        returns (ghost kept': seq<Link>)
      requires Valid() && MidPass(start, start.queue, behave, View(), kept, rest)
      requires |kept| < |queue.items| && conn == queue.Ring(|kept|)
      modifies this, queue, queue.head, cache, cache.head, ctx.Keys, Contexts()
      ensures Valid() && ctx.Keys <= old(ctx.Keys) && Contexts() <= old(Contexts()) && rest != []
      ensures MidPass(start, start.queue, behave, View(), kept', rest[1..])
      ensures |kept'| <= |queue.items| && queue.Ring(|kept'|) == old(queue.Ring(|kept| + 1))
    {
      hide Inv, Own, Coupled, Pass, Serve, List.Valid;
      ghost var before := View();
      MidPassNext(start, start.queue, behave, before, kept, rest, conn);
      KnownContext(conn);
      CoupledAt(conn);
      kept' := ServeConn(conn, behave(conns[conn].gen, |log|), kept, rest[1..]);
      MidPassServed(start, start.queue, behave, before, kept, rest, View(), kept');
    }

    lemma {:induction false} QueueValid()
      requires Shape()
      ensures queue.Valid()
    {
    }

    /** The pass over the queue: qlist_foreach_entry_safe with ServeConn as its body. */
    method ResumeAll(behave: Behaviour)
      requires Valid() && AllIn(queue.items, ctx) && Distinct(queue.items)
      modifies this, queue, queue.head, cache, cache.head, ctx.Keys, Contexts()
      ensures Valid() && View() == Pass(old(View()), old(queue.items), behave)
      ensures ctx.Keys <= old(ctx.Keys) && Contexts() <= old(Contexts())
    {
      hide Inv, Own, Coupled, MidPass, Pass, List.Valid, List.Ring, AllIn, Distinct, Shape;
      QueueValid();
      ghost var start := View();
      ghost var kept, rest := [], queue.items;
      PassBegins(start, behave);
      var conn := queue.First();
      var connN := queue.Next(conn, 0);
      while conn != queue.head
        invariant Valid() && queue.Valid() && ctx.Keys <= old(ctx.Keys) && Contexts() <= old(Contexts())
        invariant MidPass(start, start.queue, behave, View(), kept, rest)
        invariant |kept| <= |queue.items| && conn == queue.Ring(|kept|)
        invariant |kept| < |queue.items| ==> connN == queue.Ring(|kept| + 1)
        decreases |rest|
      {
        queue.RingEnds(|kept|);
        kept := ServeInPass(conn, behave, start, kept, rest);
        QueueValid();
        rest := rest[1..];
        conn := connN;
        connN := queue.Next(conn, |kept|);
      }
      queue.RingEnds(|kept|);
      MidPassEnd(start, start.queue, behave, View(), kept, rest);
    }

    method HandleQueue(behave: Behaviour)
      requires Valid()
      modifies this, queue, queue.head, cache, cache.head, ctx.Keys, Contexts()
      ensures Valid() && View() == PassAll(old(View()), behave)
      ensures ctx.Keys <= old(ctx.Keys) && Contexts() <= old(Contexts())
    {
      hide Inv, Own, Coupled, Pass, List.Valid;
      ghost var start := View();
      QueueGens(start);
      ResumeAll(behave);
      PassKeepsAll(start, behave);
      ghost var all := rounds + [Round(Gens(start, start.queue), Gens(View(), queue.items), accepted)];
      RoundsApart(View(), all);
      OwnIgnoresRounds(View(), all);
      NoContext();
      rounds := all;
    }

    // ---- contexts -----------------------------------------------------------------------

    /** A new context shares nothing with the others. */
    twostate lemma OneMoreCoupled(new l: Link, new c: Conn)
      requires old(Coupled()) && l !in old(conns) && conns == old(conns)[l := c] && ctx == old(ctx)[l := AsCtx(c)]
      requires fresh(c) && fresh(c.recvBuf)
      requires forall o: object | o in old(Contexts()) :: unchanged(o)
      ensures Coupled() && fresh(Contexts() - old(Contexts()))
    {
      forall m <- conns
        ensures ctx[m] == AsCtx(conns[m]) && (m == l || (conns[m] != c && conns[m].recvBuf != c.recvBuf))
      {
        if m != l {
          assert conns[m] in old(Contexts()) && conns[m].recvBuf in old(Contexts());
        }
      }
      forall o <- Contexts() ensures o in old(Contexts()) || fresh(o) {
        if exists m <- conns :: o == conns[m] {
          var m :| m in conns && o == conns[m];
        } else {
          var m :| m in conns && o == conns[m].recvBuf;
        }
      }
    }

    method PutInCache(conn: Link)
      requires Shape() && conn in ctx
      requires conn !in queue.items && conn !in cache.items && conn != queue.head && conn != cache.head
      modifies this`cnt, cache, cache.head, cache.items, conn
      ensures Shape()
      ensures View() == old(View()).(cache := [conn] + old(cache.items), cnt := old(cnt) + 1)
      ensures queue.items == old(queue.items) && forall i :: queue.Ring(i) == old(queue.Ring(i))
    {
      hide List.Valid;
      ApartSwap(queue, cache);
      PutOn(cache, queue, conn);
      ApartSwap(cache, queue);
      cnt := cnt + 1;
    }

    /** alloc_conn_ctx_mem when memory can be had. */
    method AllocConnCtxMem() returns (conn: Link)
      requires Coupled()
      modifies this`conns, this`ctx, this`made
      ensures fresh(conn) && conn !in old(ctx)
      ensures View() == old(View()).(made := old(made) + 1, ctx := old(ctx)[conn := Ctx(0, false, false, NewContext())])
      ensures Coupled() && forall c <- Contexts() :: c in old(Contexts()) || fresh(c)
    {
      hide Coupled, Conn.At, Conn.Now;
      FreshIsNew();
      conn := new Link();
      var c := new Conn.New();
      conns := conns[conn := c];
      ctx := ctx[conn := AsCtx(c)];
      made := made + 1;
      OneMoreCoupled(conn, c);
    }

    /** A new context in the cache. */
    method AddNewContext() returns (conn: Link)
      requires Shape() && Coupled()
      modifies this`cnt, this`conns, this`ctx, this`made, cache, cache.head, cache.items
      ensures Shape() && fresh(conn) && conn !in old(ctx)
      ensures View() == old(View()).(cache := [conn] + old(cache.items), cnt := old(cnt) + 1, made := old(made) + 1,
                                     ctx := old(ctx)[conn := Ctx(0, false, false, NewContext())])
      ensures Coupled() && forall c <- Contexts() :: c in old(Contexts()) || fresh(c)
    {
      hide List.Valid, List.Ring, Coupled, NewContext;
      conn := AllocConnCtxMem();
      NoLink((set l <- cache.items) + {conn});
      PutInCache(conn);
    }

    lemma {:induction false} FreshIsNew()
      requires Coupled()
      ensures conns.Keys == ctx.Keys
    {
    }

    /** One round of the fill, after `got`. */
    method FillOne(ghost start: State<Link>, ghost got: seq<Link>) returns (ghost conn: Link)
      requires Shape() && Coupled() && View() == Fill(start, got) && Usable(start, got)
      requires |got| < MIN_CONN_CTX_CACHE_CNT
      modifies this`cnt, this`conns, this`ctx, this`made, cache, cache.head, cache.items
      ensures Shape() && View() == Fill(start, got + [conn]) && Usable(start, got + [conn])
      ensures cnt == old(cnt) + 1 && fresh(conn)
      ensures cache.items == [conn] + old(cache.items) && queue.items == old(queue.items)
      ensures Coupled() && forall c <- Contexts() :: c in old(Contexts()) || fresh(c)
    {
      hide Fill, List.Valid, List.Ring, Coupled, NewContext, Shape, Conn.At, Conn.Now, AsCtx, Usable;
      conn := AddNewContext();
      FillOneMore(start, got, conn);
      OneMoreUsable(start, got, conn);
    }

    /** fill_conn_ctx_cache.  `allocOk` says which allocations succeed.  The count-down ends because
        the cache holds no more than the minimum when it is called. */
    method FillConnCtxCache(allocOk: seq<bool>) returns (ghost got: seq<Link>)
      requires Shape() && Coupled() && 0 <= cnt <= MIN_CONN_CTX_CACHE_CNT && |allocOk| == MIN_CONN_CTX_CACHE_CNT - cnt
      modifies this`cnt, this`conns, this`ctx, this`made, cache, cache.head, cache.items
      ensures Shape() && View() == Fill(old(View()), got) && fresh(set c <- got) && Usable(old(View()), got)
      ensures queue.items == old(queue.items)
      ensures got == [] <==> forall i :: 0 <= i < |allocOk| ==> !allocOk[i]
      ensures |got| == multiset(allocOk)[true] && ((forall i :: 0 <= i < |allocOk| ==> allocOk[i]) ==> cnt == 50)
      ensures Coupled() && fresh(Contexts() - old(Contexts()))
    {
      hide Fill, List.Valid, List.Ring, Coupled, Contexts, NewContext, Shape, Conn.At, Conn.Now, AsCtx, Usable, Reverse;
      ghost var start := View();
      var left := MIN_CONN_CTX_CACHE_CNT - cnt;
      got := [];
      FillNothing(start);
      NoneUsable(start);
      while left != 0
        invariant 0 <= left <= |allocOk|
        invariant Shape() && View() == Fill(start, got) && Usable(start, got)
        invariant fresh(set c <- got) && |got| + left <= MIN_CONN_CTX_CACHE_CNT
        invariant fresh(set c <- cache.items | c !in start.cache) && queue.items == old(queue.items)
        invariant |got| == multiset(allocOk[..|allocOk| - left])[true] && cnt == start.cnt + |got|
        invariant Coupled() && forall c <- Contexts() :: c in old(Contexts()) || fresh(c)
        decreases left
      {
        MoreTrue(allocOk, |allocOk| - left);
        if allocOk[|allocOk| - left] {
          ghost var conn := FillOne(start, got);
          got := got + [conn];
        }
        left := left - 1;
      }
      assert allocOk[..|allocOk|] == allocOk;
      NoneTrue(allocOk);
      AllTrue(allocOk);
    }

    /** init_conn_ctx_cache fills the cache. */
    method InitConnCtxCache(startOk: seq<bool>) returns (ghost got: seq<Link>)
      requires Shape() && Coupled() && View() == Empty() && |startOk| == MIN_CONN_CTX_CACHE_CNT
      modifies this`cnt, this`conns, this`ctx, this`made, cache, cache.head, cache.items
      ensures Valid() && FairInv(View()) && After(got, []) == Some(View())
      ensures fresh(ctx.Keys - old(ctx.Keys)) && fresh(Contexts() - old(Contexts()))
    {
      hide Inv, Own, FairInv, Usable, List.Valid, Coupled, Shape, NewContext;
      ghost var before := View();
      got := FillConnCtxCache(startOk);
      FilledKeys(before, got);
      FirstState(got);
      FirstIsOwn(got);
    }

    /** The refill at the start of alloc_conn_ctx. */
    method RefillCache(allocOk: seq<bool>) returns (ghost got: seq<Link>)
      requires Valid() && |allocOk| == MIN_CONN_CTX_CACHE_CNT
      modifies this`cnt, this`conns, this`ctx, this`made, cache, cache.head, cache.items
      ensures Shape() && View() == (if old(cnt) == 0 then Fill(old(View()), got) else old(View()))
      ensures Usable(old(View()), got) && fresh(set c <- got) && cnt == |cache.items|
      ensures queue.items == old(queue.items) && forall c <- cache.items :: c in old(cache.items) || c in got
      ensures ctx.Keys == old(ctx.Keys) + set c <- got
      ensures got == [] <==> old(cnt) != 0 || forall i :: 0 <= i < |allocOk| ==> !allocOk[i]
      ensures cnt != 0 ==> cache.items != [] && cache.items[0] in ctx
      ensures Coupled() && fresh(Contexts() - old(Contexts()))
    {
      hide List.Valid, Own, Coupled, NewContext;
      ghost var before := View();
      CountersFit(before);
      got := [];
      if cnt == 0 {
        got := FillConnCtxCache(allocOk);
        FilledCounts(before, got);
        FilledKeys(before, got);
      }
    }

    /** The rest of alloc_conn_ctx: the first cached context. */
    method AllocConnCtx() returns (conn: Link)
      requires Shape() && Coupled() && cache.items != []
      modifies this`cnt, cache, cache.head, cache.items
      ensures Shape() && Coupled() && conn == old(cache.items)[0]
      ensures View() == old(View()).(cache := old(cache.items)[1..], cnt := old(cnt) - 1)
      ensures conn !in queue.items && conn !in cache.items && conn != queue.head && conn != cache.head
    {
      hide List.Valid, List.Ring, Coupled;
      NoLink(set l <- cache.items);
      cache.RingEnds(0);
      conn := cache.First();
      assert [] + cache.items[1..] == cache.items[1..];
      ApartSwap(queue, cache);
      TakeOff(cache, queue, conn, 0);
      ApartSwap(cache, queue);
      cnt := cnt - 1;
    }

    method InitNewConnCtx(conn: Link, peer: Peer)
      requires Shape() && Coupled() && conn in ctx && conn in conns
      modifies this`ctx, this`accepted, this`born, conns[conn]
      ensures Shape()
      ensures var task := Handover(old(ctx)[conn].task, peer);
        View() == old(View()).(ctx := old(ctx)[conn := Ctx(old(accepted), true, false, task)],
          accepted := old(accepted) + 1, born := old(born) + [task])
      ensures ctx.Keys == old(ctx.Keys)
      ensures Coupled()
    {
      hide Coupled, List.Valid;
      CoupledAt(conn);
      var c := conns[conn];
      c.Init(peer.stream, peer.readEvents, peer.writeEvents, peer.env, accepted);
      accepted := accepted + 1;
      born := born + [c.Now()];
      ctx := ctx[conn := AsCtx(c)];
      StaysCoupled(conn);
    }

    method AddConnToQueue(conn: Link)
      requires Shape() && Coupled() && conn in ctx && conn in conns
      requires conn !in queue.items && conn !in cache.items && conn != queue.head && conn != cache.head
      modifies this`active, this`inactive, queue, queue.head, queue.items, conn
      ensures Shape() && Coupled()
      ensures View() == old(View()).(queue := [conn] + old(queue.items),
        active := old(active) + (if ctx[conn].active then 1 else 0),
        inactive := old(inactive) + (if ctx[conn].active then 0 else 1))
    {
      hide List.Valid, List.Ring, Coupled;
      CoupledAt(conn);
      NoLink((set l <- queue.items) + {conn});
      PutOn(queue, cache, conn);
      if conns[conn].isActive {
        active := active + 1;
      } else {
        inactive := inactive + 1;
      }
    }

    /** A context that is in no list becomes a connection at the head of the queue. */
    method StartConn(conn: Link, peer: Peer)
      requires Shape() && Coupled() && conn in ctx && conn in conns
      requires conn !in queue.items && conn !in cache.items && conn != queue.head && conn != cache.head
      modifies this`ctx, this`accepted, this`born, this`active, this`inactive, queue, queue.head, queue.items, conn,
               conns[conn]
      ensures Shape() && Coupled() && ctx.Keys == old(ctx.Keys)
      ensures var task := Handover(old(ctx)[conn].task, peer);
        View() == old(View()).(ctx := old(ctx)[conn := Ctx(old(accepted), true, false, task)],
          accepted := old(accepted) + 1, born := old(born) + [task],
          queue := [conn] + old(queue.items), active := old(active) + 1)
    {
      hide List.Valid, List.Ring, Coupled, Handover, Shape, Conn.At, Conn.Now, Contexts;
      InitNewConnCtx(conn, peer);
      AddConnToQueue(conn);
    }

    /** The first cached context becomes a connection. */
    method TakeContext(peer: Peer)
      requires Shape() && Coupled() && cache.items != [] && cache.items[0] in ctx
      modifies this`cnt, this`ctx, this`accepted, this`born, this`active, this`inactive, cache, cache.head, cache.items,
               queue, queue.head, queue.items, Contexts()
      ensures Shape() && Coupled() && View() == Take(old(View()), peer) && ctx.Keys == old(ctx.Keys)
    {
      hide List.Valid, List.Ring, Coupled, Handover, Shape, Conn.At, Conn.Now, Contexts;
      KnownContext(cache.items[0]);
      var conn := AllocConnCtx();
      StartConn(conn, peer);
    }

    /** create_new_conn: false when no context can be had. */
    method CreateNewConn(allocOk: seq<bool>, peer: Peer) returns (ok: bool, ghost got: seq<Link>)
      requires Valid() && |allocOk| == MIN_CONN_CTX_CACHE_CNT && peer.env.Valid()
      modifies this, cache, cache.head, cache.items, queue, queue.head, queue.items, Contexts()
      ensures Valid() && Usable(old(View()), got)
      ensures Create(old(View()), got, peer) == if ok then Created(View()) else OutOfMemory(View())
      ensures fresh(ctx.Keys - old(ctx.Keys)) && fresh(Contexts() - old(Contexts()))
      ensures !ok <==> old(cnt) == 0 && forall i :: 0 <= i < |allocOk| ==> !allocOk[i]
    {
      hide Inv, Own, Fill, Take, Usable, List.Valid, List.Ring, Coupled, Env.Valid, Shape, Contexts;
      ghost var before := View();
      got := RefillCache(allocOk);
      CreateKeepsInv(before, got, peer);
      CreateKeepsOwn(before, got, peer);
      if cnt == 0 {
        return false, got;
      }
      NoContext();
      TakeContext(peer);
      return true, got;
    }

    // ---- the main loop ------------------------------------------------------------------

    /** A queued connection is where a window has overrun the buffer. */
    ghost predicate AnyCrashed()
      reads this, queue, Contexts()
    {
      exists l <- queue.items :: l in conns && conns[l].phase.Stopped? && conns[l].phase.why.Crashed?
    }

    lemma {:induction false} CrashIsReal()
      requires Valid()
      ensures crashed <==> AnyCrashed()
    {
      hide Inv, Own, Coupled;
      ConnectionIsolation(View());
      forall l <- queue.items ensures l in conns && l in ctx && ctx[l] == AsCtx(conns[l]) {
        QueuedIsKnown(l);
      }
    }

    /** No queued connection waits to be closed. */
    ghost predicate NoneLingers()
      reads this, queue, Contexts()
    {
      forall l <- queue.items ::
        l in conns && !conns[l].isCompleted && (conns[l].phase.Stopped? ==> conns[l].phase.why.Crashed?)
    }

    lemma {:induction false} AccountedOnHeap(peers: seq<Peer>)
      requires Valid() && Accounted(View(), peers)
      ensures NoneLingers()
    {
      hide Inv, Own, Coupled;
      NoneCompleted(View());
      forall l <- queue.items ensures l in conns && l in ctx && ctx[l] == AsCtx(conns[l]) {
        QueuedIsKnown(l);
      }
    }

    lemma {:induction false} QueuedIsKnown(l: Link)
      requires Coupled() && Inv(View()) && l in queue.items
      ensures l in conns && l in ctx && ctx[l] == AsCtx(conns[l])
    {
    }

    /** Isolation, said of the memory of a queued connection: it is at a point of the run of its handler,
        in line with its own stream. */
    lemma {:induction false} HeapIsolation(l: Link)
      requires Valid() && l in queue.items
      ensures l in conns && conns[l].gen < |born|
      ensures var start := born[conns[l].gen];
        Startable(start) && Reaches(start, conns[l].Now()) && InLine(StreamOf(start), conns[l].Now())
    {
      hide Inv, Own, Coupled, Reaches, InLine, Startable;
      ConnectionIsolation(View());
      QueuedIsKnown(l);
    }

    /** The timeout of epoll_pwait: block only when no queued connection is active. */
    method Timeout() returns (timeout: int)
      requires Valid()
      ensures timeout == EpollTimeout(View())
      ensures timeout == -1 <==> forall c <- queue.items :: c in ctx && !ctx[c].active
    {
      hide Own, Coupled;
      BlocksIffAllInactive(View());
      timeout := if active != 0 then 0 else -1;
    }

    /** One turn: perhaps a new connection, then the pass.  False stands for the exit of the process. */
    method Turn(accepting: Option<Peer>, allocOk: seq<bool>, behave: Behaviour)
        returns (ok: bool, ghost arrival: Arrival<Link>)
      requires Valid() && |allocOk| == MIN_CONN_CTX_CACHE_CNT && (accepting.Some? ==> accepting.value.env.Valid())
      modifies this, queue, queue.head, cache, cache.head, ctx.Keys, Contexts()
      ensures Valid() && UsableArrival(old(View()), arrival) && (arrival.Arrival? <==> accepting.Some?)
      ensures arrival.Arrival? ==> arrival.peer == accepting.value
      ensures Iterate(old(View()), arrival, behave) == if ok then Created(View()) else OutOfMemory(View())
      ensures fresh(ctx.Keys - old(ctx.Keys)) && fresh(Contexts() - old(Contexts()))
      ensures !ok ==> accepting.Some? && forall i :: 0 <= i < |allocOk| ==> !allocOk[i]
    {
      hide Inv, Own, PassAll, Create, Usable, List.Valid, Coupled, Env.Valid;
      ghost var before := View();
      arrival := NoArrival;
      if accepting.Some? {
        ghost var got;
        ok, got := CreateNewConn(allocOk, accepting.value);
        arrival := Arrival(got, accepting.value);
        CreateKeepsInv(before, got, accepting.value);
        if !ok {
          return;
        }
      }
      HandleQueue(behave);
      ok := true;
    }

    /** A turn extends the run of the state machine. */
    method NextTurn(accepting: Option<Peer>, allocOk: seq<bool>, behave: Behaviour, ghost got: seq<Link>,
                    ghost inputs: seq<Input<Link>>)
        returns (ok: bool, ghost input: Input<Link>)
      requires Valid() && FairInv(View()) && !crashed && After(got, inputs) == Some(View())
      requires |allocOk| == MIN_CONN_CTX_CACHE_CNT && (accepting.Some? ==> accepting.value.env.Valid())
      modifies this, queue, queue.head, cache, cache.head, ctx.Keys, Contexts()
      ensures Valid() && MetBy(input, accepting, behave)
      ensures ok ==> FairInv(View()) && After(got, inputs + [input]) == Some(View())
      ensures !ok ==> accepting.Some? && After(got, inputs + [input]) == None
      ensures !ok ==> forall i :: 0 <= i < |allocOk| ==> !allocOk[i]
      ensures forall l <- ctx.Keys :: l in old(ctx.Keys) || fresh(l)
      ensures forall o <- Contexts() :: o in old(Contexts()) || fresh(o)
    {
      hide Inv, Own, FairInv, Iterate, UsableArrival, Env.Valid, Shape, Coupled, After;
      ghost var before := View();
      ghost var arrival;
      ok, arrival := Turn(accepting, allocOk, behave);
      input := Input(arrival, behave);
      IterateKeepsInv(before, arrival, behave);
      OneMoreTurn(got, inputs, before, input);
    }

    /** The main loop, until the process is gone or nothing more is to come. */
    method RunTurns(accepting: seq<Option<Peer>>, allocOk: seq<seq<bool>>, behave: seq<Behaviour>, ghost got: seq<Link>)
        returns (turns: nat, ok: bool, ghost inputs: seq<Input<Link>>)
      requires Valid() && FairInv(View()) && After(got, []) == Some(View()) && !crashed
      requires |accepting| == |allocOk| == |behave| && forall ok <- allocOk :: |ok| == MIN_CONN_CTX_CACHE_CNT
      requires forall a <- accepting :: a.Some? ==> a.value.env.Valid()
      modifies this, queue, queue.head, cache, cache.head, ctx.Keys, Contexts()
      ensures Valid() && turns <= |accepting| && |inputs| <= |accepting|
      ensures forall i :: 0 <= i < |inputs| ==> MetBy(inputs[i], accepting[i], behave[i])
      ensures ok ==> FairInv(View()) && |inputs| == turns && After(got, inputs) == Some(View())
      ensures ok && turns < |accepting| ==> crashed
      ensures !ok ==> turns < |accepting| && accepting[turns].Some? && After(got, inputs) == None
      ensures !ok ==> forall i :: 0 <= i < |allocOk[turns]| ==> !allocOk[turns][i]
    {
      hide Inv, Own, FairInv, Env.Valid, Shape, Coupled, After, MetBy, View, Contexts;
      turns, ok, inputs := 0, true, [];
      while turns < |accepting| && !crashed
        invariant Valid() && FairInv(View()) && turns <= |accepting|
        invariant |inputs| == turns && After(got, inputs) == Some(View())
        invariant forall i :: 0 <= i < |inputs| ==> MetBy(inputs[i], accepting[i], behave[i])
        invariant forall l <- ctx.Keys :: l in old(ctx.Keys) || fresh(l)
        invariant forall o <- Contexts() :: o in old(Contexts()) || fresh(o)
        decreases |accepting| - turns
      {
        ghost var input;
        ok, input := NextTurn(accepting[turns], allocOk[turns], behave[turns], got, inputs);
        inputs := inputs + [input];
        if !ok {
          return;
        }
        turns := turns + 1;
      }
    }

    /** What Valid and a fair history say of the worker. */
    lemma {:induction false} Worked()
      requires Valid() && FairInv(View())
      ensures Isolated(View()) && RoundRobinInLog(View())
    {
      hide Inv, Own, FairInv, Isolated, RoundRobinInLog, Shape, Coupled;
      ConnectionIsolation(View());
      FairOverLog(View());
    }
  }

  /** init_conn_queue and init_conn_ctx_cache. */
  method StartWorker(startOk: seq<bool>) returns (server: Server, ghost got: seq<Link>)
    requires |startOk| == MIN_CONN_CTX_CACHE_CNT
    ensures server.Valid() && FairInv(server.View()) && Private(server) && !server.crashed
    ensures After(got, []) == Some(server.View())
  {
    hide Inv, Own, FairInv, Usable, List.Valid, Server.Coupled, Server.Shape, Fill, Empty, Server.View, After;
    server := new Server();
    got := server.InitConnCtxCache(startOk);
  }

  /** All of the worker's state has been made by itself. */
  twostate predicate Private(new server: Server)
    reads server
  {
    && fresh(server) && fresh(server.queue) && fresh(server.queue.head) && fresh(server.cache)
    && fresh(server.cache.head) && fresh(server.ctx.Keys) && fresh(server.Contexts())
  }

  /** The turn met what came, and the coroutines behaved as they did. */
  ghost predicate MetBy(input: Input<Link>, accepting: Option<Peer>, behave: Behaviour) {
    && input.behave == behave && (input.arrival.Arrival? <==> accepting.Some?)
    && (accepting.Some? ==> input.arrival.peer == accepting.value)
  }

  lemma {:induction false} OneMoreTurn(got: seq<Link>, inputs: seq<Input<Link>>, s: State<Link>, input: Input<Link>)
    requires After(got, inputs) == Some(s) && !s.crashed && Inv(s) && UsableArrival(s, input.arrival)
    ensures var next := Iterate(s, input.arrival, input.behave);
      After(got, inputs + [input]) == if next.Created? then Some(next.state) else None
  {
    hide Inv, UsableArrival, Iterate, After;
    AfterNext(got, inputs, input);
  }

  /** The worker: start up, then any number of turns.  Its state at every loop head is that of the state
      machine, whatever arrives, can be allocated, and is done by the coroutines; so every connection is
      isolated and the passes have been fair.  It ends early exactly when no context can be had or a
      handler has crashed. */
  method RunWorker(startOk: seq<bool>, accepting: seq<Option<Peer>>, allocOk: seq<seq<bool>>, behave: seq<Behaviour>)
      returns (server: Server, turns: nat, ok: bool, ghost got: seq<Link>, ghost inputs: seq<Input<Link>>)
    requires |startOk| == MIN_CONN_CTX_CACHE_CNT && |accepting| == |allocOk| == |behave|
    requires forall ok <- allocOk :: |ok| == MIN_CONN_CTX_CACHE_CNT
    requires forall a <- accepting :: a.Some? ==> a.value.env.Valid()
    ensures server.Valid() && turns <= |accepting| && |inputs| <= |accepting|
    ensures forall i :: 0 <= i < |inputs| ==> MetBy(inputs[i], accepting[i], behave[i])
    ensures ok ==> |inputs| == turns && After(got, inputs) == Some(server.View())
    ensures ok ==> Isolated(server.View()) && RoundRobinInLog(server.View())
    ensures ok ==> Accounted(server.View(), Peers(inputs)) && server.NoneLingers()
    ensures server.crashed <==> server.AnyCrashed()
    ensures ok && turns < |accepting| ==> server.crashed
    ensures !ok ==> turns < |accepting| && accepting[turns].Some? && After(got, inputs) == None
    ensures !ok ==> forall i :: 0 <= i < |allocOk[turns]| ==> !allocOk[turns][i]
  {
    hide Inv, Own, FairInv, Env.Valid, Server.Shape, Server.Coupled, Server.View, After, MetBy;
    hide Isolated, RoundRobinInLog, Accounted, Server.AnyCrashed, Server.NoneLingers;
    server, got := StartWorker(startOk);
    turns, ok, inputs := server.RunTurns(accepting, allocOk, behave, got);
    server.CrashIsReal();
    if ok {
      server.Worked();
      AllAccounted(got, inputs);
      server.AccountedOnHeap(Peers(inputs));
    }
  }

  lemma {:induction false} MoreTrue(oks: seq<bool>, n: nat)
    requires n < |oks|
    ensures multiset(oks[..n + 1])[true] == multiset(oks[..n])[true] + if oks[n] then 1 else 0
  {
    assert oks[..n + 1] == oks[..n] + [oks[n]];
  }

  lemma {:induction false} AllTrue(oks: seq<bool>)
    ensures (forall i :: 0 <= i < |oks| ==> oks[i]) ==> multiset(oks)[true] == |oks|
  {
    if oks != [] {
      AllTrue(oks[..|oks| - 1]);
      MoreTrue(oks, |oks| - 1);
      assert oks[..|oks|] == oks;
    }
  }

  lemma {:induction false} NoneTrue(oks: seq<bool>)
    ensures multiset(oks)[true] == 0 <==> forall i :: 0 <= i < |oks| ==> !oks[i]
  {
    assert true in multiset(oks) <==> true in oks;
  }

  lemma {:induction false} NoneUsable(s: State<Link>)
    ensures Usable(s, [])
  {
  }

  lemma {:induction false} OneMoreUsable(s: State<Link>, got: seq<Link>, conn: Link)
    requires Usable(s, got) && |got| < MIN_CONN_CTX_CACHE_CNT && conn !in Fill(s, got).ctx
    ensures Usable(s, got + [conn])
  {
  }

  lemma {:induction false} CountersFit(s: State<Link>)
    requires Inv(s)
    ensures s.cnt == |s.cache|
  {
  }

  lemma {:induction false} FilledKeys(s: State<Link>, got: seq<Link>)
    ensures Fill(s, got).ctx.Keys == s.ctx.Keys + set c <- got
    ensures forall c <- Fill(s, got).cache :: c in s.cache || c in got
  {
    ReverseFacts(got);
  }

  lemma {:induction false} FilledCounts(s: State<Link>, got: seq<Link>)
    requires Inv(s)
    ensures s.cnt == |s.cache| && Fill(s, got).cnt == |Fill(s, got).cache|
  {
  }

  lemma {:induction false} FillNothing(s: State<Link>)
    ensures Fill(s, []) == s
  {
    assert Fill(s, []).ctx == s.ctx && Fill(s, []).cache == s.cache;
  }

  lemma {:induction false} ReverseSnoc(s: seq<Link>, x: Link)
    ensures Reverse(s + [x]) == [x] + Reverse(s)
  {
    if s == [] {
      assert [] + [x] == [x] && Reverse([x][1..]) == [];
    } else {
      assert (s + [x])[1..] == s[1..] + [x];
      ReverseSnoc(s[1..], x);
    }
  }

  lemma {:induction false} FreshSnoc(got: seq<Link>, conn: Link)
    ensures FreshContexts(got + [conn]) == FreshContexts(got)[conn := Ctx(0, false, false, NewContext())]
  {
    hide NewContext;
  }

  lemma {:induction false} UpdateLater(m: map<Link, Ctx>, n: map<Link, Ctx>, conn: Link, x: Ctx)
    ensures m + n[conn := x] == (m + n)[conn := x]
  {
  }

  lemma {:induction false} FillOneMore(s: State<Link>, got: seq<Link>, conn: Link)
    ensures Fill(s, got + [conn]) == Fill(s, got).(
      cache := [conn] + Fill(s, got).cache, cnt := Fill(s, got).cnt + 1, made := Fill(s, got).made + 1,
      ctx := Fill(s, got).ctx[conn := Ctx(0, false, false, NewContext())])
  {
    ReverseSnoc(got, conn);
    FreshSnoc(got, conn);
    hide Reverse, NewContext, FreshContexts;
    assert [conn] + Reverse(got) + s.cache == [conn] + (Reverse(got) + s.cache);
    UpdateLater(s.ctx, FreshContexts(got), conn, Ctx(0, false, false, NewContext()));
  }
}
