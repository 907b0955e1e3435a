/** Every connection is accounted for: while its handler runs it is queued, and once that has stopped its
    socket is closed and its context goes on to another connection, memory and all. */
module Closing {
  import opened Bytes
  import opened Handler
  import opened Schedule
  import opened ScheduleRuns

  /** The handler has run to its end, and the process is still there. */
  predicate Over(t: Task) { t.phase.Stopped? && !t.phase.why.Crashed? }

  // ---- where connections start ------------------------------------------------------------

  ghost predicate Blank(t: Task) {
    |t.buf| == 8192 && (forall i :: 0 <= i < 8192 ==> t.buf[i] == '\0') && t.have == t.curr == 0
  }

  predicate SameMemory(t: Task, u: Task) { t.buf == u.buf && t.have == u.have && t.curr == u.curr }

  /** The memory and the positions are new, or what one closed connection has left. */
  ghost predicate Comes(t: Task, ended: map<nat, Task>) {
    Blank(t) || exists g <- ended :: SameMemory(t, ended[g])
  }

  /** A coroutine at its beginning, on what the peer brings. */
  ghost predicate StartsFor(t: Task, peer: Peer) {
    && t.unread == peer.stream && t.readEvents == peer.readEvents && t.writeEvents == peer.writeEvents
    && t.env == peer.env && t.wire == "" && t.served == [] && t.phase.Ready?
  }

  // ---- the invariant ----------------------------------------------------------------------

  ghost predicate Queued<T>(s: State<T>, g: nat) { exists c <- s.queue :: c in s.ctx && s.ctx[c].gen == g }

  /** In the queue, completed means stopped and recorded. */
  ghost predicate QueueTraced<T>(s: State<T>) {
    forall c <- s.queue ::
      && c in s.ctx && (s.ctx[c].completed <==> Over(s.ctx[c].task))
      && (s.ctx[c].completed ==> s.ctx[c].gen in s.ended && s.ended[s.ctx[c].gen] == s.ctx[c].task)
  }

  /** A connection has ended exactly if its socket is closed, and no accepted one is lost. */
  ghost predicate EndsTraced<T>(s: State<T>) {
    && (forall g: nat :: g in s.ended <==> SocketClosed(g) in s.log)
    && (forall g <- s.ended :: Over(s.ended[g]))
    && (forall g: nat :: g < s.accepted ==> Queued(s, g) || g in s.ended)
  }

  ghost predicate MemoryTraced<T>(s: State<T>, peers: seq<Peer>) {
    && (forall c <- s.cache :: c in s.ctx && Comes(s.ctx[c].task, s.ended))
    && |s.born| == |peers| == s.accepted
    && (forall g :: 0 <= g < |peers| ==> StartsFor(s.born[g], peers[g]) && Comes(s.born[g], s.ended))
  }

  ghost predicate Traced<T>(s: State<T>, peers: seq<Peer>) {
    QueueTraced(s) && EndsTraced(s) && MemoryTraced(s, peers)
  }

  // ---- what a running coroutine does ------------------------------------------------------

  ghost predicate Extends(ended: map<nat, Task>, ended': map<nat, Task>) {
    forall g <- ended :: g in ended' && ended'[g] == ended[g]
  }

  lemma {:induction false} StillComes(t: Task, ended: map<nat, Task>, ended': map<nat, Task>)
    requires Comes(t, ended) && Extends(ended, ended')
    ensures Comes(t, ended')
  {
    hide Blank, SameMemory;
    if !Blank(t) {
      var g :| g in ended && SameMemory(t, ended[g]);
      assert SameMemory(t, ended'[g]);
    }
  }

  /** An act on `c`: a step past its end does nothing; the step that ends it is recorded. */
  lemma {:induction false} ActFacts<T>(s: State<T>, c: T, act: Act)
    requires c in s.ctx && (s.ctx[c].completed <==> Over(s.ctx[c].task))
    ensures var s' := DoAct(s, c, act); var x, y := s.ctx[c], s'.ctx[c];
      && (y.completed <==> Over(y.task))
      && (if y.completed && !x.completed
          then s'.ended == s.ended[x.gen := y.task] && s'.log == s.log + [SocketClosed(x.gen)]
          else s'.ended == s.ended && s'.log == s.log && (x.completed ==> y.completed && y.task == x.task))
  {
    hide Step;
    if s.ctx[c].task.phase.Stopped? {
      StoppedStays(s.ctx[c].task);
    }
  }

  lemma {:induction false} NotYetEnded<T>(s: State<T>, c: T)
    requires Serving(s, c) && EndsTraced(s) && !s.ctx[c].completed
    ensures s.ctx[c].gen !in s.ended
  {
  }

  lemma {:induction false} ActTraces<T>(s: State<T>, peers: seq<Peer>, c: T, act: Act)
    requires Serving(s, c) && Traced(s, peers)
    ensures Traced(DoAct(s, c, act), peers)
  {
    hide DoAct, Over, Comes, StartsFor;
    var s' := DoAct(s, c, act);
    ServedIsQueued(s, c);
    DoActIs(s, c, act);
    ActFacts(s, c, act);
    if s'.ctx[c].completed && !s.ctx[c].completed {
      NotYetEnded(s, c);
    }
    assert Extends(s.ended, s'.ended);
    forall t | Comes(t, s.ended) ensures Comes(t, s'.ended) {
      StillComes(t, s.ended, s'.ended);
    }
    ActAccounts(s, s', c);
    CacheApart(s, c);
    QueueApart(s, s', c);
  }

  lemma {:induction false} ServedIsQueued<T>(s: State<T>, c: T)
    requires Serving(s, c)
    ensures c in s.queue && c in s.ctx
  {
  }

  lemma {:induction false} CacheApart<T>(s: State<T>, c: T)
    requires Serving(s, c)
    ensures forall d <- s.cache :: d in s.ctx && d != c
  {
  }

  /** The other queued connections have other numbers, so what is recorded of `c` is not about them. */
  lemma {:induction false} QueueApart<T>(s: State<T>, s': State<T>, c: T)
    requires Serving(s, c) && QueueTraced(s) && s'.queue == s.queue
    requires c in s'.ctx && s'.ctx == s.ctx[c := s'.ctx[c]] && s'.ctx[c].gen == s.ctx[c].gen
    requires s'.ctx[c].completed <==> Over(s'.ctx[c].task)
    requires if s'.ctx[c].completed && !s.ctx[c].completed then s'.ended == s.ended[s.ctx[c].gen := s'.ctx[c].task]
             else s'.ended == s.ended && (s.ctx[c].completed ==> s'.ctx[c].task == s.ctx[c].task)
    ensures QueueTraced(s')
  {
    hide Over;
    forall d <- s.queue | d != c ensures s.ctx[d].gen != s.ctx[c].gen {
      var i :| 0 <= i < |s.queue| && s.queue[i] == c;
      var j :| 0 <= j < |s.queue| && s.queue[j] == d;
    }
  }

  lemma {:induction false} ActAccounts<T>(s: State<T>, s': State<T>, c: T)
    requires EndsTraced(s) && c in s.queue && c in s.ctx && s'.queue == s.queue && s'.accepted == s.accepted
    requires c in s'.ctx && s'.ctx == s.ctx[c := s'.ctx[c]] && s'.ctx[c].gen == s.ctx[c].gen
    requires (s'.ended == s.ended && s'.log == s.log)
          || (s'.ended == s.ended[s.ctx[c].gen := s'.ctx[c].task] && Over(s'.ctx[c].task)
              && s'.log == s.log + [SocketClosed(s.ctx[c].gen)])
    ensures EndsTraced(s')
  {
    hide Over;
    forall g: nat | g < s.accepted ensures Queued(s', g) || g in s'.ended {
      if Queued(s, g) {
        var d :| d in s.queue && d in s.ctx && s.ctx[d].gen == g;
        assert d in s'.ctx && s'.ctx[d].gen == g;
      }
    }
  }

  lemma {:induction false} ActsTrace<T>(s: State<T>, peers: seq<Peer>, c: T, acts: seq<Act>)
    requires Serving(s, c) && Traced(s, peers)
    ensures c in s.ctx && Traced(DoActs(s, c, acts), peers)
    decreases |acts|
  {
    hide Serving, Traced, DoAct;
    ServedIsQueued(s, c);
    if acts != [] {
      ActTraces(s, peers, c, acts[0]);
      DoActServes(s, c, acts[0]);
      ActsTrace(DoAct(s, c, acts[0]), peers, c, acts[1..]);
    }
  }

  // ---- reaping ----------------------------------------------------------------------------

  lemma {:induction false} ReapTraces<T>(s: State<T>, peers: seq<Peer>, kept: seq<T>, c: T, order: seq<T>)
    requires Placed(s) && Traced(s, peers) && s.queue == kept + [c] + order && c in s.ctx && s.ctx[c].completed
    ensures Traced(Free(Remove(s, c), c), peers)
  {
    hide Placed, Over, StartsFor, Comes, Without;
    var s' := Free(Remove(s, c), c);
    ReapPlaces(s, kept, c, order);
    assert s.queue[|kept|] == c && forall d <- s'.queue :: d in s.queue;
    PlacedIn(s');
    PlacedIn(s);
    ReapAccounts(s, s', kept, c, order);
    EndedComes(s, c);
  }

  lemma {:induction false} EndedComes<T>(s: State<T>, c: T)
    requires QueueTraced(s) && c in s.queue && s.ctx[c].completed
    ensures Comes(s.ctx[c].task, s.ended)
  {
    assert SameMemory(s.ctx[c].task, s.ended[s.ctx[c].gen]);
  }

  lemma {:induction false} ReapAccounts<T>(s: State<T>, s': State<T>, kept: seq<T>, c: T, order: seq<T>)
    requires EndsTraced(s) && s.queue == kept + [c] + order && s'.queue == kept + order
    requires c in s.ctx && s.ctx[c].gen in s.ended
    requires s'.ended == s.ended && s'.log == s.log && s'.accepted == s.accepted
    requires forall d <- s'.queue :: d in s'.ctx && d in s.ctx && s'.ctx[d] == s.ctx[d]
    ensures EndsTraced(s')
  {
    hide Over;
    forall g: nat | g < s.accepted ensures Queued(s', g) || g in s'.ended {
      if Queued(s, g) {
        var d :| d in s.queue && d in s.ctx && s.ctx[d].gen == g;
        if d != c {
          assert d in s'.queue;
        }
      }
    }
  }

  lemma {:induction false} ResumedTraces<T>(s: State<T>, peers: seq<Peer>, g: nat)
    requires Traced(s, peers)
    ensures Traced(s.(log := s.log + [Resumed(g)]), peers)
  {
    hide Over, Comes, StartsFor;
    var s' := s.(log := s.log + [Resumed(g)]);
    assert forall h: nat :: SocketClosed(h) in s'.log <==> SocketClosed(h) in s.log;
    assert forall h: nat :: Queued(s, h) ==> Queued(s', h);
  }

  lemma {:induction false} ServeTraces<T>(s: State<T>, peers: seq<Peer>, kept: seq<T>, c: T, order: seq<T>,
                                          acts: seq<Act>)
    requires Inv(s) && Traced(s, peers) && s.queue == kept + [c] + order
    ensures c in s.ctx && Traced(Serve(s, c, acts), peers)
  {
    hide Traced, DoActs, Counted, LiveQueue, Running, Placed, Free, Remove;
    QueueGens(s);
    assert s.queue[|kept|] == c;
    var s1 := s.(log := s.log + [Resumed(s.ctx[c].gen)]);
    ServeStarts(s, c);
    ResumedTraces(s, peers, s.ctx[c].gen);
    DoActsServe(s1, c, acts);
    ActsTrace(s1, peers, c, acts);
    var s2 := DoActs(s1, c, acts);
    if s2.ctx[c].completed {
      ReapTraces(s2, peers, kept, c, order);
    }
  }

  // ---- what a resumption comes to ---------------------------------------------------------

  function Advances(acts: seq<Act>): nat {
    if acts == [] then 0 else (if acts[0].Advance? then 1 else 0) + Advances(acts[1..])
  }

  lemma {:induction false} ActAdvances<T>(s: State<T>, c: T, act: Act)
    requires c in s.ctx
    ensures DoAct(s, c, act).ctx[c].task == Steps(s.ctx[c].task, Advances([act]))
  {
    hide Step;
    assert [act][1..] == [];
    assert Steps(s.ctx[c].task, 1) == Step(Steps(s.ctx[c].task, 0));
  }

  lemma {:induction false} ActsAdvance<T>(s: State<T>, c: T, acts: seq<Act>)
    requires c in s.ctx
    ensures DoActs(s, c, acts).ctx[c].task == Steps(s.ctx[c].task, Advances(acts))
    decreases |acts|
  {
    hide Step, DoAct;
    if acts != [] {
      assert [acts[0]][1..] == [];
      ActAdvances(s, c, acts[0]);
      DoActIs(s, c, acts[0]);
      ActsAdvance(DoAct(s, c, acts[0]), c, acts[1..]);
      StepsAdd(s.ctx[c].task, Advances([acts[0]]), Advances(acts[1..]));
    }
  }

  /** The end of a connection: its socket is closed, it leaves the queue, and its context is cached, first in
      line and with its memory as it is, unless the cache is full. */
  ghost predicate IsClosed<T>(s: State<T>, s': State<T>, c: T, t: Task)
    requires c in s.ctx
  {
    var g := s.ctx[c].gen;
    && c !in s'.queue && g in s'.ended && s'.ended[g] == t && SocketClosed(g) in s'.log
    && if s.cnt < 300 then
         s'.cache == [c] + s.cache && s'.cnt == s.cnt + 1 && s'.freed == s.freed && c in s'.ctx && s'.ctx[c].task == t
       else
         s'.cache == s.cache && s'.cnt == s.cnt && s'.freed == s.freed + 1 && c !in s'.ctx
  }

  /** A resumed coroutine does the steps of its handler, and nothing else; once that has stopped, for whatever
      reason but a crash, the connection is closed and reaped before the next one is resumed. */
  lemma {:induction false} ServeOutcome<T>(s: State<T>, peers: seq<Peer>, kept: seq<T>, c: T, order: seq<T>,
                                           acts: seq<Act>)
    requires Inv(s) && Traced(s, peers) && s.queue == kept + [c] + order
    ensures c in s.ctx
    ensures var s', t := Serve(s, c, acts), Steps(s.ctx[c].task, Advances(acts));
      if t.phase.Stopped? && !t.phase.why.Crashed? then s'.queue == kept + order && IsClosed(s, s', c, t)
      else s'.queue == s.queue && c in s'.ctx && s'.ctx[c].task == t && s'.ctx[c].gen == s.ctx[c].gen
  {
    hide Traced, DoActs, Counted, LiveQueue, Placed, Steps;
    QueueGens(s);
    assert s.queue[|kept|] == c;
    var s1 := s.(log := s.log + [Resumed(s.ctx[c].gen)]);
    ServeStarts(s, c);
    ResumedTraces(s, peers, s.ctx[c].gen);
    DoActsServe(s1, c, acts);
    ActsTrace(s1, peers, c, acts);
    ActsAdvance(s1, c, acts);
    var s2 := DoActs(s1, c, acts);
    ServedIs(s2, peers, c);
    ActsKeepCache(s1, c, acts);
    if s2.ctx[c].completed {
      ReapedIs(s2, kept, c, order);
    }
  }

  lemma {:induction false} ServedIs<T>(s: State<T>, peers: seq<Peer>, c: T)
    requires Serving(s, c) && Traced(s, peers)
    ensures c in s.ctx && (s.ctx[c].completed <==> Over(s.ctx[c].task))
    ensures s.ctx[c].completed ==>
      var g := s.ctx[c].gen; g in s.ended && s.ended[g] == s.ctx[c].task && SocketClosed(g) in s.log
  {
    hide Over, MemoryTraced;
  }

  lemma {:induction false} ActsKeepCache<T>(s: State<T>, c: T, acts: seq<Act>)
    requires c in s.ctx
    ensures var s' := DoActs(s, c, acts);
      s'.cache == s.cache && s'.cnt == s.cnt && s'.freed == s.freed && s'.ctx[c].gen == s.ctx[c].gen
    decreases |acts|
  {
    hide DoAct;
    if acts != [] {
      DoActIs(s, c, acts[0]);
      ActsKeepCache(DoAct(s, c, acts[0]), c, acts[1..]);
    }
  }

  lemma {:induction false} ReapedIs<T>(s: State<T>, kept: seq<T>, c: T, order: seq<T>)
    requires Placed(s) && s.queue == kept + [c] + order && c in s.ctx
    ensures var s' := Free(Remove(s, c), c);
      && s'.queue == kept + order && c !in s'.queue && s'.log == s.log && s'.ended == s.ended
      && if s.cnt < 300 then
           && s'.cache == [c] + s.cache && s'.cnt == s.cnt + 1 && s'.freed == s.freed
           && c in s'.ctx && s'.ctx[c] == s.ctx[c]
         else
           s'.cache == s.cache && s'.cnt == s.cnt && s'.freed == s.freed + 1 && c !in s'.ctx
  {
    hide Without;
    DistinctSplit(kept, c, order);
    WithoutSplit(kept, c, order);
  }

  // ---- turns ------------------------------------------------------------------------------

  lemma {:induction false} PassTraces<T>(s: State<T>, peers: seq<Peer>, kept: seq<T>, order: seq<T>, behave: Behaviour)
    requires Inv(s) && Traced(s, peers) && s.queue == kept + order && AllIn(order, s.ctx) && Distinct(order)
    ensures Traced(Pass(s, order, behave), peers)
    decreases |order|
  {
    hide Inv, Traced, Serve, Pass;
    if order == [] {
      EmptyPass(s, behave);
    } else {
      var c, more := order[0], order[1..];
      assert order == [c] + more && s.queue == kept + [c] + more;
      PassStep(s, c, more, behave);
      var acts := behave(s.ctx[c].gen, |s.log|);
      var s1 := Serve(s, c, acts);
      ServeKeepsInv(s, kept, c, more, acts);
      ServeTraces(s, peers, kept, c, more, acts);
      if s1.queue == kept + [c] + more {
        assert s1.queue == (kept + [c]) + more;
        PassTraces(s1, peers, kept + [c], more, behave);
      } else {
        PassTraces(s1, peers, kept, more, behave);
      }
    }
  }

  lemma {:induction false} RoundTraces<T>(s: State<T>, peers: seq<Peer>, rounds: seq<Round>)
    requires Traced(s, peers)
    ensures Traced(s.(rounds := rounds), peers)
  {
    hide Over, Comes, StartsFor;
    assert forall h: nat :: Queued(s, h) ==> Queued(s.(rounds := rounds), h);
  }

  lemma {:induction false} PassAllTraces<T>(s: State<T>, peers: seq<Peer>, behave: Behaviour)
    requires Inv(s) && Traced(s, peers)
    ensures Traced(PassAll(s, behave), peers)
  {
    hide Inv, Pass, Traced;
    QueueGens(s);
    assert s.queue == [] + s.queue;
    PassTraces(s, peers, [], s.queue, behave);
    RoundTraces(Pass(s, s.queue, behave), peers, PassAll(s, behave).rounds);
  }

  lemma {:induction false} NewIsBlank()
    ensures Blank(NewContext())
  {
  }

  lemma {:induction false} FillTraces<T>(s: State<T>, peers: seq<Peer>, got: seq<T>)
    requires Traced(s, peers) && (forall c <- got :: c !in s.ctx)
    ensures Traced(Fill(s, got), peers)
  {
    hide Over, StartsFor, NewContext, Reverse, Blank, SameMemory;
    NewIsBlank();
    ReverseFacts(got);
    var s' := Fill(s, got);
    assert forall c <- s'.cache :: c in s.cache || c in got;
    assert forall c <- s.queue :: s'.ctx[c] == s.ctx[c];
    assert forall h: nat :: Queued(s, h) ==> Queued(s', h);
  }

  lemma {:induction false} TakeTraces<T>(s: State<T>, peers: seq<Peer>, peer: Peer)
    requires Inv(s) && Traced(s, peers) && s.cnt != 0
    ensures s.cache != [] && s.cache[0] in s.ctx && Traced(Take(s, peer), peers + [peer])
  {
    hide Counted, LiveQueue;
    CountIs(s);
    var c := s.cache[0];
    assert c in s.cache && s.cache == [c] + s.cache[1..];
    TakePlaces(s, peer);
    TakeMemory(s, peers, peer);
    TakeEnds(s, peer);
  }

  lemma {:induction false} TakeMemory<T>(s: State<T>, peers: seq<Peer>, peer: Peer)
    requires Placed(s) && MemoryTraced(s, peers) && s.cache != [] && s.cache[0] in s.ctx
    ensures MemoryTraced(Take(s, peer), peers + [peer])
  {
    hide Comes, Distinct;
    var c, s' := s.cache[0], Take(s, peer);
    var task := Handover(s.ctx[c].task, peer);
    hide Take, StartsFor, Handover;
    TakeIs(s, peer);
    assert s.cache == [c] + s.cache[1..] && c in s.cache;
    SameComes(s.ctx[c].task, task, s.ended);
    assert forall g :: 0 <= g < |peers| ==> s'.born[g] == s.born[g];
  }

  lemma {:induction false} TakeIs<T>(s: State<T>, peer: Peer)
    requires Placed(s) && s.cache != [] && s.cache[0] in s.ctx
    ensures var s', task := Take(s, peer), Handover(s.ctx[s.cache[0]].task, peer);
      && s'.born == s.born + [task] && s'.accepted == s.accepted + 1 && s'.ended == s.ended
      && (forall d <- s'.cache :: d in s.cache && d in s.ctx && d in s'.ctx && s'.ctx[d] == s.ctx[d])
      && StartsFor(task, peer) && SameMemory(task, s.ctx[s.cache[0]].task)
  {
    assert s.cache == [s.cache[0]] + s.cache[1..];
  }

  lemma {:induction false} SameComes(t: Task, u: Task, ended: map<nat, Task>)
    requires Comes(t, ended) && SameMemory(u, t)
    ensures Comes(u, ended)
  {
    if !Blank(t) {
      var g :| g in ended && SameMemory(t, ended[g]);
      assert SameMemory(u, ended[g]);
    }
  }

  lemma {:induction false} TakeEnds<T>(s: State<T>, peer: Peer)
    requires Placed(s) && QueueTraced(s) && EndsTraced(s) && s.cache != [] && s.cache[0] in s.ctx
    requires Take(s, peer).queue == [s.cache[0]] + s.queue
    requires forall d <- s.queue :: d != s.cache[0] && Take(s, peer).ctx[d] == s.ctx[d]
    ensures QueueTraced(Take(s, peer)) && EndsTraced(Take(s, peer))
  {
    var c, s' := s.cache[0], Take(s, peer);
    assert forall d <- s'.queue :: d == c || d in s.queue;
    assert c in s'.queue && s'.ctx[c].gen == s.accepted;
    forall g: nat | g < s'.accepted ensures Queued(s', g) || g in s'.ended {
      if g < s.accepted && Queued(s, g) {
        var d :| d in s.queue && d in s.ctx && s.ctx[d].gen == g;
        assert d in s'.queue;
      }
    }
  }

  /** Accepting: it fails exactly when no context can be had; else the connection is at the head of the queue,
      active, at its beginning, on the context that was cached last, with its memory as it is, or on a new
      one. */
  lemma {:induction false} AcceptOutcome<T>(s: State<T>, got: seq<T>, peer: Peer)
    requires Inv(s) && Usable(s, got)
    ensures var r := Create(s, got, peer); var s' := r.state;
      && (r.Created? <==> s.cache != [] || got != [])
      && (r.Created? ==>
            var c := if s.cache != [] then s.cache[0] else got[|got| - 1];
            && s'.queue == [c] + s.queue && c in s'.ctx
            && s'.active == s.active + 1 && s'.inactive == s.inactive && s'.accepted == s.accepted + 1
            && s'.ctx[c].gen == s.accepted && s'.ctx[c].active && !s'.ctx[c].completed
            && StartsFor(s'.ctx[c].task, peer)
            && (if s.cache != [] then c in s.ctx && SameMemory(s'.ctx[c].task, s.ctx[c].task)
                else Blank(s'.ctx[c].task)))
  {
    hide Counted, LiveQueue, NewContext, Blank;
    CountIs(s);
    ReverseFacts(got);
    NewIsBlank();
    if s.cache != [] {
      assert s.cache[0] in s.cache;
    } else if got != [] {
      var c := got[|got| - 1];
      assert Fill(s, got).cache[0] == c && Fill(s, got).ctx[c].task == NewContext();
      BlankStays(NewContext(), peer);
    }
  }

  lemma {:induction false} BlankStays(t: Task, peer: Peer)
    requires Blank(t)
    ensures Blank(Handover(t, peer))
  {
  }

  lemma {:induction false} CreateTraces<T>(s: State<T>, peers: seq<Peer>, got: seq<T>, peer: Peer)
    requires Inv(s) && Traced(s, peers) && Usable(s, got)
    ensures Create(s, got, peer).Created? ==> Traced(Create(s, got, peer).state, peers + [peer])
  {
    hide Traced, Inv;
    if s.cnt == 0 {
      FillTraces(s, peers, got);
      FillKeepsInv(s, got);
      if Fill(s, got).cnt != 0 {
        TakeTraces(Fill(s, got), peers, peer);
      }
    } else {
      TakeTraces(s, peers, peer);
    }
  }

  // ---- runs -------------------------------------------------------------------------------

  /** Who has come, in order. */
  function Peers<T>(inputs: seq<Input<T>>): seq<Peer> {
    if inputs == [] then []
    else
      var n := |inputs| - 1;
      Peers(inputs[..n]) + (if inputs[n].arrival.Arrival? then [inputs[n].arrival.peer] else [])
  }

  lemma {:induction false} IterateTraces<T>(s: State<T>, peers: seq<Peer>, input: Input<T>)
    requires Inv(s) && Traced(s, peers) && UsableArrival(s, input.arrival)
    ensures var next := Iterate(s, input.arrival, input.behave);
      next.Created? ==>
        Traced(next.state, peers + if input.arrival.Arrival? then [input.arrival.peer] else [])
  {
    hide Inv, Traced, PassAll, Usable, Create;
    match input.arrival
    case NoArrival =>
      assert peers + [] == peers;
      PassAllTraces(s, peers, input.behave);
    case Arrival(got, peer) =>
      CreateKeepsInv(s, got, peer);
      CreateTraces(s, peers, got, peer);
      if Create(s, got, peer).Created? {
        PassAllTraces(Create(s, got, peer).state, peers + [peer], input.behave);
      }
  }

  lemma {:induction false} FirstIsTraced<T>(got: seq<T>)
    ensures Traced(Fill(Empty(), got), [])
  {
    FillTraces(Empty(), [], got);
  }

  lemma {:induction false} RunIsTraced<T>(got: seq<T>, inputs: seq<Input<T>>)
    requires After(got, inputs).Some?
    ensures Inv(After(got, inputs).value) && Traced(After(got, inputs).value, Peers(inputs))
    decreases |inputs|
  {
    hide Inv, FairInv, Traced, Iterate, Usable, UsableArrival;
    LoopHead(got, inputs);
    if inputs == [] {
      FirstIsTraced(got);
    } else {
      var n := |inputs| - 1;
      RunIsTraced(got, inputs[..n]);
      IterateTraces(After(got, inputs[..n]).value, Peers(inputs[..n]), inputs[n]);
    }
  }

  /** At a loop head nobody waits to be closed: a queued handler has not stopped, unless by a crash; every
      accepted connection is queued, or has ended and its socket is closed; the g-th one began on what the
      g-th peer brought, in memory that was new or what one closed connection had left. */
  ghost predicate Accounted<T>(s: State<T>, peers: seq<Peer>) {
    && (forall c <- s.queue :: c in s.ctx && (s.ctx[c].task.phase.Stopped? ==> s.ctx[c].task.phase.why.Crashed?))
    && (forall g: nat :: g < s.accepted ==> Queued(s, g) || (g in s.ended && SocketClosed(g) in s.log))
    && (forall g <- s.ended :: SocketClosed(g) in s.log && s.ended[g].phase.Stopped? && !s.ended[g].phase.why.Crashed?)
    && |s.born| == |peers| == s.accepted
    && (forall g :: 0 <= g < |peers| ==> StartsFor(s.born[g], peers[g]) && Comes(s.born[g], s.ended))
  }

  /** Over all runs of the main loop. */
  lemma {:induction false} AllAccounted<T>(got: seq<T>, inputs: seq<Input<T>>)
    requires After(got, inputs).Some?
    ensures Accounted(After(got, inputs).value, Peers(inputs))
  {
    hide After;
    RunIsTraced(got, inputs);
    NoneCompleted(After(got, inputs).value);
  }

  lemma {:induction false} NoneCompleted<T>(s: State<T>)
    requires Inv(s)
    ensures forall c <- s.queue :: c in s.ctx && !s.ctx[c].completed
  {
  }
}
