/** Connection isolation: in every run of the scheduler, each connection is where its handler alone on
    its own stream would have come to. */
module Isolation {
  import opened Bytes
  import opened Stream
  import opened Response
  import opened Handler
  import opened HandlerRuns
  import opened Progress
  import opened Schedule
  import opened ScheduleRuns

  /** A context's memory and positions are in bounds. */
  predicate Memory(t: Task) { |t.buf| == RECV_BUF_SIZE && t.curr <= t.have <= RECV_BUF_SIZE }

  /** Every connection in the queue has done some steps of its own since it started, and every closed
      one has run to its end. */
  ghost predicate Own<T>(s: State<T>) {
    && |s.born| == s.accepted && (forall t <- s.born :: Startable(t))
    && (forall c <- s.ctx :: Memory(s.ctx[c].task))
    && (forall c <- s.queue :: c in s.ctx && IsOwn(s.born, s.ctx[c]))
    && (forall g <- s.ended :: g < |s.born| && Reaches(s.born[g], s.ended[g]) && Closes(s.ended[g]))
    && CrashKnown(s)
  }

  /** A completed connection has not crashed, so one that has is still queued. */
  ghost predicate CrashKnown<T>(s: State<T>) {
    && (forall c <- s.queue :: c in s.ctx && (s.ctx[c].completed ==> Closes(s.ctx[c].task)))
    && (s.crashed <==> exists c <- s.queue :: c in s.ctx && HasCrashed(s.ctx[c].task))
  }

  ghost predicate IsOwn(born: seq<Task>, x: Ctx) {
    x.gen < |born| && Reaches(born[x.gen], x.task)
  }

  lemma {:induction false} ReachedIsSound(t: Task, t': Task)
    requires Startable(t) && Reaches(t, t')
    ensures Memory(t')
  {
    hide Step, Steps;
    StartsInLine(t);
    ReachesKeeps(StreamOf(t), t, t');
  }

  lemma {:induction false} OneKeepsCrash<T>(s: State<T>, c: T, s': State<T>)
    requires CrashKnown(s) && c in s.queue && s'.queue == s.queue
    requires c in s'.ctx && s'.ctx == s.ctx[c := s'.ctx[c]]
    requires s'.ctx[c].completed ==> Closes(s'.ctx[c].task)
    requires HasCrashed(s.ctx[c].task) ==> HasCrashed(s'.ctx[c].task)
    requires s'.crashed <==> s.crashed || HasCrashed(s'.ctx[c].task)
    ensures CrashKnown(s')
  {
    hide HasCrashed, Closes;
    assert forall d <- s.queue :: d != c ==> s'.ctx[d] == s.ctx[d];
    if s.crashed {
      var d :| d in s.queue && HasCrashed(s.ctx[d].task);
      assert HasCrashed(s'.ctx[d].task);
    }
  }

  lemma {:induction false} DoActKeepsCrash<T>(s: State<T>, c: T, act: Act)
    requires CrashKnown(s) && c in s.queue
    ensures CrashKnown(DoAct(s, c, act))
  {
    hide Step, DoAct;
    CrashStep(s, c, act);
    OneKeepsCrash(s, c, DoAct(s, c, act));
  }

  lemma {:induction false} CrashStep<T>(s: State<T>, c: T, act: Act)
    requires CrashKnown(s) && c in s.queue
    ensures var s' := DoAct(s, c, act);
      && s'.queue == s.queue && c in s'.ctx && s'.ctx == s.ctx[c := s'.ctx[c]]
      && (s'.ctx[c].completed ==> Closes(s'.ctx[c].task))
      && (HasCrashed(s.ctx[c].task) ==> HasCrashed(s'.ctx[c].task))
      && (s'.crashed <==> s.crashed || HasCrashed(s'.ctx[c].task))
  {
    hide Step, Task.Stuck;
    DoActIs(s, c, act);
    if s.ctx[c].task.phase.Stopped? {
      StoppedStays(s.ctx[c].task);
    }
  }

  lemma {:induction false} ReapKeepsCrash<T>(s: State<T>, c: T, s': State<T>, kept: seq<T>, order: seq<T>)
    requires CrashKnown(s) && s.queue == kept + [c] + order && s.ctx[c].completed
    requires s'.queue == kept + order && s'.crashed == s.crashed
    requires forall d <- s'.queue :: d in s'.ctx && d in s.ctx && s'.ctx[d] == s.ctx[d]
    ensures CrashKnown(s')
  {
    assert s.queue[|kept|] == c && !HasCrashed(s.ctx[c].task);
    assert forall d <- s'.queue :: d in s.queue;
    assert forall d <- s.queue :: d != c ==> d in s'.queue;
  }

  lemma {:induction false} SameKeepsCrash<T>(s: State<T>, s': State<T>, more: seq<T>)
    requires CrashKnown(s) && s'.queue == more + s.queue && s'.crashed == s.crashed
    requires forall d <- s.queue :: d in s'.ctx && s'.ctx[d] == s.ctx[d]
    requires forall d <- more :: d in s'.ctx && !s'.ctx[d].completed && s'.ctx[d].task.phase == Ready
    ensures CrashKnown(s')
  {
    assert forall d <- s.queue :: d in s'.queue;
    assert forall d <- s'.queue :: d in s.queue || d in more;
  }

  /** What a running coroutine does is its own step, and nothing else. */
  lemma {:induction false} DoActKeepsOwn<T>(s: State<T>, c: T, act: Act)
    requires Own(s) && c in s.queue
    ensures Own(DoAct(s, c, act)) && DoAct(s, c, act).queue == s.queue
  {
    hide Step, Reaches, Startable, CrashKnown;
    DoActKeepsCrash(s, c, act);
    if act.Advance? {
      var x := s.ctx[c];
      ReachesNext(s.born[x.gen], x.task);
      ReachedIsSound(s.born[x.gen], Step(x.task));
    }
  }

  lemma {:induction false} DoActsKeepOwn<T>(s: State<T>, c: T, acts: seq<Act>)
    requires Own(s) && c in s.queue
    ensures Own(DoActs(s, c, acts)) && DoActs(s, c, acts).queue == s.queue
    decreases |acts|
  {
    hide Own, DoAct;
    InContext(s, c);
    if acts != [] {
      DoActKeepsOwn(s, c, acts[0]);
      DoActsKeepOwn(DoAct(s, c, acts[0]), c, acts[1..]);
    }
  }

  lemma {:induction false} InContext<T>(s: State<T>, c: T)
    requires Own(s) && c in s.queue
    ensures c in s.ctx
  {
  }

  lemma {:induction false} ReapKeepsOwn<T>(s: State<T>, kept: seq<T>, c: T, order: seq<T>)
    requires Placed(s) && Own(s) && s.queue == kept + [c] + order && c in s.ctx && s.ctx[c].completed
    ensures Own(Free(Remove(s, c), c))
  {
    hide Reaches, Startable, Memory, Closes, Without, CrashKnown, IsOwn, Placed;
    ReapPlaces(s, kept, c, order);
    var s' := Free(Remove(s, c), c);
    assert forall d <- s'.queue :: d in s.queue;
    PlacedIn(s');
    ReapKeepsCrash(s, c, s', kept, order);
  }

  lemma {:induction false} ServeKeepsOwn<T>(s: State<T>, kept: seq<T>, c: T, order: seq<T>, acts: seq<Act>)
    requires Inv(s) && Own(s) && s.queue == kept + [c] + order
    ensures Own(Serve(s, c, acts))
  {
    hide Own, DoActs, Counted, LiveQueue, Running, Placed, Free, Remove;
    QueueGens(s);
    assert s.queue[|kept|] == c;
    var s1 := s.(log := s.log + [Resumed(s.ctx[c].gen)]);
    ServeStarts(s, c);
    DoActsServe(s1, c, acts);
    OwnIgnoresLog(s, s1.log);
    DoActsKeepOwn(s1, c, acts);
    var s2 := DoActs(s1, c, acts);
    if s2.ctx[c].completed {
      ReapKeepsOwn(s2, kept, c, order);
    }
  }

  lemma {:induction false} PassKeepsOwn<T>(s: State<T>, kept: seq<T>, order: seq<T>, behave: Behaviour)
    requires Inv(s) && Own(s) && s.queue == kept + order && AllIn(order, s.ctx) && Distinct(order)
    ensures Own(Pass(s, order, behave))
    decreases |order|
  {
    hide Inv, Own, Serve, Pass;
    if order == [] {
      EmptyPass(s, behave);
    } else {
      var c, more := order[0], order[1..];
      assert order == [c] + more && s.queue == kept + [c] + more;
      PassStep(s, c, more, behave);
      var acts := behave(s.ctx[c].gen, |s.log|);
      var s1 := Serve(s, c, acts);
      ServeKeepsInv(s, kept, c, more, acts);
      ServeKeepsOwn(s, kept, c, more, acts);
      if s1.queue == kept + [c] + more {
        assert s1.queue == (kept + [c]) + more;
        PassKeepsOwn(s1, kept + [c], more, behave);
      } else {
        PassKeepsOwn(s1, kept, more, behave);
      }
    }
  }

  lemma {:induction false} NewIsSound()
    ensures Memory(NewContext())
  {
  }

  lemma {:induction false} FillFacts<T>(s: State<T>, got: seq<T>)
    requires forall c <- got :: c !in s.ctx
    ensures var s' := Fill(s, got);
      && s'.queue == s.queue && s'.born == s.born && s'.ended == s.ended && s'.accepted == s.accepted
      && s'.crashed == s.crashed
      && (forall c <- s.ctx :: c in s'.ctx && s'.ctx[c] == s.ctx[c])
      && (forall c <- s'.ctx :: c in s.ctx || s'.ctx[c].task == NewContext())
  {
    hide NewContext, Reverse;
  }

  lemma {:induction false} FillKeepsOwn<T>(s: State<T>, got: seq<T>)
    requires Inv(s) && Own(s) && Usable(s, got)
    ensures Own(Fill(s, got))
  {
    hide Reaches, Startable, Memory, Closes, CrashKnown, IsOwn, NewContext, Inv, Fill;
    NewIsSound();
    QueueGens(s);
    FillFacts(s, got);
    SameKeepsCrash(s, Fill(s, got), []);
  }

  lemma {:induction false} TakeKeepsOwn<T>(s: State<T>, peer: Peer)
    requires Inv(s) && Own(s) && s.cnt != 0 && peer.env.Valid()
    ensures s.cache != [] && s.cache[0] in s.ctx && Own(Take(s, peer))
  {
    hide Reaches, Steps, Env.Valid, Counted, LiveQueue, Distinct, CrashKnown;
    CountIs(s);
    assert s.cache[0] in s.cache;
    var s' := Take(s, peer);
    var task := Handover(s.ctx[s.cache[0]].task, peer);
    assert Startable(task);
    ReachesItself(task);
    assert forall d <- s.queue :: d != s.cache[0];
    SameKeepsCrash(s, s', [s.cache[0]]);
    assert forall g: nat :: g < |s.born| ==> s'.born[g] == s.born[g];
  }

  lemma {:induction false} CreateKeepsOwn<T>(s: State<T>, got: seq<T>, peer: Peer)
    requires Inv(s) && Own(s) && Usable(s, got) && peer.env.Valid()
    ensures Own(Create(s, got, peer).state)
  {
    hide Own, Inv, Usable, Env.Valid;
    CreateKeepsInv(s, got, peer);
    if s.cnt == 0 {
      FillKeepsOwn(s, got);
      FillKeepsInv(s, got);
      if Fill(s, got).cnt != 0 {
        TakeKeepsOwn(Fill(s, got), peer);
      }
    } else {
      TakeKeepsOwn(s, peer);
    }
  }

  lemma {:induction false} PassAllKeepsOwn<T>(s: State<T>, behave: Behaviour)
    requires Inv(s) && Own(s)
    ensures Own(PassAll(s, behave))
  {
    hide Inv, Pass, Own;
    QueueGens(s);
    assert s.queue == [] + s.queue;
    PassKeepsOwn(s, [], s.queue, behave);
    PassKeepsAll(s, behave);
    OwnIgnoresRounds(Pass(s, s.queue, behave), PassAll(s, behave).rounds);
  }

  lemma {:induction false} IterateKeepsOwn<T>(s: State<T>, arrival: Arrival<T>, behave: Behaviour)
    requires Inv(s) && Own(s) && UsableArrival(s, arrival)
    ensures Own(Iterate(s, arrival, behave).state)
  {
    hide Inv, Own, PassAll, Usable;
    match arrival
    case NoArrival =>
      PassAllKeepsOwn(s, behave);
    case Arrival(got, peer) =>
      CreateKeepsInv(s, got, peer);
      CreateKeepsOwn(s, got, peer);
      if Create(s, got, peer).Created? {
        PassAllKeepsOwn(Create(s, got, peer).state, behave);
      }
  }

  lemma {:induction false} FirstIsOwn<T>(got: seq<T>)
    ensures Own(Fill(Empty(), got))
  {
  }

  lemma {:induction false} RunIsOwn<T>(got: seq<T>, inputs: seq<Input<T>>)
    requires After(got, inputs).Some?
    ensures Inv(After(got, inputs).value) && Own(After(got, inputs).value)
    decreases |inputs|
  {
    hide Inv, FairInv, Own, Iterate, Usable, UsableArrival;
    LoopHead(got, inputs);
    if inputs == [] {
      FirstIsOwn(got);
    } else {
      var n := |inputs| - 1;
      RunIsOwn(got, inputs[..n]);
      IterateKeepsOwn(After(got, inputs[..n]).value, inputs[n].arrival, inputs[n].behave);
    }
  }

  /** The projection onto a connection, whether it is still queued or has been closed, is a run of the
      handler alone, on the leftover of its context and its own stream; so all that holds of such runs
      holds of it. */
  ghost predicate Isolated<T>(s: State<T>) {
    && |s.born| == s.accepted && (forall t <- s.born :: Startable(t))
    && (forall c <- s.queue :: c in s.ctx && IsOwn(s.born, s.ctx[c]) && OnOwnStream(s.born, s.ctx[c]))
    && (forall g <- s.ended :: g < s.accepted && Closes(s.ended[g]) && s.ended[g] == Finish(s.born[g]))
  }

  /** Connection isolation, in every state that keeps the invariants, as the heap server does. */
  lemma {:induction false} ConnectionIsolation<T>(s: State<T>)
    requires Inv(s) && Own(s)
    ensures Isolated(s)
    ensures s.crashed <==> exists c <- s.queue :: c in s.ctx && HasCrashed(s.ctx[c].task)
  {
    hide Schedule.Inv, Step, Reaches, Startable;
    forall c <- s.queue ensures OnOwnStream(s.born, s.ctx[c]) {
      OwnIsInLine(s.born[s.ctx[c].gen], s.ctx[c].task);
    }
    forall g <- s.ended ensures s.ended[g] == Finish(s.born[g]) {
      ClosedIsStuck(s.ended[g]);
      StuckIsFinish(s.born[g], s.ended[g]);
    }
  }

  /** And so over all runs of the main loop. */
  lemma {:induction false} RunsAreIsolated<T>(got: seq<T>, inputs: seq<Input<T>>)
    requires After(got, inputs).Some?
    ensures Isolated(After(got, inputs).value)
  {
    hide Inv, Own, Isolated;
    RunIsOwn(got, inputs);
    ConnectionIsolation(After(got, inputs).value);
  }

  /** The connection is in line with the reference definition of its own stream. */
  ghost predicate OnOwnStream(born: seq<Task>, x: Ctx) {
    x.gen < |born| && Startable(born[x.gen]) && InLine(StreamOf(born[x.gen]), x.task)
  }

  lemma {:induction false} OwnIsInLine(t: Task, t': Task)
    requires Startable(t) && Reaches(t, t')
    ensures InLine(StreamOf(t), t')
  {
    hide Step, Steps, InLine;
    StartsInLine(t);
    ReachesKeeps(StreamOf(t), t, t');
  }

  lemma {:induction false} ClosedIsStuck(t: Task)
    requires Closes(t)
    ensures t.Stuck()
  {
  }

  lemma {:induction false} OwnIgnoresLog<T>(s: State<T>, log: seq<Event>)
    requires Own(s)
    ensures Own(s.(log := log))
  {
  }

  lemma {:induction false} OwnIgnoresRounds<T>(s: State<T>, rounds: seq<Round>)
    requires Own(s)
    ensures Own(s.(rounds := rounds))
  {
  }

  lemma {:induction false} OwnIsSane<T>(s: State<T>, c: T)
    requires Own(s) && c in s.queue
    ensures c in s.ctx && s.ctx[c].task.Sane()
  {
    hide InLine;
    OwnIsInLine(s.born[s.ctx[c].gen], s.ctx[c].task);
    SaneOf(StreamOf(s.born[s.ctx[c].gen]), s.ctx[c].task);
  }
}
