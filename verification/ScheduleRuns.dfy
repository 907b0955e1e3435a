/** Runs of the main loop: the invariant at every loop head, and fairness. */
module ScheduleRuns {
  import opened Bytes
  import opened Schedule

  // ---- accepting a connection -------------------------------------------------------------

  lemma {:induction false} ReverseFacts<T>(s: seq<T>)
    ensures forall i :: 0 <= i < |s| ==> Reverse(s)[i] == s[|s| - 1 - i]
    ensures forall i :: 0 <= i < |s| ==> s[i] == Reverse(s)[|s| - 1 - i]
    ensures Distinct(s) ==> Distinct(Reverse(s))
  {
    if s != [] {
      ReverseFacts(s[1..]);
    }
  }

  /** Contexts the system may hand to the server: new ones, at most as many as it asks for. */
  ghost predicate Usable<T>(s: State<T>, got: seq<T>) {
    Distinct(got) && (forall c <- got :: c !in s.ctx) && |got| <= MIN_CONN_CTX_CACHE_CNT
  }

  lemma {:induction false} FillKeepsInv<T>(s: State<T>, got: seq<T>)
    requires Inv(s) && s.cnt == 0 && Usable(s, got)
    ensures Inv(Fill(s, got))
  {
    ReverseFacts(got);
    var s' := Fill(s, got);
    assert s.cache == [] && s'.cache == Reverse(got);
    assert forall c <- s'.cache :: c in got;
    assert forall c <- got :: c in s'.cache;
    CountFrame(s.queue, s.ctx, s'.ctx, true);
    CountFrame(s.queue, s.ctx, s'.ctx, false);
  }

  lemma {:induction false} TakePlaces<T>(s: State<T>, peer: Peer)
    requires Placed(s) && s.cache != []
    ensures Placed(Take(s, peer)) && Take(s, peer).queue == [s.cache[0]] + s.queue
    ensures forall d <- s.queue :: d != s.cache[0] && Take(s, peer).ctx[d] == s.ctx[d]
  {
    var c := s.cache[0];
    assert c in s.cache && s.cache == [c] + s.cache[1..];
  }

  lemma {:induction false} TakeCounts<T>(s: State<T>, peer: Peer)
    requires Placed(s) && Counted(s) && s.cache != []
    ensures Placed(Take(s, peer)) && Counted(Take(s, peer))
  {
    TakePlaces(s, peer);
    var s' := Take(s, peer);
    CountFrame(s.queue, s.ctx, s'.ctx, true);
    CountFrame(s.queue, s.ctx, s'.ctx, false);
    assert s'.queue[1..] == s.queue;
  }

  lemma {:induction false} TakeKeepsInv<T>(s: State<T>, peer: Peer)
    requires Inv(s) && s.cnt != 0
    ensures Inv(Take(s, peer)) && Take(s, peer).queue == [s.cache[0]] + s.queue
  {
    TakePlaces(s, peer);
    TakeCounts(s, peer);
    assert LiveQueue(Take(s, peer)) by {
      hide Placed, Counted;
      TakeLives(s, peer);
    }
  }

  lemma {:induction false} TakeLives<T>(s: State<T>, peer: Peer)
    requires Placed(s) && LiveQueue(s) && s.cache != [] && Placed(Take(s, peer))
    ensures LiveQueue(Take(s, peer))
  {
    TakePlaces(s, peer);
    assert forall d <- Take(s, peer).queue :: d == s.cache[0] || d in s.queue;
  }

  lemma {:induction false} CreateKeepsInv<T>(s: State<T>, got: seq<T>, peer: Peer)
    requires Inv(s) && Usable(s, got)
    ensures Inv(Create(s, got, peer).state)
    ensures Create(s, got, peer).OutOfMemory? <==> s.cnt == 0 && got == []
  {
    if s.cnt == 0 {
      FillKeepsInv(s, got);
      ReverseFacts(got);
      if got != [] {
        TakeKeepsInv(Fill(s, got), peer);
      }
    } else {
      TakeKeepsInv(s, peer);
    }
  }

  // ---- a pass -----------------------------------------------------------------------------

  /** `a` is `b` with some elements left out. */
  ghost predicate Sub<T>(a: seq<T>, b: seq<T>) {
    || a == []
    || (b != [] && a[0] == b[0] && Sub(a[1..], b[1..]))
    || (b != [] && Sub(a, b[1..]))
  }

  function ResumedOf(log: seq<Event>): seq<nat> {
    if log == [] then []
    else ResumedOf(log[..|log| - 1]) + (match log[|log| - 1] case Resumed(g) => [g] case SocketClosed(_) => [])
  }

  /** What no coroutine step changes. */
  ghost predicate SameRun<T>(s: State<T>, s': State<T>) {
    && s'.rounds == s.rounds && s'.accepted == s.accepted
    && (forall d <- s'.ctx :: d in s.ctx && s'.ctx[d].gen == s.ctx[d].gen)
  }

  lemma {:induction false} ActLog<T>(s: State<T>, c: T, act: Act)
    requires c in s.ctx
    ensures SameRun(s, DoAct(s, c, act)) && ResumedOf(DoAct(s, c, act).log) == ResumedOf(s.log)
  {
    var s1 := DoAct(s, c, act);
    assert s1.log != s.log ==> s1.log[..|s1.log| - 1] == s.log;
  }

  lemma {:induction false} ActsLog<T>(s: State<T>, c: T, acts: seq<Act>)
    requires c in s.ctx
    ensures SameRun(s, DoActs(s, c, acts)) && ResumedOf(DoActs(s, c, acts).log) == ResumedOf(s.log)
    decreases |acts|
  {
    hide ResumedOf;
    if acts != [] {
      ActLog(s, c, acts[0]);
      ActsLog(DoAct(s, c, acts[0]), c, acts[1..]);
    }
  }

  lemma {:induction false} ServeLog<T>(s: State<T>, c: T, acts: seq<Act>)
    requires c in s.ctx
    ensures SameRun(s, Serve(s, c, acts))
    ensures ResumedOf(Serve(s, c, acts).log) == ResumedOf(s.log) + [s.ctx[c].gen]
  {
    var s1 := s.(log := s.log + [Resumed(s.ctx[c].gen)]);
    assert s1.log[..|s.log|] == s.log;
    ActsLog(s1, c, acts);
  }

  lemma {:induction false} SubCons<T>(x: T, a: seq<T>, b: seq<T>)
    requires Sub(a, b)
    ensures Sub([x] + a, [x] + b) && Sub(a, [x] + b)
  {
    assert ([x] + a)[1..] == a && ([x] + b)[1..] == b;
  }

  lemma {:induction false} GensCons<T>(s: State<T>, c: T, order: seq<T>)
    requires c in s.ctx && AllIn(order, s.ctx)
    ensures AllIn([c] + order, s.ctx) && Gens(s, [c] + order) == [s.ctx[c].gen] + Gens(s, order)
  {
  }

  lemma {:induction false} GensSame<T>(s: State<T>, s1: State<T>, order: seq<T>)
    requires AllIn(order, s.ctx) && AllIn(order, s1.ctx) && SameRun(s, s1)
    ensures Gens(s1, order) == Gens(s, order)
  {
  }

  lemma {:induction false} PassStep<T>(s: State<T>, c: T, more: seq<T>, behave: Behaviour)
    requires AllIn([c] + more, s.ctx) && Distinct([c] + more)
    ensures c in s.ctx
    ensures var s1 := Serve(s, c, behave(s.ctx[c].gen, |s.log|));
      AllIn(more, s1.ctx) && Distinct(more) && Pass(s, [c] + more, behave) == Pass(s1, more, behave)
  {
    var order := [c] + more;
    assert order[0] == c && order[1..] == more && c in order;
    ServeKeepsOthers(s, c, behave(s.ctx[c].gen, |s.log|));
    assert forall d <- more :: d in order && d != c;
  }

  lemma {:induction false} EmptyPass<T>(s: State<T>, behave: Behaviour)
    ensures AllIn([], s.ctx) && Distinct<T>([]) && Pass(s, [], behave) == s
  {
  }

  /** In the middle of the pass over `order` from `start`: `rest` is still to be served. */
  ghost predicate MidPass<T>(start: State<T>, order: seq<T>, behave: Behaviour, s: State<T>, kept: seq<T>,
                             rest: seq<T>) {
    && AllIn(order, start.ctx) && Distinct(order) && AllIn(rest, s.ctx) && Distinct(rest)
    && s.queue == kept + rest && Pass(s, rest, behave) == Pass(start, order, behave)
  }

  lemma {:induction false} PassBegins<T>(s: State<T>, behave: Behaviour)
    requires AllIn(s.queue, s.ctx) && Distinct(s.queue)
    ensures MidPass(s, s.queue, behave, s, [], s.queue)
  {
    assert [] + s.queue == s.queue;
  }

  lemma {:induction false} MidPassNext<T>(start: State<T>, order: seq<T>, behave: Behaviour, s: State<T>, kept: seq<T>,
                                          rest: seq<T>, c: T)
    requires MidPass(start, order, behave, s, kept, rest) && |kept| < |s.queue| && s.queue[|kept|] == c
    ensures rest != [] && rest[0] == c && c in s.ctx && s.queue == kept + [c] + rest[1..]
  {
    assert rest == [c] + rest[1..];
  }

  lemma {:induction false} MidPassServed<T>(start: State<T>, order: seq<T>, behave: Behaviour, s: State<T>,
                                            kept: seq<T>, rest: seq<T>, s': State<T>, kept': seq<T>)
    requires MidPass(start, order, behave, s, kept, rest) && rest != [] && rest[0] in s.ctx
    requires s' == Serve(s, rest[0], behave(s.ctx[rest[0]].gen, |s.log|)) && s'.queue == kept' + rest[1..]
    ensures MidPass(start, order, behave, s', kept', rest[1..])
  {
    assert rest == [rest[0]] + rest[1..];
    PassStep(s, rest[0], rest[1..], behave);
  }

  lemma {:induction false} MidPassEnd<T>(start: State<T>, order: seq<T>, behave: Behaviour, s: State<T>, kept: seq<T>,
                                         rest: seq<T>)
    requires MidPass(start, order, behave, s, kept, rest)
    ensures |s.queue| == |kept| + |rest|
    ensures |kept| == |s.queue| ==> AllIn(order, start.ctx) && Distinct(order) && s == Pass(start, order, behave)
  {
  }

  lemma {:induction false} PassLogCons<T>(s: State<T>, c: T, more: seq<T>, s1: State<T>, s2: State<T>)
    requires c in s.ctx && AllIn(more, s.ctx) && AllIn(more, s1.ctx)
    requires SameRun(s, s1) && ResumedOf(s1.log) == ResumedOf(s.log) + [s.ctx[c].gen]
    requires SameRun(s1, s2) && ResumedOf(s2.log) == ResumedOf(s1.log) + Gens(s1, more)
    ensures AllIn([c] + more, s.ctx) && SameRun(s, s2)
    ensures ResumedOf(s2.log) == ResumedOf(s.log) + Gens(s, [c] + more)
  {
    hide ResumedOf, Gens;
    GensSame(s, s1, more);
    GensCons(s, c, more);
  }

  /** A pass resumes exactly the given connections, once each, in the given order. */
  lemma {:induction false} PassLog<T>(s: State<T>, order: seq<T>, behave: Behaviour)
    requires AllIn(order, s.ctx) && Distinct(order)
    ensures SameRun(s, Pass(s, order, behave))
    ensures ResumedOf(Pass(s, order, behave).log) == ResumedOf(s.log) + Gens(s, order)
    decreases |order|
  {
    hide Serve, ResumedOf, Pass, SameRun, Gens;
    if order == [] {
      EmptyPass(s, behave);
      PassOfNone(s);
    } else {
      var c, more := order[0], order[1..];
      assert order == [c] + more;
      PassStep(s, c, more, behave);
      var acts := behave(s.ctx[c].gen, |s.log|);
      var s1 := Serve(s, c, acts);
      ServeLog(s, c, acts);
      PassLog(s1, more, behave);
      PassLogCons(s, c, more, s1, Pass(s1, more, behave));
    }
  }

  lemma {:induction false} PassOfNone<T>(s: State<T>)
    ensures SameRun(s, s) && ResumedOf(s.log) == ResumedOf(s.log) + Gens(s, [])
  {
  }

  /** A pass keeps the invariant and leaves the connections not completed, in the same order. */
  lemma {:induction false} PassKeepsInv<T>(s: State<T>, kept: seq<T>, order: seq<T>, behave: Behaviour)
      returns (left: seq<T>)
    requires Inv(s) && s.queue == kept + order && AllIn(order, s.ctx) && Distinct(order)
    ensures Inv(Pass(s, order, behave)) && Pass(s, order, behave).queue == kept + left && Sub(left, order)
    decreases |order|
  {
    hide Inv, Serve, Sub;
    if order == [] {
      left := [];
      NothingLeft(order);
    } else {
      var c, more := order[0], order[1..];
      assert order == [c] + more && s.queue == kept + [c] + more;
      PassStep(s, c, more, behave);
      var acts := behave(s.ctx[c].gen, |s.log|);
      var s1 := Serve(s, c, acts);
      ServeKeepsInv(s, kept, c, more, acts);
      if s1.queue == kept + [c] + more {
        left := PassKeepsInv(s1, kept + [c], more, behave);
        assert kept + [c] + left == kept + ([c] + left);
        SubCons(c, left, more);
        left := [c] + left;
      } else {
        left := PassKeepsInv(s1, kept, more, behave);
        SubCons(c, left, more);
      }
    }
  }

  lemma {:induction false} NothingLeft<T>(b: seq<T>)
    ensures Sub([], b)
  {
  }

  lemma {:induction false} SubGens<T>(s: State<T>, s': State<T>, left: seq<T>, order: seq<T>)
    requires SameRun(s, s') && AllIn(order, s.ctx) && AllIn(left, s'.ctx) && Sub(left, order)
    ensures Sub(Gens(s', left), Gens(s, order))
    decreases |order|
  {
    if left == [] {
      NothingLeft(Gens(s, order));
      assert Gens(s', left) == [];
    } else {
      var c, more := order[0], order[1..];
      assert order == [c] + more && left == [left[0]] + left[1..];
      GensCons(s, c, more);
      GensCons(s', left[0], left[1..]);
      if left[0] == c && Sub(left[1..], more) {
        SubGens(s, s', left[1..], more);
        SubCons(s.ctx[c].gen, Gens(s', left[1..]), Gens(s, more));
      } else {
        SubGens(s, s', left, more);
        SubCons(s.ctx[c].gen, Gens(s', left), Gens(s, more));
      }
    }
  }

  // ---- the main loop ----------------------------------------------------------------------

  /** What epoll_pwait and accept bring: no connection, or one, with the contexts that can be
      allocated should the cache be empty. */
  datatype Arrival<T> = NoArrival | Arrival(got: seq<T>, peer: Peer)

  ghost predicate UsableArrival<T>(s: State<T>, arrival: Arrival<T>) {
    arrival.Arrival? ==> Usable(s, arrival.got) && arrival.peer.env.Valid()
  }

  /** One turn of the main loop; OutOfMemory stands for the exit when no context can be had. */
  ghost function Iterate<T>(s: State<T>, arrival: Arrival<T>, behave: Behaviour): Created<T>
    requires Inv(s) && UsableArrival(s, arrival)
  {
    match arrival
    case NoArrival => Created(PassAll(s, behave))
    case Arrival(got, peer) =>
      CreateKeepsInv(s, got, peer);
      match Create(s, got, peer)
      case OutOfMemory(s1) => OutOfMemory(s1)
      case Created(s1) => Created(PassAll(s1, behave))
  }

  lemma {:induction false} PassKeepsAll<T>(s: State<T>, behave: Behaviour)
    requires Inv(s)
    ensures var s1 := Pass(s, s.queue, behave);
      && Inv(s1) && Sub(s1.queue, s.queue) && AllIn(s1.queue, s1.ctx) && SameRun(s, s1)
      && Sub(Gens(s1, s1.queue), Gens(s, s.queue))
      && ResumedOf(s1.log) == ResumedOf(s.log) + Gens(s, s.queue)
  {
    hide SameRun, Sub;
    assert s.queue == [] + s.queue;
    var left := PassKeepsInv(s, [], s.queue, behave);
    assert [] + left == left;
    PassLog(s, s.queue, behave);
    var s1 := Pass(s, s.queue, behave);
    SubGens(s, s1, s1.queue, s.queue);
  }

  ghost function PassAll<T>(s: State<T>, behave: Behaviour): State<T>
    requires Inv(s)
  {
    var s1 := Pass(s, s.queue, behave);
    PassKeepsAll(s, behave);
    s1.(rounds := s.rounds + [Round(Gens(s, s.queue), Gens(s1, s1.queue), s.accepted)])
  }

  // ---- fairness ---------------------------------------------------------------------------

  ghost predicate GoodRound(r: Round) {
    Sub(r.left, r.resumed) && Distinct(r.resumed) && forall g <- r.resumed :: g < r.accepted
  }

  /** The next pass resumes who was left, in order, after at most one newly accepted connection. */
  ghost predicate Continues(r: Round, next: Round) {
    && r.accepted <= next.accepted
    && (next.resumed == r.left
        || (next.resumed != [] && next.resumed[1..] == r.left && next.resumed[0] >= r.accepted))
  }

  ghost predicate History(rounds: seq<Round>) {
    && (forall m :: 0 <= m < |rounds| ==> GoodRound(rounds[m]))
    && (forall m :: 0 < m < |rounds| ==> Continues(rounds[m - 1], rounds[m]))
  }

  function Flatten(rounds: seq<Round>): seq<nat> {
    if rounds == [] then [] else Flatten(rounds[..|rounds| - 1]) + rounds[|rounds| - 1].resumed
  }

  /** The passes so far are fair, are all the resumptions there were, and led to the queue. */
  ghost predicate FairInv<T>(s: State<T>)
    requires Inv(s)
  {
    && History(s.rounds) && ResumedOf(s.log) == Flatten(s.rounds)
    && if s.rounds == [] then s.queue == []
       else s.rounds[|s.rounds| - 1].left == Gens(s, s.queue) && s.rounds[|s.rounds| - 1].accepted <= s.accepted
  }

  lemma {:induction false} RoundsApart<T>(s: State<T>, rounds: seq<Round>)
    requires Inv(s)
    ensures Inv(s.(rounds := rounds))
  {
  }

  lemma {:induction false} HistoryGrows(rounds: seq<Round>, next: Round)
    requires History(rounds) && GoodRound(next)
    requires rounds != [] ==> Continues(rounds[|rounds| - 1], next)
    ensures History(rounds + [next])
  {
  }

  /** The state a pass starts from, after `before` and perhaps one arrival. */
  ghost predicate ReadyForPass<T>(s: State<T>, before: State<T>)
    requires Inv(s) && Inv(before)
  {
    && s.rounds == before.rounds && s.log == before.log && before.accepted <= s.accepted
    && (Gens(s, s.queue) == Gens(before, before.queue)
        || (s.queue != [] && Gens(s, s.queue)[1..] == Gens(before, before.queue)
            && Gens(s, s.queue)[0] >= before.accepted))
  }

  lemma {:induction false} FillIsReady<T>(s: State<T>, got: seq<T>)
    requires Inv(s) && s.cnt == 0 && Usable(s, got)
    ensures Inv(Fill(s, got)) && Gens(Fill(s, got), s.queue) == Gens(s, s.queue)
  {
    FillKeepsInv(s, got);
    assert forall d <- s.queue :: d in s.ctx;
  }

  lemma {:induction false} TakeIsReady<T>(s: State<T>, peer: Peer)
    requires Inv(s) && s.cnt != 0
    ensures Inv(Take(s, peer)) && Take(s, peer).queue != []
    ensures Gens(Take(s, peer), Take(s, peer).queue)[1..] == Gens(s, s.queue)
    ensures Gens(Take(s, peer), Take(s, peer).queue)[0] == s.accepted
  {
    TakeKeepsInv(s, peer);
    assert s.cache[0] in s.cache;
    assert Take(s, peer).queue[1..] == s.queue;
  }

  lemma {:induction false} CreateIsReady<T>(s: State<T>, got: seq<T>, peer: Peer)
    requires Inv(s) && Usable(s, got) && Create(s, got, peer).Created?
    ensures Inv(Create(s, got, peer).state) && ReadyForPass(Create(s, got, peer).state, s)
  {
    hide Inv;
    if s.cnt == 0 {
      FillIsReady(s, got);
      TakeIsReady(Fill(s, got), peer);
    } else {
      TakeIsReady(s, peer);
    }
  }

  lemma {:induction false} CountIs<T>(s: State<T>)
    requires Inv(s)
    ensures s.cnt == |s.cache| && Placed(s)
  {
  }

  lemma {:induction false} QueueGens<T>(s: State<T>)
    requires Inv(s)
    ensures AllIn(s.queue, s.ctx) && Distinct(s.queue)
    ensures Distinct(Gens(s, s.queue)) && forall g <- Gens(s, s.queue) :: g < s.accepted
  {
  }

  lemma {:induction false} FlattenSnoc(rounds: seq<Round>, r: Round)
    ensures Flatten(rounds + [r]) == Flatten(rounds) + r.resumed
  {
    assert (rounds + [r])[..|rounds|] == rounds;
  }

  /** The pass that is about to begin continues the history. */
  lemma {:induction false} NextContinues<T>(s: State<T>, before: State<T>, r: Round)
    requires Inv(s) && Inv(before) && FairInv(before) && ReadyForPass(s, before)
    requires r.resumed == Gens(s, s.queue) && r.accepted == s.accepted
    ensures History(s.rounds) && ResumedOf(s.log) == Flatten(s.rounds)
    ensures s.rounds != [] ==> Continues(s.rounds[|s.rounds| - 1], r)
  {
    hide Inv, History, Flatten, ResumedOf;
  }

  lemma {:induction false} PassAllIsFair<T>(s: State<T>, before: State<T>, behave: Behaviour)
    requires Inv(s) && Inv(before) && FairInv(before) && ReadyForPass(s, before)
    ensures Inv(PassAll(s, behave)) && FairInv(PassAll(s, behave))
  {
    hide Inv, Pass, Sub, ResumedOf, Flatten, History, Continues, Distinct, ReadyForPass;
    PassKeepsAll(s, behave);
    QueueGens(s);
    var s1 := Pass(s, s.queue, behave);
    var r := Round(Gens(s, s.queue), Gens(s1, s1.queue), s.accepted);
    NextContinues(s, before, r);
    RoundsApart(s1, s.rounds + [r]);
    HistoryGrows(s.rounds, r);
    FlattenSnoc(s.rounds, r);
    assert Gens(s1.(rounds := s.rounds + [r]), s1.queue) == Gens(s1, s1.queue);
  }

  /** Every turn of the main loop keeps the invariant and extends a fair history. */
  lemma {:induction false} IterateKeepsInv<T>(s: State<T>, arrival: Arrival<T>, behave: Behaviour)
    requires Inv(s) && FairInv(s) && UsableArrival(s, arrival)
    ensures Inv(Iterate(s, arrival, behave).state)
    ensures Iterate(s, arrival, behave).Created? ==> FairInv(Iterate(s, arrival, behave).state)
  {
    hide Inv, FairInv, PassAll;
    match arrival
    case NoArrival =>
      NothingArrived(s);
      PassAllIsFair(s, s, behave);
    case Arrival(got, peer) =>
      CreateKeepsInv(s, got, peer);
      if Create(s, got, peer).Created? {
        CreateIsReady(s, got, peer);
        PassAllIsFair(Create(s, got, peer).state, s, behave);
      }
  }

  lemma {:induction false} NothingArrived<T>(s: State<T>)
    requires Inv(s)
    ensures ReadyForPass(s, s)
  {
  }

  function Empty<T>(): State<T> { State([], 0, 0, [], 0, map[], 0, 0, 0, false, [], map[], [], []) }

  /** What one turn of the main loop meets. */
  datatype Input<T> = Input(arrival: Arrival<T>, behave: Behaviour)

  /** The state at the head of the main loop, after the cache has been filled with `got` and turns have
      met `inputs`; None when the process has exited before, or the inputs cannot occur. */
  ghost function After<T>(got: seq<T>, inputs: seq<Input<T>>): Option<State<T>> {
    if inputs == [] then if Usable(Empty(), got) then Some(Fill(Empty(), got)) else None
    else
      var n := |inputs| - 1;
      match After(got, inputs[..n])
      case None => None
      case Some(s) => Turned(s, inputs[n])
  }

  ghost function Turned<T>(s: State<T>, input: Input<T>): Option<State<T>> {
    if s.crashed || !Inv(s) || !UsableArrival(s, input.arrival) then None
    else
      match Iterate(s, input.arrival, input.behave)
      case OutOfMemory(_) => None
      case Created(s') => Some(s')
  }

  lemma {:induction false} AfterNext<T>(got: seq<T>, inputs: seq<Input<T>>, input: Input<T>)
    requires After(got, inputs).Some?
    ensures After(got, inputs + [input]) == Turned(After(got, inputs).value, input)
  {
    hide Turned, Usable, Fill;
    var all := inputs + [input];
    assert all[..|all| - 1] == inputs && all[|all| - 1] == input;
  }

  lemma {:induction false} FirstState<T>(got: seq<T>)
    requires Usable(Empty(), got)
    ensures Inv(Fill(Empty(), got)) && FairInv(Fill(Empty(), got))
  {
    FillKeepsInv(Empty(), got);
  }

  /** Over all runs, at every loop head: each context that is allocated and not freed is in exactly one
      list, the counters count, no queued connection is completed, no socket is closed twice and no
      connection resumed after its close, and the passes have been fair. */
  lemma {:induction false} LoopHead<T>(got: seq<T>, inputs: seq<Input<T>>)
    requires After(got, inputs).Some?
    ensures Inv(After(got, inputs).value) && FairInv(After(got, inputs).value)
    decreases |inputs|
  {
    hide Inv, FairInv, Iterate, Usable, UsableArrival;
    if inputs == [] {
      FirstState(got);
    } else {
      var n := |inputs| - 1;
      LoopHead(got, inputs[..n]);
      IterateKeepsInv(After(got, inputs[..n]).value, inputs[n].arrival, inputs[n].behave);
    }
  }

  /** The epoll timeout of the main loop: 0 polls, -1 blocks until a connection arrives. */
  function EpollTimeout<T>(s: State<T>): int { if s.active != 0 then 0 else -1 }

  /** The loop blocks indefinitely exactly when all queued connections are inactive. */
  lemma {:induction false} BlocksIffAllInactive<T>(s: State<T>)
    requires Inv(s)
    ensures EpollTimeout(s) == -1 <==> forall c <- s.queue :: !s.ctx[c].active
    ensures s.active + s.inactive == |s.queue| && s.active >= 0 && s.inactive >= 0
  {
    CountAll(s.queue, s.ctx);
  }

  // ---- round robin ------------------------------------------------------------------------

  lemma {:induction false} SubIn<T>(a: seq<T>, b: seq<T>, x: T)
    requires Sub(a, b) && x in a
    ensures x in b
    decreases |b|
  {
    if a[0] == b[0] && Sub(a[1..], b[1..]) {
      if x != a[0] {
        assert x in a[1..];
        SubIn(a[1..], b[1..], x);
      }
    } else {
      SubIn(a, b[1..], x);
    }
  }

  lemma {:induction false} SubDistinct<T>(a: seq<T>, b: seq<T>)
    requires Sub(a, b) && Distinct(b)
    ensures Distinct(a)
    decreases |b|
  {
    if a != [] {
      assert Distinct(b[1..]);
      if a[0] == b[0] && Sub(a[1..], b[1..]) {
        SubDistinct(a[1..], b[1..]);
        forall k | 1 <= k < |a| ensures a[k] != a[0] {
          assert a[k] in a[1..];
          SubIn(a[1..], b[1..], a[k]);
        }
      } else {
        SubDistinct(a, b[1..]);
      }
    }
  }

  /** Leaving elements out keeps the order of the others. */
  lemma {:induction false} SubOrder<T>(a: seq<T>, b: seq<T>, i: nat, j: nat, p: nat, q: nat)
    requires Sub(a, b) && Distinct(b) && i < |a| && j < |a| && p < |b| && q < |b|
    requires a[i] == b[p] && a[j] == b[q] && p < q
    ensures i < j
    decreases |b|
  {
    SubDistinct(a, b);
    if a[0] == b[0] && Sub(a[1..], b[1..]) {
      if p > 0 {
        SubOrder(a[1..], b[1..], i - 1, j - 1, p - 1, q - 1);
      }
    } else {
      SubIn(a, b[1..], a[i]);
      SubOrder(a, b[1..], i, j, p - 1, q - 1);
    }
  }

  /** A connection that one pass resumes and the next does not is never resumed again. */
  lemma {:induction false} GoneForGood(rounds: seq<Round>, k: nat, m: nat, g: nat)
    requires History(rounds) && k < m < |rounds| && g in rounds[k].resumed && g !in rounds[k + 1].resumed
    ensures g !in rounds[m].resumed && g < rounds[m].accepted
    decreases m
  {
    assert GoodRound(rounds[k]) && Continues(rounds[k], rounds[k + 1]);
    if m > k + 1 {
      GoneForGood(rounds, k, m - 1, g);
      assert GoodRound(rounds[m - 1]) && Continues(rounds[m - 1], rounds[m]);
      if g in rounds[m - 1].left {
        SubIn(rounds[m - 1].left, rounds[m - 1].resumed, g);
      }
      var next := rounds[m].resumed;
      assert next != [] ==> next == [next[0]] + next[1..];
    }
  }

  /** Two connections resumed by both of two consecutive passes are resumed in the same order. */
  lemma {:induction false} SameOrder(rounds: seq<Round>, k: nat, p: nat, i: nat, q: nat, j: nat)
    requires History(rounds) && k + 1 < |rounds|
    requires p < |rounds[k].resumed| && i < |rounds[k].resumed|
    requires q < |rounds[k + 1].resumed| && j < |rounds[k + 1].resumed|
    requires rounds[k].resumed[p] == rounds[k + 1].resumed[q] && rounds[k].resumed[i] == rounds[k + 1].resumed[j]
    requires p < i
    ensures q < j
  {
    var r, next := rounds[k], rounds[k + 1];
    assert GoodRound(r) && Continues(r, next);
    if next.resumed == r.left {
      SubOrder(next.resumed, r.resumed, q, j, p, i);
    } else {
      assert r.resumed[p] in r.resumed && r.resumed[i] in r.resumed;
      SubOrder(r.left, r.resumed, q - 1, j - 1, p, i);
    }
  }

  function Occurrences(s: seq<nat>, g: nat): nat { multiset(s)[g] }

  lemma {:induction false} OccursOnce(s: seq<nat>, lo: nat, hi: nat, i: nat)
    requires Distinct(s) && lo <= hi <= |s| && i < |s|
    ensures Occurrences(s[lo..hi], s[i]) == if lo <= i < hi then 1 else 0
  {
    var t := s[lo..hi];
    if lo <= i < hi {
      assert t == t[..i - lo] + [s[i]] + t[i - lo + 1..];
      assert s[i] !in t[..i - lo] && s[i] !in t[i - lo + 1..];
    } else {
      assert s[i] !in t;
    }
  }

  /** Round robin: between two consecutive resumptions of a connection, every other connection that is
      live over that span is resumed exactly once.  The span runs from behind position `p` of one pass
      to before position `q` of the next. */
  lemma {:induction false} RoundRobin(rounds: seq<Round>, k: nat, p: nat, q: nat, i: nat, j: nat)
    requires History(rounds) && k + 1 < |rounds|
    requires p < |rounds[k].resumed| && q < |rounds[k + 1].resumed|
    requires rounds[k].resumed[p] == rounds[k + 1].resumed[q]
    requires i < |rounds[k].resumed| && j < |rounds[k + 1].resumed| && i != p
    requires rounds[k].resumed[i] == rounds[k + 1].resumed[j]
    ensures Occurrences(rounds[k].resumed[p + 1..] + rounds[k + 1].resumed[..q], rounds[k].resumed[i]) == 1
  {
    var a, b := rounds[k].resumed, rounds[k + 1].resumed;
    assert GoodRound(rounds[k]) && GoodRound(rounds[k + 1]);
    OccursOnce(a, p + 1, |a|, i);
    OccursOnce(b, 0, q, j);
    assert a[p + 1..] == a[p + 1..|a|] && b[..q] == b[0..q];
    assert multiset(a[p + 1..] + b[..q]) == multiset(a[p + 1..]) + multiset(b[..q]);
    if p < i {
      SameOrder(rounds, k, p, i, q, j);
    } else {
      SameOrder(rounds, k, i, p, j, q);
    }
  }

  /** Consecutive resumptions of a connection are always in consecutive passes. */
  lemma {:induction false} NoPassSkipped(rounds: seq<Round>, k: nat, m: nat, g: nat)
    requires History(rounds) && k < m < |rounds| && g in rounds[k].resumed && g in rounds[m].resumed
    ensures g in rounds[k + 1].resumed
  {
    if g !in rounds[k + 1].resumed {
      GoneForGood(rounds, k, m, g);
    }
  }
}
