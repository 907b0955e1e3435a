/** Round robin, said of the log alone. */
module Fairness {
  import opened Bytes
  import opened Schedule
  import opened ScheduleRuns

  /** Where pass `k` begins among all resumptions. */
  function Begins(rounds: seq<Round>, k: nat): nat
    requires k <= |rounds|
  {
    |Flatten(rounds[..k])|
  }

  lemma {:induction false} FlattenPrefix(rounds: seq<Round>, k: nat)
    requires k < |rounds|
    ensures Flatten(rounds[..k + 1]) == Flatten(rounds[..k]) + rounds[k].resumed
    ensures Begins(rounds, k + 1) == Begins(rounds, k) + |rounds[k].resumed|
  {
    var up := rounds[..k + 1];
    assert up[..|up| - 1] == rounds[..k] && up[|up| - 1] == rounds[k];
  }

  lemma {:induction false} FlattenGrows(rounds: seq<Round>, k: nat, m: nat)
    requires k <= m <= |rounds|
    ensures Flatten(rounds[..k]) <= Flatten(rounds[..m])
    decreases m - k
  {
    if k < m {
      FlattenPrefix(rounds, k);
      FlattenGrows(rounds, k + 1, m);
    }
  }

  /** The p-th resumption of pass `k`. */
  lemma {:induction false} FlattenAt(rounds: seq<Round>, k: nat, p: nat)
    requires k < |rounds| && p < |rounds[k].resumed|
    ensures Begins(rounds, k) + p < |Flatten(rounds)| && Flatten(rounds)[Begins(rounds, k) + p] == rounds[k].resumed[p]
  {
    FlattenPrefix(rounds, k);
    FlattenGrows(rounds, k + 1, |rounds|);
    assert rounds[..|rounds|] == rounds;
  }

  /** Every resumption belongs to a pass. */
  lemma {:induction false} Locate(rounds: seq<Round>, a: nat) returns (k: nat, p: nat)
    requires a < |Flatten(rounds)|
    ensures k < |rounds| && p < |rounds[k].resumed| && a == Begins(rounds, k) + p
    ensures Flatten(rounds)[a] == rounds[k].resumed[p]
    decreases |rounds|
  {
    var n := |rounds| - 1;
    assert rounds[..|rounds|] == rounds;
    FlattenPrefix(rounds, n);
    if a < Begins(rounds, n) {
      k, p := Locate(rounds[..n], a);
      assert rounds[..n][..k] == rounds[..k];
    } else {
      k, p := n, a - Begins(rounds, n);
    }
    FlattenAt(rounds, k, p);
  }

  /** Later resumptions belong to later passes. */
  lemma {:induction false} BeginsOrdered(rounds: seq<Round>, k: nat, p: nat, m: nat, q: nat)
    requires k < |rounds| && p < |rounds[k].resumed| && m < |rounds| && q < |rounds[m].resumed|
    ensures k < m ==> Begins(rounds, k) + p < Begins(rounds, m) + q
    ensures Begins(rounds, k) + p < Begins(rounds, m) + q ==> k <= m
  {
    if k < m {
      FlattenPrefix(rounds, k);
      FlattenGrows(rounds, k + 1, m);
    } else if m < k {
      FlattenPrefix(rounds, m);
      FlattenGrows(rounds, m + 1, k);
    }
  }

  /** A connection resumed by one pass and by a later one is resumed by all passes in between. */
  lemma {:induction false} InAllBetween(rounds: seq<Round>, i: nat, j: nat, k: nat, g: nat)
    requires History(rounds) && i <= k <= j < |rounds| && g in rounds[i].resumed && g in rounds[j].resumed
    ensures g in rounds[k].resumed
    decreases k - i
  {
    if i < k < j {
      NoPassSkipped(rounds, i, j, g);
      InAllBetween(rounds, i + 1, j, k, g);
    }
  }

  /** A pass in between resumes the connection, too. */
  lemma {:induction false} ResumedBetween(rounds: seq<Round>, k: nat, p: nat, m: nat, q: nat)
    requires History(rounds) && k + 1 < m < |rounds| && p < |rounds[k].resumed| && q < |rounds[m].resumed|
    requires rounds[k].resumed[p] == rounds[m].resumed[q]
    ensures var a, b := Begins(rounds, k) + p, Begins(rounds, m) + q;
      a < b < |Flatten(rounds)| && rounds[k].resumed[p] in Flatten(rounds)[a + 1..b]
  {
    hide Flatten, Continues, Sub;
    var g := rounds[k].resumed[p];
    NoPassSkipped(rounds, k, m, g);
    var i: nat :| i < |rounds[k + 1].resumed| && rounds[k + 1].resumed[i] == g;
    FlattenAt(rounds, k + 1, i);
    FlattenAt(rounds, m, q);
    BeginsOrdered(rounds, k, p, k + 1, i);
    BeginsOrdered(rounds, k + 1, i, m, q);
    InSlice(Flatten(rounds), Begins(rounds, k) + p, Begins(rounds, k + 1) + i, Begins(rounds, m) + q);
  }

  /** Two consecutive resumptions of a connection are in consecutive passes. */
  lemma {:induction false} ConsecutivePasses(rounds: seq<Round>, k: nat, p: nat, m: nat, q: nat)
    requires History(rounds) && k < |rounds| && p < |rounds[k].resumed| && m < |rounds| && q < |rounds[m].resumed|
    requires rounds[k].resumed[p] == rounds[m].resumed[q]
    requires var a, b := Begins(rounds, k) + p, Begins(rounds, m) + q;
      a < b < |Flatten(rounds)| && rounds[k].resumed[p] !in Flatten(rounds)[a + 1..b]
    ensures m == k + 1
  {
    hide Flatten, Continues, Sub;
    BeginsOrdered(rounds, k, p, m, q);
    assert GoodRound(rounds[k]);
    if m > k + 1 {
      ResumedBetween(rounds, k, p, m, q);
    }
  }

  lemma {:induction false} InSlice(r: seq<nat>, a: nat, c: nat, b: nat)
    requires a < c < b <= |r|
    ensures r[c] in r[a + 1..b]
  {
    assert r[a + 1..b][c - a - 1] == r[c];
  }

  lemma {:induction false} Span(rounds: seq<Round>, k: nat, p: nat, q: nat)
    requires k + 1 < |rounds| && p < |rounds[k].resumed| && q < |rounds[k + 1].resumed|
    ensures var a, b := Begins(rounds, k) + p, Begins(rounds, k + 1) + q;
      a < b < |Flatten(rounds)| && Flatten(rounds)[a + 1..b] == rounds[k].resumed[p + 1..] + rounds[k + 1].resumed[..q]
  {
    var a, b, r := Begins(rounds, k) + p, Begins(rounds, k + 1) + q, Flatten(rounds);
    FlattenPrefix(rounds, k);
    FlattenPrefix(rounds, k + 1);
    FlattenGrows(rounds, k + 2, |rounds|);
    assert rounds[..|rounds|] == rounds;
    var f := Flatten(rounds[..k]) + rounds[k].resumed + rounds[k + 1].resumed;
    assert f <= r;
    assert r[a + 1..b] == f[a + 1..b];
  }

  /** The connection has been resumed before the span that begins with resumption `a`, and is still
      resumed, or queued, after resumption `b`. */
  ghost predicate LiveOver<T>(s: State<T>, h: nat, a: nat, b: nat)
    requires Inv(s) && a < b < |ResumedOf(s.log)|
  {
    && h in ResumedOf(s.log)[..a]
    && (h in ResumedOf(s.log)[b + 1..] || h in Gens(s, s.queue))
  }

  lemma {:induction false} LeftIsResumed(rounds: seq<Round>, j: nat, h: nat)
    requires History(rounds) && j < |rounds| && h in rounds[j].left
    ensures h in rounds[j].resumed
  {
    assert GoodRound(rounds[j]);
    SubIn(rounds[j].left, rounds[j].resumed, h);
  }

  lemma {:induction false} LiveInBoth(rounds: seq<Round>, k: nat, p: nat, q: nat, h: nat, queued: seq<nat>)
    requires History(rounds) && k + 1 < |rounds| && p < |rounds[k].resumed| && q < |rounds[k + 1].resumed|
    requires queued == rounds[|rounds| - 1].left
    requires var r, a, b := Flatten(rounds), Begins(rounds, k) + p, Begins(rounds, k + 1) + q;
      a < b < |r| && h in r[..a] && (h in r[b + 1..] || h in queued)
    ensures h in rounds[k].resumed && h in rounds[k + 1].resumed
  {
    hide History, Flatten, Begins, Sub;
    var r, a, b := Flatten(rounds), Begins(rounds, k) + p, Begins(rounds, k + 1) + q;
    var e: nat :| e < a && r[e] == h;
    var i, x := Locate(rounds, e);
    BeginsOrdered(rounds, i, x, k, p);
    var j := |rounds| - 1;
    if h in r[b + 1..] {
      var f :| 0 <= f < |r| - b - 1 && r[b + 1..][f] == h;
      var y;
      j, y := Locate(rounds, b + 1 + f);
      BeginsOrdered(rounds, k + 1, q, j, y);
    } else {
      LeftIsResumed(rounds, j, h);
    }
    InAllBetween(rounds, i, j, k, h);
    InAllBetween(rounds, i, j, k + 1, h);
  }

  lemma {:induction false} FairGives<T>(s: State<T>)
    requires Inv(s) && FairInv(s)
    ensures History(s.rounds) && ResumedOf(s.log) == Flatten(s.rounds)
    ensures s.rounds != [] ==> s.rounds[|s.rounds| - 1].left == Gens(s, s.queue)
  {
    hide Inv;
  }

  /** Two consecutive resumptions of one connection. */
  ghost predicate Consecutive(resumed: seq<nat>, a: nat, b: nat) {
    a < b < |resumed| && resumed[a] == resumed[b] && resumed[a] !in resumed[a + 1..b]
  }

  lemma {:induction false} FairSpan<T>(s: State<T>, a: nat, b: nat, h: nat)
    requires Inv(s) && FairInv(s) && Consecutive(ResumedOf(s.log), a, b)
    requires h != ResumedOf(s.log)[a] && LiveOver(s, h, a, b)
    ensures Occurrences(ResumedOf(s.log)[a + 1..b], h) == 1
  {
    hide Inv, FairInv, History, Flatten, ResumedOf, Begins, Occurrences;
    FairGives(s);
    var r, rounds := ResumedOf(s.log), s.rounds;
    var k, p := Locate(rounds, a);
    var m, q := Locate(rounds, b);
    ConsecutivePasses(rounds, k, p, m, q);
    Span(rounds, k, p, q);
    LiveInBoth(rounds, k, p, q, h, rounds[|rounds| - 1].left);
    var i :| 0 <= i < |rounds[k].resumed| && rounds[k].resumed[i] == h;
    var j :| 0 <= j < |rounds[k + 1].resumed| && rounds[k + 1].resumed[j] == h;
    RoundRobin(rounds, k, p, q, i, j);
  }

  /** Round robin: between two consecutive resumptions of a connection, every other connection that is
      live over that span is resumed exactly once. */
  ghost predicate RoundRobinInLog<T>(s: State<T>)
    requires Inv(s)
  {
    forall a: nat, b: nat, h: nat |
      Consecutive(ResumedOf(s.log), a, b) && LiveOver(s, h, a, b) && h != ResumedOf(s.log)[a] ::
      Occurrences(ResumedOf(s.log)[a + 1..b], h) == 1
  }

  /** It holds in every state that keeps the invariants, as the heap server does. */
  lemma {:induction false} FairOverLog<T>(s: State<T>)
    requires Inv(s) && FairInv(s)
    ensures RoundRobinInLog(s)
  {
    hide Inv, FairInv, ResumedOf, Occurrences, LiveOver;
    forall a: nat, b: nat, h: nat |
      Consecutive(ResumedOf(s.log), a, b) && LiveOver(s, h, a, b) && h != ResumedOf(s.log)[a]
      ensures Occurrences(ResumedOf(s.log)[a + 1..b], h) == 1
    {
      FairSpan(s, a, b, h);
    }
  }

  /** And so over all runs of the main loop. */
  lemma {:induction false} RunsAreFair<T>(got: seq<T>, inputs: seq<Input<T>>)
    requires After(got, inputs).Some?
    ensures Inv(After(got, inputs).value) && RoundRobinInLog(After(got, inputs).value)
  {
    hide Inv, FairInv, RoundRobinInLog;
    LoopHead(got, inputs);
    FairOverLog(After(got, inputs).value);
  }
}
