/** The incremental search for the header terminator, in a buffer with a guard page behind it. */
module Terminator {
  import opened Bytes

  const TERM_SEQ := "\r\n\r\n"

  /** What comparing four bytes with the terminator comes to.  Faults: all bytes up to the end of the
      buffer agreed, and the next one is in the guard page. */
  datatype Verdict = Same | Differs | Faults

  function CompareAt(b: string, k: nat): Verdict
    requires k <= |b|
  {
    if k + 4 <= |b| then if TermAt(b, k) then Same else Differs
    else if b[k..] == TERM_SEQ[..|b| - k] then Faults else Differs
  }

  /** strncmp(buf + k, term_seq, 4) == 0: it reads no further than to the first difference. */
  method Compare(buf: array<char>, k: nat) returns (v: Verdict)
    requires k <= buf.Length
    ensures v == CompareAt(buf[..], k)
  {
    var i := 0;
    while i < 4
      invariant 0 <= i <= 4 && k + i <= buf.Length
      invariant forall j :: 0 <= j < i ==> buf[k + j] == TERM_SEQ[j]
    {
      if k + i == buf.Length {
        assert buf[..][k..] == TERM_SEQ[..i];
        return Faults;
      }
      if buf[k + i] != TERM_SEQ[i] {
        if k + 4 > buf.Length {
          assert buf[..][k..][i] != TERM_SEQ[..buf.Length - k][i];
        }
        return Differs;
      }
      i := i + 1;
    }
    assert TERM_SEQ[0] == '\r' && TERM_SEQ[1] == '\n' && TERM_SEQ[2] == '\r' && TERM_SEQ[3] == '\n';
    assert buf[k + 0] == '\r' && buf[k + 1] == '\n' && buf[k + 2] == '\r' && buf[k + 3] == '\n';
    return Same;
  }

  /** The windows over the boundary between the last chunk and the earlier ones: `i` bytes before it
      and on, for i, i - 1, ..., 1. */
  function Straddling(b: string, prev: nat, i: nat): Verdict
    requires prev <= |b|
  {
    if i == 0 then Differs
    else if prev >= i && CompareAt(b, prev - i) != Differs then CompareAt(b, prev - i)
    else Straddling(b, prev, i - 1)
  }

  /** What is_http_message_end answers, or that it never does. */
  ghost function EndTest(b: string, prev: nat, n: nat): Verdict
    requires prev <= n <= |b|
  {
    if n < 4 then Differs
    else if TermAt(b, n - 4) then Same
    else if Straddling(b, prev, 3) != Differs then Straddling(b, prev, 3)
    else if exists k :: prev <= k <= n - 4 && TermAt(b, k) then Same
    else Differs
  }

  /** Its second loop. */
  method SearchBoundary(buf: array<char>, prev: nat) returns (v: Verdict)
    requires prev <= buf.Length
    ensures v == Straddling(buf[..], prev, 3)
  {
    hide CompareAt;
    var i := 3;
    while i >= 1
      invariant 0 <= i <= 3 && Straddling(buf[..], prev, 3) == Straddling(buf[..], prev, i)
      decreases i
    {
      if prev >= i {
        v := Compare(buf, prev - i);
        if v != Differs {
          return;
        }
      }
      i := i - 1;
    }
    return Differs;
  }

  lemma {:induction false} CompareInside(b: string, k: nat)
    requires k + 4 <= |b|
    ensures CompareAt(b, k) == if TermAt(b, k) then Same else Differs
  {
  }

  /** Its third loop. */
  method SearchChunk(buf: array<char>, prev: nat, n: nat) returns (found: bool)
    requires prev <= n <= buf.Length && n >= 4
    ensures found <==> exists k :: prev <= k <= n - 4 && TermAt(buf[..], k)
  {
    hide CompareAt, TermAt;
    var i := prev;
    while i <= n - 4
      invariant prev <= i
      invariant forall k :: prev <= k < i ==> !TermAt(buf[..], k)
    {
      var v := Compare(buf, i);
      CompareInside(buf[..], i);
      if v == Same {
        return true;
      }
      i := i + 1;
    }
    return false;
  }

  method IsHttpMessageEnd(buf: array<char>, prev: nat, n: nat) returns (v: Verdict)
    requires prev <= n <= buf.Length
    ensures v == EndTest(buf[..], prev, n)
  {
    hide CompareAt, TermAt, Straddling;
    if n < 4 {
      return Differs;
    }
    v := Compare(buf, n - 4);
    CompareInside(buf[..], n - 4);
    if v == Same {
      return;
    }
    v := SearchBoundary(buf, prev);
    if v != Differs {
      return;
    }
    var found := SearchChunk(buf, prev, n);
    v := if found then Same else Differs;
  }

  // ---- against the full search ------------------------------------------------------------

  /** A straddling window that matches only thanks to stale bytes behind the message. */
  predicate Spill(b: string, prev: nat, n: nat) {
    n >= 4 && exists k | prev - 3 <= k < prev :: n < k + 4 && TermAt(b, k)
  }

  /** A straddling window that agrees with the terminator up to the end of the buffer. */
  predicate Overrun(b: string, prev: nat, n: nat)
    requires prev <= |b|
  {
    n >= 4 && exists k | prev - 3 <= k < prev :: k >= 0 && CompareAt(b, k) == Faults
  }

  lemma {:induction false} StraddlingIs(b: string, prev: nat, i: nat)
    requires prev <= |b|
    ensures Straddling(b, prev, i) == Same <==> exists k | prev - i <= k < prev :: TermAt(b, k)
    ensures Straddling(b, prev, i) == Faults <==>
      (exists k | prev - i <= k < prev :: k >= 0 && CompareAt(b, k) == Faults)
      && !exists k | prev - i <= k < prev :: TermAt(b, k)
  {
    if i > 0 {
      StraddlingIs(b, prev, i - 1);
      if prev >= i {
        assert forall k :: TermAt(b, k) ==> k + 4 <= |b|;
        assert CompareAt(b, prev - i) == Same <==> TermAt(b, prev - i);
      }
    }
  }

  /** Comparing byte by byte: agreement is the terminator, a fault its proper prefix at the end. */
  lemma {:induction false} CompareBytes(b: string, k: nat)
    requires k <= |b|
    ensures CompareAt(b, k) == Faults <==>
      k + 4 > |b| && forall j :: 0 <= j < |b| - k ==> b[k + j] == TERM_SEQ[j]
  {
    if k + 4 > |b| && forall j :: 0 <= j < |b| - k ==> b[k + j] == TERM_SEQ[j] {
      assert b[k..] == TERM_SEQ[..|b| - k];
    }
    if CompareAt(b, k) == Faults {
      forall j | 0 <= j < |b| - k ensures b[k + j] == TERM_SEQ[j] {
        assert b[k + j] == b[k..][j];
      }
    }
  }

  lemma {:induction false} TermOfPrefix(b: string, n: nat)
    requires n <= |b|
    ensures HasTerm(b[..n]) <==> exists k :: TermAt(b, k) && k + 4 <= n
  {
    forall k ensures TermAt(b[..n], k) <==> TermAt(b, k) && k + 4 <= n {}
  }

  /** The incremental search refines the full one.  When no terminator ends in the bytes before the
      new chunk, the test answers yes exactly if the message has a terminator or a window spilled, and
      never answers exactly if the message has none and a window overran the buffer. */
  lemma {:induction false} IncrementalSearch(b: string, prev: nat, n: nat)
    requires prev < n <= |b| && !HasTerm(b[..prev])
    ensures EndTest(b, prev, n) == Same <==> HasTerm(b[..n]) || Spill(b, prev, n)
    ensures EndTest(b, prev, n) == Faults <==> !HasTerm(b[..n]) && Overrun(b, prev, n)
  {
    hide HasTerm;
    TermOfPrefix(b, n);
    TermOfPrefix(b, prev);
    StraddlingIs(b, prev, 3);
    forall k | prev - 3 <= k < prev && k >= 0 && CompareAt(b, k) == Faults
      ensures HasTerm(b[..n]) ==> exists j | prev - 3 <= j < prev :: TermAt(b, j)
    {
      CompareBytes(b, k);
    }
  }

  /** The test is exact if and only if no window spills or overruns while the terminator is still
      missing.  Both take a follow-up chunk of one or two bytes that ends inside a terminator.  A spill
      needs stale bytes that happen to complete it. */
  lemma {:induction false} ExactUnlessSpill(b: string, prev: nat, n: nat)
    requires prev < n <= |b| && !HasTerm(b[..prev])
    ensures EndTest(b, prev, n) == (if HasTerm(b[..n]) then Same else Differs)
      <==> HasTerm(b[..n]) || !(Spill(b, prev, n) || Overrun(b, prev, n))
    ensures Spill(b, prev, n) ==>
      && prev >= 2 && n - prev <= 2 && n < |b|
      && (if b[n - 1] == '\r' then b[n] == '\n'
          else b[n - 1] == '\n' && n + 1 < |b| && b[n] == '\r' && b[n + 1] == '\n')
  {
    IncrementalSearch(b, prev, n);
  }

  /** When the test touches the guard page: its chunk is one or two bytes long, near the end of the
      buffer, and the buffer ends like the start of a terminator.  The last byte of the buffer need not
      even be part of the message. */
  lemma {:induction false} FaultIff(b: string, prev: nat, n: nat)
    requires 4 <= n && prev < n <= |b| && !HasTerm(b[..prev]) && !HasTerm(b[..n])
    ensures EndTest(b, prev, n) == Faults <==>
      || (prev == |b| - 1 && b[|b| - 2..] == "\r\n")
      || (prev >= |b| - 2 && b[|b| - 3..] == "\r\n\r")
  {
    hide HasTerm, CompareAt;
    IncrementalSearch(b, prev, n);
    FaultingWindow(b, |b| - 3);
    FaultingWindow(b, |b| - 2);
    forall k | prev - 3 <= k < prev && k >= 0 && CompareAt(b, k) == Faults ensures k == |b| - 2 || k == |b| - 3 {
      FaultingWindow(b, k);
    }
  }

  lemma {:induction false} FaultingWindow(b: string, k: nat)
    requires k < |b|
    ensures CompareAt(b, k) == Faults <==>
      || (k == |b| - 1 && b[k..] == "\r")
      || (k == |b| - 2 && b[k..] == "\r\n")
      || (k == |b| - 3 && b[k..] == "\r\n\r")
  {
    assert TERM_SEQ[..1] == "\r" && TERM_SEQ[..2] == "\r\n" && TERM_SEQ[..3] == "\r\n\r";
  }

  /** Three bytes of a message, a fourth received after them, and one stale byte. */
  lemma {:induction false} SpillExample()
    ensures var b := "G\r\n\r\n"; !HasTerm(b[..4]) && EndTest(b, 3, 4) == Same
  {
    var b := "G\r\n\r\n";
    TermOfPrefix(b, 4);
    TermOfPrefix(b, 3);
    assert !CrlfAt(b, 0) && CrlfAt(b, 1) && CrlfAt(b, 3);
    assert TermAt(b, 1);
    IncrementalSearch(b, 3, 4);
  }
}
