/** The reference definition of the receiving side: a pure function from a whole byte stream to the
    requests in it.  It knows nothing of buffers, chunks or schedules. */
module Stream {
  import opened Bytes
  import opened Message
  import opened Verdicts
  import opened Transcript

  const RECV_BUF_SIZE: nat := 8192

  type NextRequest = Next<Request>

  function AsString(v: HeaderValue): string
    requires v.Str?
  {
    v.s
  }

  /** What WantKeepAlive answers. */
  predicate KeepAlive(r: Request)
    requires Typed(r.headers)
  {
    if !r.IsOk() then false
    else if "connection" in r.headers && ContainsCi(AsString(r.headers["connection"]), "close") then false
    else if "connection" in r.headers && ContainsCi(AsString(r.headers["connection"]), "keep-alive") then true
    else r.version != "HTTP/1.0"
  }

  /** `word`, in lower case, occurs in the Connection header, in any case. */
  ghost predicate Mentions(r: Request, word: string) {
    && "connection" in r.headers && r.headers["connection"].Str?
    && exists low :: Lowered(r.headers["connection"].s, low) && Occurs(word, low)
  }

  ghost predicate Occurs(word: string, s: string) {
    exists before, after :: s == before + word + after
  }

  /** When a connection goes on after a request. */
  ghost predicate GoesOn(r: Request) {
    r.error == StatusNone && !Mentions(r, "close") && (Mentions(r, "keep-alive") || r.version != "HTTP/1.0")
  }

  lemma {:induction false} MentionsIs(r: Request, word: string)
    requires Typed(r.headers) && word != "" && ToLower(word) == word
    ensures Mentions(r, word)
      <==> "connection" in r.headers && ContainsCi(AsString(r.headers["connection"]), word)
  {
    if "connection" in r.headers {
      var value := AsString(r.headers["connection"]);
      LowerIs(value, ToLower(value));
      OccursIs(value, word);
      if Mentions(r, word) {
        var low :| Lowered(value, low) && Occurs(word, low);
        LowerIs(value, low);
      }
    }
  }

  lemma {:induction false} OccursIs(value: string, word: string)
    requires word != "" && ToLower(word) == word
    ensures Occurs(word, ToLower(value)) <==> ContainsCi(value, word)
  {
    var low := ToLower(value);
    if ContainsCi(value, word) {
      var i :| 0 <= i <= |value| && MatchAt(low, word, i);
      assert low == low[..i] + word + low[i + |word|..];
    }
    if Occurs(word, low) {
      var before, after :| low == before + word + after;
      assert MatchAt(low, word, |before|);
    }
  }

  lemma {:induction false} LowerWords()
    ensures ToLower("close") == "close" && ToLower("keep-alive") == "keep-alive"
  {
  }

  lemma {:induction false} KeepAliveIs(r: Request)
    requires Typed(r.headers)
    ensures KeepAlive(r) <==> GoesOn(r)
  {
    hide Mentions, ContainsCi;
    LowerWords();
    MentionsIs(r, "close");
    MentionsIs(r, "keep-alive");
  }

  method WantKeepAlive(r: Request) returns (keep: bool)
    requires Typed(r.headers)
    ensures keep == KeepAlive(r) && (keep <==> GoesOn(r))
  {
    hide Mentions, GoesOn;
    KeepAliveIs(r);
    if !r.IsOk() {
      return false;
    }
    if "connection" in r.headers {
      var value := AsString(r.headers["connection"]);
      var close := SearchCi(value, "close");
      if close {
        return false;
      }
      var alive := SearchCi(value, "keep-alive");
      if alive {
        return true;
      }
    }
    return r.version != "HTTP/1.0";
  }

  /** How many body bytes a parsed request owns. */
  function BodyLength(r: Request): nat
    requires Typed(r.headers) && (r.IsOk() && MethodHasBody(r.meth) ==> CONTENT_LENGTH in r.headers)
  {
    if r.IsOk() && MethodHasBody(r.meth) then r.headers[CONTENT_LENGTH].n else 0
  }

  /** A parsed request completed by the body bytes it owns of those `after` its header section. */
  function TakeBody(r: Request, h: nat, after: string): (n: NextRequest)
    requires Typed(r.headers) && (r.IsOk() && MethodHasBody(r.meth) ==> CONTENT_LENGTH in r.headers)
    ensures n.Msg? ==> h <= n.size <= h + |after| && Typed(n.value.headers) && n.keep == KeepAlive(n.value)
  {
    var n := BodyLength(r);
    if |after| < n then Incomplete
    else
      var q := r.(body := after[..n]);
      Msg(q, h + n, KeepAlive(q))
  }

  /** The message whose header section is the first `h` bytes of `s`. */
  function Framed(s: string, h: nat): (n: NextRequest)
    requires h <= |s|
    ensures n.Msg? ==> h <= n.size <= |s| && Typed(n.value.headers) && n.keep == KeepAlive(n.value)
  {
    TypedDispatch(s[..h]);
    TakeBody(ParseHead(s[..h]), h, s[h..])
  }

  /** The first 8192 bytes, in which the header section of the next message has to end. */
  function Window(s: string): string { s[..Min(|s|, RECV_BUF_SIZE)] }

  /** The first message of a stream: its header section ends at the first terminator, which has to
      lie in the first 8192 bytes; a valid request of a body method owns Content-Length more. */
  function NextMessage(s: string): (n: NextRequest)
    ensures n.Msg? ==> 4 <= n.size <= |s| && Typed(n.value.headers) && n.keep == KeepAlive(n.value)
  {
    var h := HeaderEnd(Window(s));
    if h == 0 then
      if |s| >= RECV_BUF_SIZE then TooLong else Incomplete
    else
      Framed(s, h)
  }

  /** The first message, read off the stream: a section that ends at the first terminator within 8192 bytes,
      and, for a valid request of a method that owns a body, as many bytes more as its length says. */
  ghost predicate IsFirst(s: string, n: NextRequest) {
    if exists h: nat :: IsSection(s, h) then exists h: nat :: IsSection(s, h) && IsMessage(s, h, n)
    else n == if |s| >= 8192 then TooLong else Incomplete
  }

  ghost predicate IsSection(s: string, h: nat) {
    4 <= h <= |s| && h <= 8192 && TermAt(s, h - 4) && forall i :: 0 <= i < h - 4 ==> !TermAt(s, i)
  }

  ghost predicate IsMessage(s: string, h: nat, n: NextRequest)
    requires h <= |s|
  {
    var r := ParseHead(s[..h]);
    && (r.error == StatusNone && OwnsBody(r.meth) ==>
          "content-length" in r.headers && r.headers["content-length"].Size?)
    && var size := if r.error == StatusNone && OwnsBody(r.meth) then r.headers["content-length"].n else 0;
       if h + size <= |s| then n == Msg(r.(body := s[h..h + size]), h + size, GoesOn(r)) else n == Incomplete
  }

  lemma {:induction false} FirstMessage(s: string)
    ensures IsFirst(s, NextMessage(s))
  {
    hide Framed, IsMessage, HeaderEnd;
    var h := HeaderEnd(Window(s));
    forall i ensures TermAt(Window(s), i) <==> TermAt(s, i) && i + 4 <= |Window(s)| {}
    if h != 0 {
      assert IsSection(s, h);
      FramedIs(s, h);
    } else {
      forall g: nat ensures !IsSection(s, g) {
        assert IsSection(s, g) ==> TermAt(Window(s), g - 4);
      }
    }
  }

  lemma {:induction false} FramedIs(s: string, h: nat)
    requires h <= |s|
    ensures IsMessage(s, h, Framed(s, h))
  {
    hide ParseHead, KeepAlive, GoesOn, MethodHasBody, OwnsBody;
    var r := ParseHead(s[..h]);
    TypedDispatch(s[..h]);
    BodyMethods(r.meth);
    SameKeep(r, s[h..]);
    var n := BodyLength(r);
    if n <= |s| - h {
      assert s[h..][..n] == s[h..h + n];
    }
  }

  lemma {:induction false} SameKeep(r: Request, after: string)
    requires Typed(r.headers)
    ensures forall n: nat :: n <= |after| ==> KeepAlive(r.(body := after[..n])) == GoesOn(r)
  {
    hide ContainsCi, Mentions;
    KeepAliveIs(r);
    forall n: nat | n <= |after| ensures KeepAlive(r.(body := after[..n])) == KeepAlive(r) {}
  }

  /** The cut-off window of a prefix shows the terminator, and the refusal, of the whole stream. */
  lemma {:induction false} WindowOfPrefix(s: string, n: nat)
    requires n <= |s|
    ensures HeaderEnd(Window(s[..n])) != 0 || n >= RECV_BUF_SIZE ==>
      HeaderEnd(Window(s)) == HeaderEnd(Window(s[..n]))
  {
    assert Window(s[..n]) == Window(s)[..|Window(s[..n])|];
    HeaderEndOfPrefix(Window(s), |Window(s[..n])|);
  }

  lemma {:induction false} BodyOfPrefix(r: Request, h: nat, p: string, after: string)
    requires Typed(r.headers) && (r.IsOk() && MethodHasBody(r.meth) ==> CONTENT_LENGTH in r.headers)
    requires p <= after
    ensures |p| >= BodyLength(r) ==> TakeBody(r, h, after) == TakeBody(r, h, p)
  {
    if |p| >= BodyLength(r) {
      assert p[..BodyLength(r)] == after[..BodyLength(r)];
    }
  }

  lemma {:induction false} FramedOfPrefix(s: string, n: nat, h: nat)
    requires h <= n <= |s|
    ensures Framed(s[..n], h).Incomplete? || Framed(s, h) == Framed(s[..n], h)
    ensures Framed(s, h).Msg? && Framed(s, h).size <= n ==> Framed(s[..n], h) == Framed(s, h)
  {
    assert s[..n][..h] == s[..h];
    TypedDispatch(s[..h]);
    BodyOfPrefix(ParseHead(s[..h]), h, s[..n][h..], s[h..]);
  }

  /** More bytes never change a message that is already decided. */
  lemma {:induction false} Decided(s: string, n: nat)
    requires n <= |s|
    ensures NextMessage(s[..n]).Incomplete? || NextMessage(s) == NextMessage(s[..n])
  {
    WindowOfPrefix(s, n);
    var h := HeaderEnd(Window(s[..n]));
    if h != 0 {
      FramedOfPrefix(s, n, h);
    }
  }

  /** A message is decided by its own bytes alone. */
  lemma {:induction false} OwnBytes(s: string)
    requires NextMessage(s).Msg?
    ensures NextMessage(s[..NextMessage(s).size]) == NextMessage(s)
  {
    var n := NextMessage(s).size;
    assert Window(s[..n]) == Window(s)[..|Window(s[..n])|];
    HeaderEndOfPrefix(Window(s), |Window(s[..n])|);
    FramedOfPrefix(s, n, HeaderEnd(Window(s)));
  }

  // ---- whole streams ----------------------------------------------------------------------

  const NEXT: string -> NextRequest := s => NextMessage(s)

  lemma {:induction false} NextIsLawful()
    ensures Lawful(NEXT)
  {
    forall s ensures SelfDelimiting(NEXT, s) {
      if NEXT(s).Msg? {
        OwnBytes(s);
      }
    }
    forall p, s ensures Stable(NEXT, p, s) {
      if p <= s {
        assert p == s[..|p|];
        Decided(s, |p|);
      }
    }
  }

  /** The requests a connection carrying stream `s` delivers, in order. */
  ghost function Requests(s: string): seq<Request> {
    NextIsLawful();
    Values(NEXT, s)
  }

  ghost function EndOf(s: string): EndOfStream {
    NextIsLawful();
    Ending(NEXT, s)
  }

  /** What the requests leave of the stream. */
  ghost function BehindAll(s: string): string {
    NextIsLawful();
    Behind(NEXT, s)
  }

  /** Of a list of delivered requests, all but the last keep the connection alive. */
  ghost predicate AllButLastKeepAlive(rs: seq<Request>) {
    && (forall r <- rs :: Typed(r.headers))
    && (forall i :: 0 <= i < |rs| - 1 ==> KeepAlive(rs[i]))
  }

  ghost predicate LastCloses(rs: seq<Request>)
    requires AllButLastKeepAlive(rs)
  {
    rs != [] && !KeepAlive(rs[|rs| - 1])
  }

  lemma {:induction false} ConsKeepAlive(r: Request, rs: seq<Request>)
    requires Typed(r.headers) && KeepAlive(r) && AllButLastKeepAlive(rs)
    ensures AllButLastKeepAlive([r] + rs) && (LastCloses([r] + rs) <==> LastCloses(rs))
  {
  }

  lemma {:induction false} NextFacts(s: string)
    ensures var n := NEXT(s);
      n.Msg? ==> 0 < n.size <= |s| && Typed(n.value.headers) && n.keep == KeepAlive(n.value)
  {
  }

  /** Only the last delivered request can ask for the connection to be closed, and the stream is
      finished exactly when it does. */
  lemma {:induction false} OnlyLastCloses(s: string)
    ensures AllButLastKeepAlive(Requests(s)) && (LastCloses(Requests(s)) <==> EndOf(s).Finished?)
    decreases |s|
  {
    var n := NEXT(s);
    NextFacts(s);
    if n.Msg? && n.keep {
      OnlyLastCloses(s[n.size..]);
      ConsKeepAlive(n.value, Requests(s[n.size..]));
    }
  }
}
