/** Streams of self-delimiting messages, for any way of cutting the next message off a stream.

    `next` looks at the bytes still to come; a message says how many of them are its own and whether
    the conversation goes on after it.  Everything here follows from three laws. */
module Transcript {

  datatype Next<T> =
    | Incomplete                                // more bytes are needed
    | TooLong                                   // refused: no message can start here
    | Msg(value: T, size: nat, keep: bool)

  datatype EndOfStream = Waiting | Refused | Finished

  /** A message is not empty and lies in the stream; once decided, more bytes do not change what
      comes next; and a message is decided by its own bytes. */
  ghost predicate Lawful<T(!new)>(next: string -> Next<T>) {
    && (forall s :: SelfDelimiting(next, s))
    && (forall p, s :: Stable(next, p, s))
  }

  ghost predicate SelfDelimiting<T>(next: string -> Next<T>, s: string) {
    var n := next(s);
    n.Msg? ==> 0 < n.size <= |s| && next(s[..n.size]) == n
  }

  ghost predicate Stable<T>(next: string -> Next<T>, p: string, s: string) {
    p <= s && !next(p).Incomplete? ==> next(s) == next(p)
  }

  lemma {:induction false} Laws<T(!new)>(next: string -> Next<T>, p: string, s: string)
    requires Lawful(next)
    ensures Stable(next, p, s) && SelfDelimiting(next, p)
  {
  }

  /** The messages of a stream, in order, up to one that ends the conversation. */
  ghost function Values<T(!new)>(next: string -> Next<T>, s: string): seq<T>
    requires Lawful(next)
    decreases |s|
  {
    assert SelfDelimiting(next, s);
    match next(s)
    case Msg(v, n, keep) => [v] + (if keep then Values(next, s[n..]) else [])
    case _ => []
  }

  ghost function Ending<T(!new)>(next: string -> Next<T>, s: string): EndOfStream
    requires Lawful(next)
    decreases |s|
  {
    assert SelfDelimiting(next, s);
    match next(s)
    case Incomplete => Waiting
    case TooLong => Refused
    case Msg(_, n, keep) => if keep then Ending(next, s[n..]) else Finished
  }

  /** What comes behind the messages: what no message starts, or what follows the one that ends the
      conversation. */
  ghost function Behind<T(!new)>(next: string -> Next<T>, s: string): string
    requires Lawful(next)
    decreases |s|
  {
    assert SelfDelimiting(next, s);
    match next(s)
    case Msg(_, n, keep) => if keep then Behind(next, s[n..]) else s[n..]
    case _ => s
  }

  /** The messages of a prefix of the stream are a prefix of the messages. */
  lemma {:induction false} ValuesOfPrefix<T(!new)>(next: string -> Next<T>, p: string, s: string)
    requires Lawful(next) && p <= s
    ensures Values(next, p) <= Values(next, s)
    ensures !Ending(next, p).Waiting? ==>
      Values(next, p) == Values(next, s) && Ending(next, p) == Ending(next, s)
    decreases |p|
  {
    assert Stable(next, p, s) && SelfDelimiting(next, p);
    var n := next(p);
    if n.Msg? && n.keep {
      ValuesOfPrefix(next, p[n.size..], s[n.size..]);
    }
  }

  // ---- consumed bytes ---------------------------------------------------------------------

  /** `c` is exactly the messages `vs`, back to back, with the conversation still going on. */
  ghost predicate Consumes<T(!new)>(next: string -> Next<T>, c: string, vs: seq<T>)
    requires Lawful(next)
  {
    if vs == [] then c == ""
    else
      assert SelfDelimiting(next, c);
      var n := next(c);
      n.Msg? && n.value == vs[0] && n.keep && Consumes(next, c[n.size..], vs[1..])
  }

  lemma {:induction false} DropBoth(c: string, d: string, n: nat)
    requires c <= d && n <= |c|
    ensures c[n..] <= d[n..] && d[n..][|c| - n..] == d[|c|..]
  {
  }

  /** After the consumed messages, the rest of the stream is on its own. */
  lemma {:induction false} AfterConsumed<T(!new)>(next: string -> Next<T>, c: string, vs: seq<T>, s: string)
    requires Lawful(next) && Consumes(next, c, vs) && c <= s
    ensures Values(next, s) == vs + Values(next, s[|c|..])
    ensures Ending(next, s) == Ending(next, s[|c|..]) && Behind(next, s) == Behind(next, s[|c|..])
    decreases |vs|
  {
    hide Lawful;
    if vs == [] {
      assert s[|c|..] == s;
    } else {
      Laws(next, c, s);
      var n := next(c);
      var rest := Values(next, s[|c|..]);
      DropBoth(c, s, n.size);
      AfterConsumed(next, c[n.size..], vs[1..], s[n.size..]);
      ConsAppend(vs, rest);
    }
  }

  lemma {:induction false} ConsAppend<T>(vs: seq<T>, rest: seq<T>)
    requires vs != []
    ensures [vs[0]] + (vs[1..] + rest) == vs + rest
  {
  }

  lemma {:induction false} ConsumeNext<T(!new)>(next: string -> Next<T>, c: string, vs: seq<T>, d: string, v: T)
    requires Lawful(next) && Consumes(next, c, vs)
    requires c <= d && next(d[|c|..]) == Msg(v, |d| - |c|, true)
    ensures Consumes(next, d, vs + [v])
    decreases |vs|
  {
    hide Lawful;
    if vs == [] {
      assert d[|c|..] == d && [v][1..] == [] && d[|d|..] == "";
    } else {
      Laws(next, c, d);
      var n := next(c);
      DropBoth(c, d, n.size);
      ConsumeNext(next, c[n.size..], vs[1..], d[n.size..], v);
      assert (vs + [v])[1..] == vs[1..] + [v];
    }
  }

  // ---- a reader that consumes as it delivers ----------------------------------------------

  /** The reader has delivered `vs`, consuming `c`, and `rest` is still to come. */
  ghost predicate At<T(!new)>(next: string -> Next<T>, s: string, c: string, vs: seq<T>, rest: string) {
    Lawful(next) && s == c + rest && Consumes(next, c, vs)
  }

  /** The message at the head of what is still to come is the next one of the stream. */
  lemma {:induction false} Deliver<T(!new)>(next: string -> Next<T>, s: string, c: string, vs: seq<T>, rest: string)
    requires At(next, s, c, vs, rest) && next(rest).Msg?
    ensures var n := next(rest); 0 < n.size <= |rest| && vs + [n.value] <= Values(next, s)
    ensures !next(rest).keep ==>
      && Values(next, s) == vs + [next(rest).value] && Ending(next, s) == Finished
      && Behind(next, s) == rest[next(rest).size..]
  {
    assert SelfDelimiting(next, rest);
    assert s[|c|..] == rest;
    AfterConsumed(next, c, vs, s);
  }

  /** If the message keeps the conversation going, the reader is now behind it. */
  lemma {:induction false} Advance<T(!new)>(next: string -> Next<T>, s: string, c: string, vs: seq<T>, rest: string)
    requires At(next, s, c, vs, rest) && next(rest).Msg? && next(rest).keep
    ensures var n := next(rest);
      n.size <= |rest| && At(next, s, c + rest[..n.size], vs + [n.value], rest[n.size..])
  {
    assert SelfDelimiting(next, rest);
    var n := next(rest);
    var d := c + rest[..n.size];
    assert d[|c|..] == rest[..n.size];
    ConsumeNext(next, c, vs, d, n.value);
  }

  /** If the bytes that have arrived hold no further message, what was delivered is all of theirs. */
  lemma {:induction false} Pause<T(!new)>(next: string -> Next<T>, s: string, c: string, vs: seq<T>, rest: string,
                                          k: nat)
    requires At(next, s, c, vs, rest) && k <= |rest| && !next(rest[..k]).Msg?
    ensures vs <= Values(next, s)
    ensures var seen := s[..|c| + k];
      Values(next, seen) == vs && Ending(next, seen) == if next(rest[..k]).TooLong? then Refused else Waiting
    ensures next(rest[..k]).TooLong? ==> Values(next, s) == vs && Ending(next, s) == Refused
  {
    var seen := s[..|c| + k];
    assert seen[|c|..] == rest[..k];
    AfterConsumed(next, c, vs, seen);
    ValuesOfPrefix(next, seen, s);
  }
}
