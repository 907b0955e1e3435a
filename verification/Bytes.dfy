/** Byte strings and the searches the server runs over them.

    A byte is a `char`; nothing below depends on the numeric range, so a statement about all
    characters covers all 256 byte values.  Positions are `int`, with -1 for "not found". */
module Bytes {
  const CRLF := "\r\n"

  datatype Option<+T> = None | Some(value: T)

  function Min(a: int, b: int): int { if a <= b then a else b }

  predicate CrlfAt(s: string, i: int) {
    0 <= i < |s| - 1 && s[i] == '\r' && s[i + 1] == '\n'
  }

  /** The header terminator, CR LF CR LF, starts at `i`. */
  predicate TermAt(s: string, i: int) {
    CrlfAt(s, i) && CrlfAt(s, i + 2)
  }

  ghost predicate CrlfFree(s: string) { forall i :: !CrlfAt(s, i) }

  ghost predicate HasTerm(s: string) { exists i :: TermAt(s, i) }

  // ---- library searches -------------------------------------------------------------------

  function FindCrlf(s: string, start: nat := 0): (r: int)
    requires start <= |s|
    ensures r == -1 ==> forall i :: start <= i ==> !CrlfAt(s, i)
    ensures r != -1 ==> start <= r && CrlfAt(s, r) && forall i :: start <= i < r ==> !CrlfAt(s, i)
    decreases |s| - start
  {
    if start + 2 > |s| then -1
    else if CrlfAt(s, start) then start
    else FindCrlf(s, start + 1)
  }

  function FindTerm(s: string, start: nat := 0): (r: int)
    requires start <= |s|
    ensures r == -1 ==> forall i :: start <= i ==> !TermAt(s, i)
    ensures r != -1 ==> start <= r && TermAt(s, r) && forall i :: start <= i < r ==> !TermAt(s, i)
    decreases |s| - start
  {
    if start + 4 > |s| then -1
    else if TermAt(s, start) then start
    else FindTerm(s, start + 1)
  }

  function FindChar(s: string, c: char, start: nat := 0): (r: int)
    requires start <= |s|
    ensures r == -1 ==> forall i :: start <= i < |s| ==> s[i] != c
    ensures r != -1 ==> start <= r < |s| && s[r] == c && forall i :: start <= i < r ==> s[i] != c
    decreases |s| - start
  {
    if start == |s| then -1
    else if s[start] == c then start
    else FindChar(s, c, start + 1)
  }

  function RFindChar(s: string, c: char): (r: int)
    ensures r == -1 ==> forall i :: 0 <= i < |s| ==> s[i] != c
    ensures r != -1 ==> 0 <= r < |s| && s[r] == c && forall i :: r < i < |s| ==> s[i] != c
  {
    if s == [] then -1
    else if s[|s| - 1] == c then |s| - 1
    else RFindChar(s[..|s| - 1], c)
  }

  /** A first position is the only one with its properties. */
  lemma {:induction false} FindCrlfIs(s: string, k: nat)
    requires CrlfAt(s, k) && forall i :: 0 <= i < k ==> !CrlfAt(s, i)
    ensures FindCrlf(s) == k
  {
  }

  lemma {:induction false} FindCharIs(s: string, c: char, k: nat)
    requires k < |s| && s[k] == c && forall i :: 0 <= i < k ==> s[i] != c
    ensures FindChar(s, c) == k
  {
  }

  lemma {:induction false} RFindCharIs(s: string, c: char, k: nat)
    requires k < |s| && s[k] == c && forall i :: k < i < |s| ==> s[i] != c
    ensures RFindChar(s, c) == k
  {
  }

  /** Offset just past the first terminator, 0 when there is none. */
  function HeaderEnd(s: string): (h: nat)
    ensures h == 0 <==> !HasTerm(s)
    ensures h != 0 ==> 4 <= h <= |s| && TermAt(s, h - 4) && forall i :: i < h - 4 ==> !TermAt(s, i)
  {
    var pos := FindTerm(s);
    if pos == -1 then 0 else pos + 4
  }

  lemma {:induction false} HeaderEndIs(s: string, k: nat)
    requires TermAt(s, k) && forall i :: 0 <= i < k ==> !TermAt(s, i)
    ensures HeaderEnd(s) == k + 4
  {
    var h := HeaderEnd(s);
    assert HasTerm(s) && h - 4 <= k;
  }

  /** The first terminator of a stream is found in any prefix long enough to contain it. */
  lemma {:induction false} HeaderEndOfPrefix(s: string, n: nat)
    requires n <= |s|
    ensures HeaderEnd(s[..n]) == if HeaderEnd(s) <= n then HeaderEnd(s) else 0
  {
    var p := s[..n];
    forall i ensures TermAt(p, i) <==> TermAt(s, i) && i + 4 <= n {}
    if HeaderEnd(s) != 0 && HeaderEnd(s) <= n {
      HeaderEndIs(p, HeaderEnd(s) - 4);
    } else {
      assert !HasTerm(p);
    }
  }

  // ---- srv_http helpers -------------------------------------------------------------------

  /** `tolower` in the C locale. */
  function LowerChar(c: char): char {
    if 'A' <= c <= 'Z' then ((c as int) + 32) as char else c
  }

  function ToLower(s: string): (r: string)
    ensures |r| == |s| && forall i :: 0 <= i < |s| ==> r[i] == LowerChar(s[i])
  {
    seq(|s|, i requires 0 <= i < |s| => LowerChar(s[i]))
  }

  /** to_lower, in place over a copy. */
  method LowerString(s: string) returns (r: string)
    ensures r == ToLower(s)
  {
    r := s;
    var i := 0;
    while i < |r|
      invariant 0 <= i <= |r| == |s|
      invariant forall k :: 0 <= k < |s| ==> r[k] == if k < i then LowerChar(s[k]) else s[k]
    {
      r := r[i := LowerChar(r[i])];
      i := i + 1;
    }
  }

  predicate MatchAt(s: string, pat: string, i: int) {
    0 <= i <= |s| - |pat| && s[i..i + |pat|] == pat
  }

  /** Case-insensitive search: a substring test on lowercased strings. */
  predicate ContainsCi(haystack: string, needle: string) {
    needle != "" && exists i | 0 <= i <= |haystack| :: MatchAt(ToLower(haystack), ToLower(needle), i)
  }

  /** The double loop of contains_ci decides ContainsCi. */
  method SearchCi(haystack: string, needle: string) returns (found: bool)
    ensures found <==> ContainsCi(haystack, needle)
  {
    if needle == "" || |haystack| < |needle| {
      return false;
    }
    ghost var h, d := ToLower(haystack), ToLower(needle);
    var i := 0;
    while i <= |haystack| - |needle|
      invariant 0 <= i <= |haystack| - |needle| + 1
      invariant forall k :: 0 <= k < i ==> !MatchAt(h, d, k)
    {
      var j := 0;
      while j < |needle| && LowerChar(haystack[i + j]) == LowerChar(needle[j])
        invariant 0 <= j <= |needle|
        invariant forall k :: 0 <= k < j ==> h[i + k] == d[k]
      {
        j := j + 1;
      }
      if j == |needle| {
        assert MatchAt(h, d, i);
        return true;
      }
      assert h[i..i + |d|][j] != d[j];
      i := i + 1;
    }
    return false;
  }

  predicate Trimmed(s: string) {
    s == "" || (s[0] != ' ' && s[|s| - 1] != ' ')
  }

  function Spaces(n: nat): (r: string)
    ensures |r| == n && forall i :: 0 <= i < n ==> r[i] == ' '
  {
    seq(n, _ => ' ')
  }

  /** trim_spaces: strip the front, then the back. */
  function TrimSpaces(s: string): (r: string) {
    if s != "" && s[0] == ' ' then TrimSpaces(s[1..]) else TrimBack(s)
  }

  function TrimBack(s: string): (r: string) {
    if s != "" && s[|s| - 1] == ' ' then TrimBack(s[..|s| - 1]) else s
  }

  method TrimString(s: string) returns (r: string)
    ensures r == TrimSpaces(s)
  {
    r := s;
    while r != "" && r[0] == ' '
      invariant TrimSpaces(r) == TrimSpaces(s)
      decreases |r|
    {
      r := r[1..];
    }
    while r != "" && r[|r| - 1] == ' '
      invariant TrimBack(r) == TrimSpaces(s)
      decreases |r|
    {
      r := r[..|r| - 1];
    }
  }

  /** What trimming cuts is only spaces, and nothing more can be cut. */
  lemma {:induction false} TrimSpacesCuts(s: string) returns (a: nat, b: nat)
    ensures Trimmed(TrimSpaces(s)) && s == Spaces(a) + TrimSpaces(s) + Spaces(b)
  {
    if s != "" && s[0] == ' ' {
      a, b := TrimSpacesCuts(s[1..]);
      assert s == [' '] + s[1..] && Spaces(a + 1) == [' '] + Spaces(a);
      a := a + 1;
    } else {
      a := 0;
      b := TrimBackCuts(s);
    }
  }

  lemma {:induction false} TrimBackCuts(s: string) returns (b: nat)
    requires s == "" || s[0] != ' '
    ensures Trimmed(TrimBack(s)) && s == TrimBack(s) + Spaces(b)
  {
    if s != "" && s[|s| - 1] == ' ' {
      b := TrimBackCuts(s[..|s| - 1]);
      assert s == s[..|s| - 1] + [' '] && Spaces(b + 1) == Spaces(b) + [' '];
      b := b + 1;
    } else {
      b := 0;
    }
  }

  lemma {:induction false} TrimOfPadded(s: string)
    requires Trimmed(s)
    ensures TrimSpaces(" " + s) == s
  {
    assert (" " + s)[1..] == s;
  }

  // ---- decimal numbers --------------------------------------------------------------------

  const SIZE_LIMIT: nat := 0x1_0000_0000_0000_0000

  predicate IsDigit(c: char) { '0' <= c <= '9' }

  function Digit(c: char): (d: nat)
    requires IsDigit(c)
    ensures d < 10
  {
    c as int - '0' as int
  }

  predicate Digits(s: string) { forall i :: 0 <= i < |s| ==> IsDigit(s[i]) }

  function Numeral(s: string): nat
    requires Digits(s)
  {
    if s == "" then 0 else 10 * Numeral(s[..|s| - 1]) + Digit(s[|s| - 1])
  }

  /** `out << n` for a size_t. */
  function Decimal(n: nat): (s: string)
    ensures s != "" && Digits(s) && Numeral(s) == n
  {
    var d := [((n % 10) + '0' as int) as char];
    if n < 10 then d
    else
      var s := Decimal(n / 10) + d;
      assert s[..|s| - 1] == Decimal(n / 10);
      s
  }

  /** How many leading characters of `s` are digits. */
  function DigitRun(s: string): (k: nat)
    ensures k <= |s| && Digits(s[..k]) && (k < |s| ==> !IsDigit(s[k]))
  {
    if s == "" || !IsDigit(s[0]) then 0
    else
      var k := DigitRun(s[1..]);
      assert s[..k + 1] == [s[0]] + s[1..][..k];
      k + 1
  }

  /** from_chars into a size_t, with the caller's test that all of `s` was consumed. */
  function FromChars(s: string): (r: Option<nat>)
    ensures r.Some? <==> s != "" && Digits(s) && Numeral(s) < SIZE_LIMIT
    ensures r.Some? ==> r.value == Numeral(s)
  {
    var k := DigitRun(s);
    assert k == |s| ==> s[..k] == s;
    if k == 0 then None                                 // invalid_argument
    else if Numeral(s[..k]) >= SIZE_LIMIT then None      // result_out_of_range
    else if k != |s| then None                          // ptr != end
    else Some(Numeral(s[..k]))
  }

  /** Printing a size_t and reading it back is the identity. */
  lemma {:induction false} DecimalRoundTrip(n: nat)
    ensures FromChars(Decimal(n)) == if n < SIZE_LIMIT then Some(n) else None
  {
  }

  lemma {:induction false} DigitsAreClean(s: string)
    requires Digits(s)
    ensures CrlfFree(s) && Trimmed(s)
  {
  }
}
