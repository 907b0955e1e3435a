/** Header sections as lists of lines: where the framing search and the line parser meet. */
module Lines {
  import opened Bytes

  function Unlines(lines: seq<string>): string {
    if lines == [] then "" else lines[0] + CRLF + Unlines(lines[1..])
  }

  /** The CRLF-terminated lines of `p`; an unterminated tail is dropped. */
  function SplitLines(p: string): seq<string>
    decreases |p|
  {
    var e := FindCrlf(p);
    if e == -1 then [] else [p[..e]] + SplitLines(p[e + 2..])
  }

  ghost predicate CleanLines(lines: seq<string>) {
    forall l <- lines :: CrlfFree(l)
  }

  /** The lines of a header section before its empty line: a first line, then non-empty ones. */
  ghost predicate SectionLines(lines: seq<string>) {
    |lines| >= 1 && CleanLines(lines) && "" !in lines[1..]
  }

  /** A header section is its lines followed by one empty line. */
  function Section(lines: seq<string>): string { Unlines(lines + [""]) }

  lemma {:induction false} FirstLine(line: string, rest: string)
    requires CrlfFree(line)
    ensures FindCrlf(line + CRLF + rest) == |line|
    ensures (line + CRLF + rest)[..|line|] == line && (line + CRLF + rest)[|line| + 2..] == rest
  {
    var s := line + CRLF + rest;
    forall i | 0 <= i < |line| ensures !CrlfAt(s, i) {
      assert !CrlfAt(line, i);
    }
    FindCrlfIs(s, |line|);
  }

  lemma {:induction false} SplitOfUnlines(lines: seq<string>)
    requires CleanLines(lines)
    ensures SplitLines(Unlines(lines)) == lines
  {
    if lines != [] {
      FirstLine(lines[0], Unlines(lines[1..]));
      SplitOfUnlines(lines[1..]);
    }
  }

  lemma {:induction false} TermAfterLine(l: string, x: string)
    requires CrlfFree(l) && HeaderEnd(x) != 0 && !CrlfAt(x, 0)
    ensures HeaderEnd(l + CRLF + x) == |l| + 2 + HeaderEnd(x)
  {
    var s := l + CRLF + x;
    FirstLine(l, x);
    var k := |l| + 2 + HeaderEnd(x) - 4;
    forall i | 0 <= i < k ensures !TermAt(s, i) {
      if i >= |l| + 2 {
        assert TermAt(s, i) == TermAt(x, i - |l| - 2);
      } else if i == |l| {
        assert CrlfAt(s, i + 2) == CrlfAt(x, 0);
      }
    }
    assert TermAt(s, k) == TermAt(x, HeaderEnd(x) - 4);
    HeaderEndIs(s, k);
  }

  lemma {:induction false} TermRightAfterLine(l: string, rest: string)
    requires CrlfFree(l)
    ensures HeaderEnd(l + CRLF + (CRLF + rest)) == |l| + 4
  {
    FirstLine(l, CRLF + rest);
    HeaderEndIs(l + CRLF + (CRLF + rest), |l|);
  }

  /** Framing finds exactly the end of a printed section, whatever follows it. */
  lemma {:induction false} FramingOfSection(lines: seq<string>, rest: string)
    requires SectionLines(lines)
    ensures HeaderEnd(Section(lines) + rest) == |Section(lines)|
  {
    var l, more := lines[0], lines[1..];
    assert lines == [l] + more;
    SectionCons(l, more);
    assert Section(lines) + rest == l + CRLF + (Section(more) + rest);
    if more == [] {
      NoLines();
      TermRightAfterLine(l, rest);
    } else {
      assert "" !in more[1..];
      FramingOfSection(more, rest);
      SectionCons(more[0], more[1..]);
      assert more == [more[0]] + more[1..];
      var x := more[0] + CRLF + (Section(more[1..]) + rest);
      assert Section(more) + rest == x;
      FirstLine(more[0], Section(more[1..]) + rest);
      TermAfterLine(l, x);
    }
  }

  /** Cutting the first line off a framed section leaves the empty line or a framed section. */
  lemma {:induction false} CutLine(s: string)
    requires s != "" && HeaderEnd(s) == |s|
    ensures var e := FindCrlf(s);
      && 0 <= e <= |s| - 4 && CrlfFree(s[..e])
      && (e == |s| - 4 ==> s[e + 2..] == CRLF)
      && (e != |s| - 4 ==> HeaderEnd(s[e + 2..]) == |s| - e - 2 && FindCrlf(s[e + 2..]) != 0)
  {
    assert TermAt(s, |s| - 4) && CrlfAt(s, |s| - 4);
    var e := FindCrlf(s);
    forall i ensures !CrlfAt(s[..e], i) {
      assert CrlfAt(s[..e], i) ==> CrlfAt(s, i);
    }
    if e != |s| - 4 {
      assert e != |s| - 5;
      var rest := s[e + 2..];
      forall i | 0 <= i ensures TermAt(rest, i) == TermAt(s, i + e + 2) {}
      HeaderEndIs(rest, |rest| - 4);
      assert !TermAt(s, e);
    }
  }

  lemma {:induction false} UnlinesOfSplit(s: string)
    requires s != "" && HeaderEnd(s) == |s|
    ensures Unlines(SplitLines(s)) == s
    decreases |s|
  {
    CutLine(s);
    var e := FindCrlf(s);
    var l := SplitLines(s);
    assert s == s[..e] + CRLF + s[e + 2..];
    assert l[0] == s[..e] && l[1..] == SplitLines(s[e + 2..]);
    if e == |s| - 4 {
      SplitOfEnd();
    } else {
      UnlinesOfSplit(s[e + 2..]);
    }
  }

  lemma {:induction false} SplitOfEnd()
    ensures SplitLines(CRLF) == [""] && Unlines([""]) == CRLF
  {
    assert FindCrlf(CRLF) == 0 && CRLF[2..] == "" && SplitLines("") == [];
    assert Unlines([""][1..]) == "" && "" + CRLF + "" == CRLF;
  }

  lemma {:induction false} SplitOfFraming(s: string)
    requires s != "" && HeaderEnd(s) == |s|
    ensures var l := SplitLines(s); |l| >= 2 && l[|l| - 1] == "" && SectionLines(l[..|l| - 1])
    ensures SplitLines(s)[0] == s[..FindCrlf(s)]
    decreases |s|
  {
    hide HeaderEnd, TermAt, CrlfFree, FindCrlf;
    CutLine(s);
    var e := FindCrlf(s);
    var l, more := SplitLines(s), SplitLines(s[e + 2..]);
    assert l[0] == s[..e] && l == [l[0]] + more;
    if e == |s| - 4 {
      SplitOfEnd();
    } else {
      SplitOfFraming(s[e + 2..]);
      FirstThenRest(l[0], more[..|more| - 1]);
      assert l[..|l| - 1] == [l[0]] + more[..|more| - 1];
    }
  }

  lemma {:induction false} FirstThenRest(line: string, more: seq<string>)
    requires CrlfFree(line) && SectionLines(more) && more[0] != ""
    ensures SectionLines([line] + more)
  {
    assert ([line] + more)[1..] == more == [more[0]] + more[1..];
  }

  /** Conversely, whatever framing cuts off is the print of its own lines: no CRLF is missing, and
      the empty line is met exactly once, last. */
  lemma {:induction false} SectionOfFraming(s: string) returns (lines: seq<string>)
    requires s != "" && HeaderEnd(s) == |s|
    ensures SectionLines(lines) && s == Section(lines) && SplitLines(s) == lines + [""]
  {
    SplitOfFraming(s);
    UnlinesOfSplit(s);
    var l := SplitLines(s);
    lines := l[..|l| - 1];
    assert lines + [""] == l;
  }

  lemma {:induction false} SectionCons(line: string, more: seq<string>)
    ensures Section([line] + more) == line + CRLF + Section(more)
  {
    assert [line] + more + [""] == [line] + (more + [""]);
  }

  lemma {:induction false} NoLines()
    ensures Section([]) == CRLF
  {
    assert [] + [""] == [""];
    SplitOfEnd();
  }
}
