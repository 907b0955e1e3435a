/** What a header section is worth, read off its text: the verdict of the parser without the parser. */
module Verdicts {
  import opened Bytes
  import opened Lines
  import opened Message

  // ---- texts ------------------------------------------------------------------------------

  /** `low` is `s` in lower case, in the C locale. */
  ghost predicate Lowered(s: string, low: string) {
    |low| == |s|
    && forall i :: 0 <= i < |s| ==>
         if 'A' <= s[i] <= 'Z' then low[i] as int - 'a' as int == s[i] as int - 'A' as int else low[i] == s[i]
  }

  /** The text in front of the first colon of `line` is `name` up to case, and the text behind it is
      `value` between spaces. */
  ghost predicate IsField(line: string, name: string, value: string) {
    && (value == "" || (value[0] != ' ' && value[|value| - 1] != ' '))
    && exists pre: string, a: nat, b: nat ::
         ':' !in pre && Lowered(pre, name) && line == pre + ":" + (Spaces(a) + value + Spaces(b))
  }

  predicate OwnsBody(meth: string) { meth == "POST" || meth == "PUT" || meth == "PATCH" }

  predicate IsNumeral(text: string) { text != "" && Digits(text) }

  /** The line is worth a 413. */
  ghost predicate TooLarge(meth: string, line: string) {
    exists value :: IsField(line, "content-length", value)
      && OwnsBody(meth) && IsNumeral(value) && 33554432 < Numeral(value) < 18446744073709551616
  }

  /** The line is worth a 400. */
  ghost predicate Malformed(meth: string, line: string) {
    || ':' !in line
    || exists value :: IsField(line, "content-length", value)
         && (!OwnsBody(meth) || !IsNumeral(value) || Numeral(value) >= 18446744073709551616)
  }

  // ---- one line ---------------------------------------------------------------------------

  lemma {:induction false} LowerIs(s: string, low: string)
    ensures Lowered(s, low) <==> low == ToLower(s)
  {
  }

  lemma {:induction false} SpacesCons(n: nat)
    requires n > 0
    ensures Spaces(n) == " " + Spaces(n - 1) && Spaces(n) == Spaces(n - 1) + " "
  {
  }

  /** Trimming is determined by what it leaves. */
  lemma {:induction false} TrimOf(a: nat, value: string, b: nat)
    requires Trimmed(value)
    ensures TrimSpaces(Spaces(a) + value + Spaces(b)) == value
    decreases a
  {
    var s := Spaces(a) + value + Spaces(b);
    if a > 0 {
      SpacesCons(a);
      assert s[1..] == Spaces(a - 1) + value + Spaces(b);
      TrimOf(a - 1, value, b);
    } else if value == "" {
      assert s == Spaces(b);
      TrimOfSpaces(b);
    } else {
      assert s == value + Spaces(b) && s[0] == value[0];
      TrimBackOf(value, b);
    }
  }

  lemma {:induction false} TrimOfSpaces(n: nat)
    ensures TrimSpaces(Spaces(n)) == ""
  {
    if n > 0 {
      SpacesCons(n);
      assert Spaces(n)[1..] == Spaces(n - 1);
      TrimOfSpaces(n - 1);
    }
  }

  lemma {:induction false} TrimBackOf(value: string, b: nat)
    requires Trimmed(value)
    ensures TrimBack(value + Spaces(b)) == value
  {
    var s := value + Spaces(b);
    if b > 0 {
      SpacesCons(b);
      assert s[..|s| - 1] == value + Spaces(b - 1) && s[|s| - 1] == ' ';
      TrimBackOf(value, b - 1);
    } else {
      assert s == value;
    }
  }

  /** A line with a colon is one field, and only one. */
  lemma {:induction false} FieldIs(line: string, name: string, value: string)
    ensures IsField(line, name, value) <==> ':' in line && LineName(line) == name && LineText(line) == value
  {
    hide TrimSpaces;
    if ':' in line {
      var k := FindChar(line, ':');
      var pre, rest := line[..k], line[k + 1..];
      assert line == pre + ":" + rest && ':' !in pre;
      LowerIs(pre, LineName(line));
      var a, b := TrimSpacesCuts(rest);
      assert line == pre + ":" + (Spaces(a) + LineText(line) + Spaces(b));
    }
    if IsField(line, name, value) {
      OnlyField(line, name, value);
    }
  }

  lemma {:induction false} OnlyField(line: string, name: string, value: string)
    requires IsField(line, name, value)
    ensures ':' in line && LineName(line) == name && LineText(line) == value
  {
    hide TrimSpaces;
    var pre: string, a: nat, b: nat :|
      ':' !in pre && Lowered(pre, name) && line == pre + ":" + (Spaces(a) + value + Spaces(b));
    assert line[|pre|] == ':';
    FindCharIs(line, ':', |pre|);
    assert line[..|pre|] == pre && line[|pre| + 1..] == Spaces(a) + value + Spaces(b);
    LowerIs(pre, name);
    TrimOf(a, value, b);
  }

  /** Exactly the methods POST, PUT and PATCH own a body, and there are six classes. */
  lemma {:induction false} BodyMethods(meth: string)
    ensures MethodHasBody(meth) <==> OwnsBody(meth)
    ensures KindOf(meth) == ClassOf(meth)
  {
  }

  function ClassOf(meth: string): Option<Kind> {
    if meth == "GET" then Some(Get) else if meth == "HEAD" then Some(Head) else if meth == "POST" then Some(Post)
    else if meth == "PUT" then Some(Put) else if meth == "DELETE" then Some(Delete)
    else if meth == "PATCH" then Some(Patch) else None
  }

  /** The verdict on a field line, and which status it has. */
  lemma {:induction false} LineVerdict(meth: string, line: string)
    ensures LineStatus(meth, line) == PayloadTooLarge <==> TooLarge(meth, line)
    ensures LineStatus(meth, line) == BadRequest <==> Malformed(meth, line)
    ensures LineStatus(meth, line) in {StatusNone, BadRequest, PayloadTooLarge}
  {
    hide LineName, LineText, MethodHasBody, OwnsBody, IsField;
    BodyMethods(meth);
    forall value {
      FieldIs(line, CONTENT_LENGTH, value);
    }
    if ':' in line && LineName(line) == CONTENT_LENGTH {
      assert IsField(line, "content-length", LineText(line));
    }
  }

  // ---- a section --------------------------------------------------------------------------

  ghost predicate Clean(meth: string, line: string) { !TooLarge(meth, line) && !Malformed(meth, line) }

  ghost predicate HasLength(fields: seq<string>) {
    exists line <- fields, value :: IsField(line, "content-length", value)
  }

  /** Lines before the first offending one, or all of them. */
  ghost predicate GoodPart(meth: string, fields: seq<string>, n: nat) {
    && n <= |fields| && (forall i :: 0 <= i < n ==> Clean(meth, fields[i]))
    && (n < |fields| ==> !Clean(meth, fields[n]))
  }

  ghost predicate FieldsVerdict(meth: string, fields: seq<string>, n: nat, error: Status)
    requires n <= |fields|
  {
    if n < |fields| then error == if TooLarge(meth, fields[n]) then PayloadTooLarge else BadRequest
    else error == if OwnsBody(meth) && !HasLength(fields) then LengthRequired else StatusNone
  }

  /** For every name the last good line decides, and no other name is stored. */
  ghost predicate FieldsStored(fields: seq<string>, n: nat, headers: Headers)
    requires n <= |fields|
  {
    && (forall i, name, value :: 0 <= i < n && IsField(fields[i], name, value) && LastOf(fields, n, i, name) ==>
          Stored(headers, name, value))
    && (forall name <- headers :: NamedIn(fields, n, name))
  }

  ghost predicate Stored(headers: Headers, name: string, value: string) {
    name in headers && headers[name] == StoredAs(name, value)
  }

  ghost predicate NamedIn(fields: seq<string>, n: nat, name: string)
    requires n <= |fields|
  {
    exists i | 0 <= i < n :: Names(fields[i], name)
  }

  ghost predicate Names(line: string, name: string) { exists value :: IsField(line, name, value) }

  ghost predicate LastOf(fields: seq<string>, n: nat, i: nat, name: string)
    requires n <= |fields|
  {
    forall j :: i < j < n ==> !Names(fields[j], name)
  }

  ghost function StoredAs(name: string, value: string): HeaderValue {
    if name == "content-length" && Digits(value) then Size(Numeral(value)) else Str(value)
  }

  /** A request line: three parts, of which only the middle one may have spaces in it. */
  ghost predicate IsRequestLine(first: string, meth: string, target: string, version: string) {
    && first == meth + " " + target + " " + version && meth != "" && target != ""
    && ' ' !in meth && ' ' !in version && "HTTP/" <= version
  }

  lemma {:induction false} LineOfParts(first: string, meth: string, target: string, version: string)
    requires IsRequestLine(first, meth, target, version)
    ensures ParseLine(first) == Some(RequestLine(meth, target, version))
  {
    hide FindChar, RFindChar;
    var e := |meth| + 1 + |target|;
    assert first[|meth|] == ' ' && first[e] == ' ';
    assert first[..|meth|] == meth && first[|meth| + 1..e] == target && first[e + 1..] == version;
    assert forall i :: 0 <= i < |meth| ==> first[i] == meth[i];
    assert forall i :: e < i < |first| ==> first[i] == version[i - e - 1];
    FindCharIs(first, ' ', |meth|);
    RFindCharIs(first, ' ', e);
  }

  lemma {:induction false} PartsOfLine(first: string, meth: string, target: string, version: string)
    requires ParseLine(first) == Some(RequestLine(meth, target, version))
    ensures IsRequestLine(first, meth, target, version)
  {
    hide FindChar, RFindChar;
    var sp1, sp2 := FindChar(first, ' '), RFindChar(first, ' ');
    assert sp1 < sp2;
    assert first == first[..sp1] + " " + first[sp1 + 1..sp2] + " " + first[sp2 + 1..];
  }

  /** The section begins with a supported method and a space. */
  ghost predicate Begins(first: string) {
    exists meth :: ClassOf(meth).Some? && meth + " " <= first
  }

  /** The verdict on a whole header section of `size` bytes. */
  ghost predicate IsVerdictOn(first: string, fields: seq<string>, size: nat, r: Request) {
    r.body == "" &&
    if size > 2048 then r.error == HeaderFieldsTooLarge
    else if !Begins(first) then r.error == MethodNotAllowed
    else if forall meth, target, version :: !IsRequestLine(first, meth, target, version) then r.error == BadRequest
    else
      && IsRequestLine(first, r.meth, r.target, r.version) && ClassOf(r.meth) == Some(r.kind)
      && exists n :: GoodPart(r.meth, fields, n)
           && FieldsVerdict(r.meth, fields, n, r.error) && FieldsStored(fields, n, r.headers)
  }

  // ---- the parser reaches it --------------------------------------------------------------

  lemma {:induction false} ClassNames(meth: string)
    requires ClassOf(meth).Some?
    ensures meth != "" && ' ' !in meth && '\r' !in meth
  {
  }

  lemma {:induction false} BeginsIs(hdr: string, first: string, rest: string)
    requires hdr == first + CRLF + rest
    ensures Begins(first) <==> ClassOf(MethodToken(hdr)).Some?
  {
    hide FindChar, ClassOf;
    var token := MethodToken(hdr);
    if ClassOf(token).Some? {
      ClassNames(token);
      var sp := FindChar(hdr, ' ');
      assert hdr[|first|] == '\r' && forall i :: 0 <= i < sp ==> hdr[i] == token[i];
      assert sp < |first|;
      assert token + " " == hdr[..sp + 1] == first[..sp + 1];
    }
    if Begins(first) {
      var meth :| ClassOf(meth).Some? && meth + " " <= first;
      ClassNames(meth);
      assert forall i :: 0 <= i < |meth| ==> hdr[i] == first[i] == (meth + " ")[i] == meth[i];
      assert hdr[|meth|] == first[|meth|] == (meth + " ")[|meth|] == ' ';
      FindCharIs(hdr, ' ', |meth|);
      assert hdr[..|meth|] == meth;
    }
  }

  lemma {:induction false} CleanIs(meth: string, line: string)
    ensures Clean(meth, line) <==> LineStatus(meth, line) == StatusNone
  {
    hide LineStatus, TooLarge, Malformed;
    LineVerdict(meth, line);
  }

  lemma {:induction false} NamesIs(line: string, name: string)
    ensures Names(line, name) <==> ':' in line && LineName(line) == name
  {
    hide IsField, LineName, LineText;
    forall value {
      FieldIs(line, name, value);
    }
    if ':' in line && LineName(line) == name {
      FieldIs(line, name, LineText(line));
      assert IsField(line, name, LineText(line));
    }
  }

  lemma {:induction false} ValueIs(meth: string, line: string, name: string, value: string)
    requires LineStatus(meth, line) == StatusNone && IsField(line, name, value)
    ensures LineValue(meth, line) == StoredAs(name, value)
  {
    hide IsField, LineName, LineText;
    FieldIs(line, name, value);
  }

  lemma {:induction false} LastWinsIs(meth: string, lines: seq<string>, i: nat, name: string)
    requires Accepts(meth, lines) && i < |lines| && Names(lines[i], name) && LastOf(lines, |lines|, i, name)
    ensures LastWins(meth, lines, name) == Some(LineValue(meth, lines[i]))
    decreases |lines|
  {
    hide Names, LineName, LineText, LineValue, LastWins;
    var n := |lines| - 1;
    NamesIs(lines[n], name);
    assert LineStatus(meth, lines[n]) == StatusNone && lines == lines[..n] + [lines[n]];
    LastWinsSnoc(meth, lines[..n], lines[n], name);
    if i < n {
      assert !Names(lines[n], name);
      assert forall j :: i < j < n ==> lines[..n][j] == lines[j];
      LastWinsIs(meth, lines[..n], i, name);
    }
  }

  lemma {:induction false} WonBySome(meth: string, lines: seq<string>, name: string)
    requires Accepts(meth, lines) && LastWins(meth, lines, name).Some?
    ensures exists i | 0 <= i < |lines| :: Names(lines[i], name)
    decreases |lines|
  {
    hide Names, LineName, LineText, LineValue;
    var n := |lines| - 1;
    NamesIs(lines[n], name);
    assert LineStatus(meth, lines[n]) == StatusNone && lines == lines[..n] + [lines[n]];
    LastWinsSnoc(meth, lines[..n], lines[n], name);
    if !Names(lines[n], name) {
      WonBySome(meth, lines[..n], name);
      var i :| 0 <= i < n && Names(lines[..n][i], name);
      assert Names(lines[i], name);
    }
  }

  lemma {:induction false} StoredAt(meth: string, fields: seq<string>, n: nat, headers: Headers, i: nat, name: string,
                                    value: string)
    requires n <= |fields| && Accepts(meth, fields[..n]) && IsLastWins(meth, fields[..n], headers)
    requires i < n && IsField(fields[i], name, value) && LastOf(fields, n, i, name)
    ensures Stored(headers, name, value)
  {
    hide Names, IsField, LineValue, LineStatus, LastWins, StoredAs, Accepts, LastOf;
    LastInPart(fields, n, i, name, value);
    LastWinsIs(meth, fields[..n], i, name);
    AcceptedAt(meth, fields[..n], i);
    ValueIs(meth, fields[i], name, value);
    assert Lookup(headers, name) == LastWins(meth, fields[..n], name);
  }

  lemma {:induction false} StoredIs(meth: string, fields: seq<string>, n: nat, headers: Headers)
    requires n <= |fields| && Accepts(meth, fields[..n]) && IsLastWins(meth, fields[..n], headers)
    ensures FieldsStored(fields, n, headers)
  {
    hide Names, IsField, LineValue, LineStatus, LastWins, StoredAs, Accepts, LastOf, Stored, NamedIn;
    forall i, name, value | 0 <= i < n && IsField(fields[i], name, value) && LastOf(fields, n, i, name)
      ensures Stored(headers, name, value)
    {
      StoredAt(meth, fields, n, headers, i, name, value);
    }
    forall name <- headers ensures NamedIn(fields, n, name) {
      StoredIsNamed(meth, fields, n, headers, name);
    }
  }

  lemma {:induction false} StoredIsNamed(meth: string, fields: seq<string>, n: nat, headers: Headers, name: string)
    requires n <= |fields| && Accepts(meth, fields[..n]) && IsLastWins(meth, fields[..n], headers) && name in headers
    ensures NamedIn(fields, n, name)
  {
    hide Names, LineValue, LineStatus, LastWins, Accepts;
    assert Lookup(headers, name) == LastWins(meth, fields[..n], name);
    WonBySome(meth, fields[..n], name);
    var i :| 0 <= i < n && Names(fields[..n][i], name);
    assert Names(fields[i], name);
  }

  lemma {:induction false} AcceptedAt(meth: string, lines: seq<string>, i: nat)
    requires Accepts(meth, lines) && i < |lines|
    ensures LineStatus(meth, lines[i]) == StatusNone
  {
  }

  lemma {:induction false} LastInPart(fields: seq<string>, n: nat, i: nat, name: string, value: string)
    requires i < n <= |fields| && IsField(fields[i], name, value) && LastOf(fields, n, i, name)
    ensures Names(fields[..n][i], name) && LastOf(fields[..n], n, i, name)
  {
    hide IsField;
    assert forall j :: i < j < n ==> fields[..n][j] == fields[j];
  }

  lemma {:induction false} LengthIs(fields: seq<string>)
    ensures HasLength(fields) <==> HasField(fields, CONTENT_LENGTH)
  {
    hide IsField, LineName;
    forall line {
      NamesIs(line, CONTENT_LENGTH);
    }
    if HasField(fields, CONTENT_LENGTH) {
      var line :| line in fields && ':' in line && LineName(line) == CONTENT_LENGTH;
      assert Names(line, CONTENT_LENGTH);
    }
    if HasLength(fields) {
      var line, value :| line in fields && IsField(line, "content-length", value);
      assert Names(line, CONTENT_LENGTH);
    }
  }

  lemma {:induction false} GoodIs(meth: string, fields: seq<string>, n: nat)
    requires n <= |fields| && Accepts(meth, fields[..n])
    requires n < |fields| ==> LineStatus(meth, fields[n]) != StatusNone
    ensures GoodPart(meth, fields, n)
  {
    hide LineStatus, Clean;
    forall i | 0 <= i < n ensures Clean(meth, fields[i]) {
      assert LineStatus(meth, fields[..n][i]) == StatusNone;
      CleanIs(meth, fields[i]);
    }
    if n < |fields| {
      CleanIs(meth, fields[n]);
    }
  }

  lemma {:induction false} FieldsReach(meth: string, fields: seq<string>, error: Status, headers: Headers)
      returns (n: nat)
    requires IsVerdict(meth, fields, error) && KeepsAccepted(meth, fields, headers)
    requires Accepts(meth, fields) ==> IsLastWins(meth, fields, headers)
    ensures GoodPart(meth, fields, n) && FieldsVerdict(meth, fields, n, error) && FieldsStored(fields, n, headers)
  {
    hide LineStatus, IsLastWins, FieldsStored, GoodPart, MethodHasBody, OwnsBody, HasLength, HasField, TooLarge;
    hide Malformed;
    BodyMethods(meth);
    LengthIs(fields);
    if Accepts(meth, fields) {
      n := |fields|;
      assert fields[..n] == fields;
    } else {
      n :| 0 <= n < |fields| && Accepts(meth, fields[..n]) && error == LineStatus(meth, fields[n]) != StatusNone;
      LineVerdict(meth, fields[n]);
    }
    GoodIs(meth, fields, n);
    StoredIs(meth, fields, n, headers);
  }

  /** The parser's verdict on every framed header section is the one its text deserves: 431 by its size, 405
      by its first word, 400 by its request line; then 413 or 400 by the first offending line, 411 for a
      missing length; and the good lines are stored under their lowercased names. */
  lemma {:induction false} SectionVerdict(hdr: string) returns (lines: seq<string>)
    requires hdr != "" && HeaderEnd(hdr) == |hdr|
    ensures SectionLines(lines) && hdr == Section(lines)
    ensures IsVerdictOn(lines[0], lines[1..], |hdr|, ParseHead(hdr))
  {
    hide HeaderEnd, MethodToken, ParseHeader, ParseLine, IsVerdict, KeepsAccepted, Accepts, GoodPart, FieldsVerdict;
    hide FieldsStored, IsRequestLine, Begins, ClassOf, SectionLines, Section, IsLastWins;
    var r := NewRequest(MethodToken(hdr));
    lines := SectionOfFraming(hdr);
    FirstOfSection(lines);
    BeginsIs(hdr, lines[0], Section(lines[1..]));
    BodyMethods(MethodToken(hdr));
    if |hdr| <= 2048 && r.IsOk() {
      var parsed := ParserMeetsFraming(r, hdr);
      SameLines(lines, parsed);
      ParsedVerdict(hdr, lines, ParseHeader(r, hdr));
    }
  }

  lemma {:induction false} FirstOfSection(lines: seq<string>)
    requires SectionLines(lines)
    ensures |lines| >= 1 && Section(lines) == lines[0] + CRLF + Section(lines[1..])
  {
    assert lines == [lines[0]] + lines[1..];
    SectionCons(lines[0], lines[1..]);
  }

  lemma {:induction false} SameLines(a: seq<string>, b: seq<string>)
    requires SectionLines(a) && SectionLines(b) && Section(a) == Section(b)
    ensures a == b
  {
    assert CleanLines(a + [""]) && CleanLines(b + [""]);
    SplitOfUnlines(a + [""]);
    SplitOfUnlines(b + [""]);
    assert a == (a + [""])[..|a|] && b == (b + [""])[..|b|];
  }

  lemma {:induction false} ParsedVerdict(hdr: string, lines: seq<string>, q: Request)
    requires |lines| >= 1 && |hdr| <= 2048 && hdr == lines[0] + CRLF + Section(lines[1..])
    requires var r := NewRequest(MethodToken(hdr)); r.IsOk() && IsParse(r, lines, q)
    ensures IsVerdictOn(lines[0], lines[1..], |hdr|, q)
  {
    hide HeaderEnd, MethodToken, ParseLine, IsVerdict, KeepsAccepted, Accepts, GoodPart, FieldsVerdict;
    hide FieldsStored, IsRequestLine, Begins, ClassOf, Section, IsLastWins, KindOf;
    var first := lines[0];
    BeginsIs(hdr, first, Section(lines[1..]));
    BodyMethods(MethodToken(hdr));
    match ParseLine(first)
    case None =>
      forall meth, target, version ensures !IsRequestLine(first, meth, target, version) {
        if IsRequestLine(first, meth, target, version) {
          LineOfParts(first, meth, target, version);
        }
      }
    case Some(l) =>
      PartsOfLine(first, l.meth, l.target, l.version);
      assert hdr[..|first|] == first;
      TokenIsMethod(hdr, |first|);
      var n := FieldsReach(l.meth, lines[1..], q.error, q.headers);
  }
}
