/** Line breaks inside a representation: which ones a printed header survives, and why the others change it. */
module HeaderBreaks {
  import opened Wrappers
  import opened Text
  import Protocol
  import Rounding
  import opened Numerals
  import opened Headers

  function ParseText(s: string, entries: map<string, string>): (map<string, string>, bool) {
    ParseLines(SplitLines(s), entries)
  }

  // ---------------------------------------------------------------- splitting around a line end

  /** The first break of x is the first break of x with more behind it, unless that begins with a line feed. */
  lemma BreakInside(x: string, more: string)
    requires FirstBreak(x) < |x| && more != "" && more[0] != '\n'
    ensures SplitLines(x + more)
         == [x[..FirstBreak(x)]] + SplitLines(x[FirstBreak(x) + BreakWidth(x, FirstBreak(x))..] + more)
  {
    var s, end := x + more, FirstBreak(x);
    assert BreakWidth(s, end) == BreakWidth(x, end);
    assert s[..end] == x[..end];
    CutInside(x, more, end + BreakWidth(x, end));
    hide SplitLines, FirstBreak, BreakWidth;
    SplitFirst(s, end);
  }

  lemma CutInside(x: string, more: string, i: nat)
    requires i <= |x|
    ensures (x + more)[i..] == x[i..] + more
  {
  }

  lemma WholeLine(x: string)
    requires FirstBreak(x) == |x|
    ensures SplitLines(x + CRLF) == [x]
  {
    SplitLinesCons(x, "");
    assert x + CRLF + "" == x + CRLF;
    assert [x] + [] == [x];
  }

  lemma JoinRight(x: string, rest: string)
    ensures x + CRLF + rest == x + (CRLF + rest)
  {
  }

  lemma JoinLines(first: seq<string>, a: seq<string>, b: seq<string>)
    ensures first + (a + b) == (first + a) + b
  {
  }

  /** A line end ends a line, whatever comes before it. */
  lemma {:induction false} SplitAtEnd(x: string, rest: string)
    ensures SplitLines(x + CRLF + rest) == SplitLines(x + CRLF) + SplitLines(rest)
    decreases |x|
  {
    hide SplitLines, FirstBreak, BreakWidth;
    var end := FirstBreak(x);
    if end == |x| {
      SplitLinesCons(x, rest);
      WholeLine(x);
    } else {
      var tail := x[end + BreakWidth(x, end)..];
      BreakInside(x, CRLF + rest);
      BreakInside(x, CRLF);
      JoinRight(x, rest);
      JoinRight(tail, rest);
      SplitAtEnd(tail, rest);
      JoinLines([x[..end]], SplitLines(tail + CRLF), SplitLines(rest));
    }
  }

  lemma {:induction false} SplitSpaces(s: string)
    requires All(s, IsSpace)
    ensures forall i :: 0 <= i < |SplitLines(s)| ==> All(SplitLines(s)[i], IsSpace)
    decreases |s|
  {
    if s != [] && FirstBreak(s) < |s| {
      SplitSpaces(s[FirstBreak(s) + BreakWidth(s, FirstBreak(s))..]);
    }
  }

  // ---------------------------------------------------------------- reading around blank lines

  lemma StripSpaces(s: string)
    requires All(s, IsSpace)
    ensures Strip(s) == ""
  {
    var before, after := StripParts(s);
    assert s == before + (Strip(s) + after);
  }

  lemma {:induction false} BlanksSkipped(blanks: seq<string>, rest: seq<string>, entries: map<string, string>)
    requires forall i :: 0 <= i < |blanks| ==> All(blanks[i], IsSpace)
    ensures ParseLines(blanks + rest, entries) == ParseLines(rest, entries)
    decreases |blanks|
  {
    if blanks == [] {
      assert blanks + rest == rest;
    } else {
      StripSpaces(blanks[0]);
      assert (blanks + rest)[1..] == blanks[1..] + rest;
      BlanksSkipped(blanks[1..], rest, entries);
    }
  }

  /** Whitespace at the end does not matter. */
  lemma StripDropsTail(x: string, spaces: string)
    requires All(spaces, IsSpace)
    ensures Strip(x + spaces) == Strip(x)
  {
    var before, after := StripParts(x);
    var core := Strip(x);
    if core == "" {
      assert All(x, IsSpace);
      StripSpaces(x + spaces);
    } else {
      Protocol.StripPadded(before, core, after + spaces);
      assert before + core + (after + spaces) == x + spaces;
    }
  }

  // ---------------------------------------------------------------- visible characters

  /** How many characters are not whitespace. */
  function Ink(s: string): nat {
    if s == "" then 0 else (if IsSpace(s[0]) then 0 else 1) + Ink(s[1..])
  }

  lemma {:induction false} InkAppend(a: string, b: string)
    ensures Ink(a + b) == Ink(a) + Ink(b)
    decreases |a|
  {
    if a == "" {
      assert a + b == b;
    } else {
      assert (a + b)[1..] == a[1..] + b;
      InkAppend(a[1..], b);
    }
  }

  lemma {:induction false} NoInk(s: string)
    requires All(s, IsSpace)
    ensures Ink(s) == 0
  {
    if s != "" {
      NoInk(s[1..]);
    }
  }

  lemma InkOfStrip(s: string)
    ensures Ink(Strip(s)) == Ink(s)
  {
    var before, after := StripParts(s);
    InkAppend(before, Strip(s) + after);
    InkAppend(Strip(s), after);
    NoInk(before);
    NoInk(after);
  }

  lemma InkCut(s: string, i: nat)
    requires i <= |s|
    ensures Ink(s) == Ink(s[..i]) + Ink(s[i..])
  {
    InkAppend(s[..i], s[i..]);
    assert s[..i] + s[i..] == s;
  }

  /** No line has more ink than the text it is cut from. */
  lemma {:induction false} LineInk(s: string, k: nat)
    requires k < |SplitLines(s)|
    ensures Ink(SplitLines(s)[k]) <= Ink(s)
    decreases |s|
  {
    hide Ink, FirstBreak, BreakWidth;
    var end := FirstBreak(s);
    InkCut(s, end);
    if end < |s| && 0 < k {
      var next := end + BreakWidth(s, end);
      InkCut(s, next);
      LineInk(s[next..], k - 1);
    }
  }

  /** A value has less ink than its line: the key has some. */
  lemma ValueInk(line: string)
    requires line != "" && !IsSpace(line[0])
    ensures Ink(KeyValue(line).1) < Ink(line)
  {
    var n := Span(line, c => !IsSpace(c));
    InkCut(line, n);
    var gap := Span(line[n..], IsSpace);
    InkCut(line[n..], gap);
    assert 1 <= Ink(line[..n]) by {
      assert line[..n][0] == line[0];
    }
  }

  // ---------------------------------------------------------------- what the extra lines can do

  const REPRESENTATION := "REPRESENTATION"

  /** Reading the line cannot give the representation a value with as much ink as this. */
  predicate Harmless(line: string, ink: nat) {
    || Strip(line) == "" || Strip(line) == DATA_LINE || KeyValue(Strip(line)).0 != REPRESENTATION
    || Ink(KeyValue(Strip(line)).1) < ink
  }

  lemma {:induction false} StaysFaint(lines: seq<string>, entries: map<string, string>, ink: nat)
    requires REPRESENTATION in entries && Ink(entries[REPRESENTATION]) < ink
    requires forall i :: 0 <= i < |lines| ==> Harmless(lines[i], ink)
    ensures var e := ParseLines(lines, entries).0; REPRESENTATION in e && Ink(e[REPRESENTATION]) < ink
    decreases |lines|
  {
    hide Strip, KeyValue, Ink;
    if lines != [] && Strip(lines[0]) != DATA_LINE {
      var line := Strip(lines[0]);
      assert Harmless(lines[0], ink);
      StaysFaint(lines[1..], if line == "" then entries else entries[KeyValue(line).0 := KeyValue(line).1], ink);
    }
  }

  lemma CutLineHarmless(s: string, k: nat, ink: nat)
    requires k < |SplitLines(s)| && Ink(s) <= ink
    ensures Harmless(SplitLines(s)[k], ink)
  {
    var line := SplitLines(s)[k];
    LineInk(s, k);
    InkOfStrip(line);
    StripEnds(line);
    if Strip(line) != "" {
      ValueInk(Strip(line));
    }
  }

  lemma StripEnds(s: string)
    ensures Trimmed(Strip(s))
  {
    var before, after := StripParts(s);
  }

  // ---------------------------------------------------------------- the header

  lemma {:induction false} PlainFieldsRead(pairs: seq<(string, string)>, k: nat, entries: map<string, string>)
    requires Keyed(pairs) && k <= |pairs|
    requires forall i :: 0 <= i < k ==> Plain(pairs[i].0) && Plain(pairs[i].1)
    ensures ParseText(Joined(Lines(pairs)), entries)
         == ParseText(Joined(Lines(pairs[k..])), Stored(pairs[..k], entries))
    decreases k
  {
    hide SplitLines, ParseLines, Strip;
    if k == 0 {
      assert pairs[0..] == pairs && pairs[..0] == [];
    } else {
      var (key, value) := pairs[0];
      var rest := Joined(Lines(pairs[1..]));
      SplitLinesCons(key + " " + value, rest);
      FieldStep(key, value, SplitLines(rest), entries);
      PlainFieldsRead(pairs[1..], k - 1, entries[key := Strip(value)]);
      assert pairs[1..][k - 1..] == pairs[k..] && pairs[..k][1..] == pairs[1..][..k - 1];
    }
  }

  /** The entries once the fields before the representation are read. */
  function EarlyEntries(f: Fields): map<string, string> { Stored(Pairs(f)[..4], map[]) }

  function SegmentText(f: Fields): string { Joined(Lines([("SEGMENT", IntText(f.segmentId))])) }

  function RepresentationText(f: Fields): string { "REPRESENTATION" + " " + f.representation + CRLF }

  lemma HeaderFromRepresentation(f: Fields)
    ensures ParseText(BuildResponseHeader(f), map[])
         == ParseLines(SplitLines(RepresentationText(f)) + SplitLines(SegmentText(f)), EarlyEntries(f))
  {
    hide IntText, FloatText, SplitLines, ParseLines, Stored;
    PairsKeyed(f);
    PairsPlain(f);
    PlainFieldsRead(Pairs(f), 4, map[]);
    var later := Pairs(f)[4..];
    assert later == [("REPRESENTATION", f.representation), ("SEGMENT", IntText(f.segmentId))];
    assert later[1..] == [("SEGMENT", IntText(f.segmentId))];
    assert Lines(later) == ["REPRESENTATION" + " " + f.representation] + Lines(later[1..]);
    assert Joined(Lines(later)) == RepresentationText(f) + SegmentText(f);
    SplitAtEnd("REPRESENTATION" + " " + f.representation, SegmentText(f));
  }

  /** The first line of the representation's field, and the lines its line breaks add. */
  lemma FirstLine(f: Fields)
    ensures var b := FirstBreak(f.representation);
            var first := "REPRESENTATION" + " " + f.representation[..b];
            SplitLines(RepresentationText(f))
            == if b == |f.representation| then [first]
               else [first] + SplitLines(f.representation[b + BreakWidth(f.representation, b)..] + CRLF)
  {
    hide SplitLines, FirstBreak, BreakWidth;
    var name := "REPRESENTATION" + " ";
    assert Plain(name);
    Prefixed(name, f.representation);
  }

  lemma Prefixed(name: string, r: string)
    requires Plain(name)
    ensures SplitLines(name + r + CRLF)
         == if FirstBreak(r) == |r| then [name + r[..FirstBreak(r)]]
            else [name + r[..FirstBreak(r)]] + SplitLines(r[FirstBreak(r) + BreakWidth(r, FirstBreak(r))..] + CRLF)
  {
    hide SplitLines, FirstBreak;
    var x, b := name + r, FirstBreak(r);
    assert forall i :: 0 <= i < |r| ==> x[|name| + i] == r[i];
    if b == |r| {
      assert r[..b] == r;
      WholeLine(x);
    } else {
      var end := |name| + b;
      assert FirstBreak(x) == end && BreakWidth(x, end) == BreakWidth(r, b);
      hide BreakWidth;
      assert x[..end] == name + r[..b];
      assert x[end + BreakWidth(r, b)..] == r[b + BreakWidth(r, b)..];
      BreakInside(x, CRLF);
    }
  }

  lemma AfterFirst(f: Fields, more: seq<string>, entries: map<string, string>)
    ensures var b := FirstBreak(f.representation);
            ParseLines(["REPRESENTATION" + " " + f.representation[..b]] + more, entries)
            == ParseLines(more, entries[REPRESENTATION := Strip(f.representation[..b])])
  {
    var b := FirstBreak(f.representation);
    FieldStep("REPRESENTATION", f.representation[..b], more, entries);
  }

  lemma SegmentLines(f: Fields)
    ensures SplitLines(SegmentText(f)) == Lines([("SEGMENT", IntText(f.segmentId))])
    ensures SplitLines(SegmentText(f)) == ["SEGMENT" + " " + IntText(f.segmentId), DATA_LINE]
  {
    var lines := Lines([("SEGMENT", IntText(f.segmentId))]);
    StripNumber(f.segmentId);
    var one := [("SEGMENT", IntText(f.segmentId))];
    assert one[1..] == [] && Lines(one[1..]) == [DATA_LINE];
    assert lines == ["SEGMENT" + " " + IntText(f.segmentId)] + [DATA_LINE];
    assert Plain(DATA_LINE) && Plain("SEGMENT" + " ");
    SplitJoined(lines);
  }

  lemma FinalEntries(f: Fields)
    ensures ParseLines(SplitLines(SegmentText(f)), EarlyEntries(f)[REPRESENTATION := Strip(f.representation)])
         == (Entries(f), true)
  {
    hide SplitLines, ParseLines, IntText, FloatText, Strip, Stored, Keyed;
    var last := [("SEGMENT", IntText(f.segmentId))];
    var e := EarlyEntries(f)[REPRESENTATION := Strip(f.representation)];
    SegmentLines(f);
    PairsKeyed(f);
    KeyedLast(f);
    LinesRead(last, e);
    StoredSplit(Pairs(f), 4, map[]);
    assert Pairs(f)[4..] == [("REPRESENTATION", f.representation)] + last;
    StoredTwo("REPRESENTATION", f.representation, last, EarlyEntries(f));
  }

  lemma KeyedLast(f: Fields)
    ensures Keyed([("SEGMENT", IntText(f.segmentId))])
  {
    hide IntText;
    PairsKeyed(f);
    assert Pairs(f)[5] == ("SEGMENT", IntText(f.segmentId));
  }

  lemma StoredTwo(key: string, value: string, rest: seq<(string, string)>, entries: map<string, string>)
    ensures Stored([(key, value)] + rest, entries) == Stored(rest, entries[key := Strip(value)])
  {
    hide Strip;
    assert ([(key, value)] + rest)[1..] == rest;
  }

  lemma {:induction false} StoredSplit(pairs: seq<(string, string)>, k: nat, entries: map<string, string>)
    requires k <= |pairs|
    ensures Stored(pairs, entries) == Stored(pairs[k..], Stored(pairs[..k], entries))
    decreases k
  {
    if k == 0 {
      assert pairs[0..] == pairs && pairs[..0] == [];
    } else {
      StoredSplit(pairs[1..], k - 1, entries[pairs[0].0 := Strip(pairs[0].1)]);
      assert pairs[1..][k - 1..] == pairs[k..] && pairs[..k][1..] == pairs[1..][..k - 1];
    }
  }

  /** Without a line break before its last visible character a representation adds blank lines at most. */
  lemma HarmlessBreaks(f: Fields)
    requires Plain(StripRight(f.representation))
    ensures ParseText(BuildResponseHeader(f), map[]) == (Entries(f), true)
  {
    hide SplitLines, ParseLines, Strip, Stored, Entries, EarlyEntries, IntText;
    var r := f.representation;
    var b := FirstBreak(r);
    var tail := SplitLines(SegmentText(f));
    HeaderFromRepresentation(f);
    FirstLine(f);
    FinalEntries(f);
    BreakAfterInk(r);
    StripDropsTail(r[..b], r[b..]);
    assert r[..b] + r[b..] == r;
    hide FirstBreak, BreakWidth, Plain, StripRight, SegmentText, RepresentationText, ParseText;
    if b == |r| {
      AfterFirst(f, tail, EarlyEntries(f));
    } else {
      var spaces := r[b + BreakWidth(r, b)..] + CRLF;
      var first := ["REPRESENTATION" + " " + r[..b]];
      SpacesBehind(r, b, b + BreakWidth(r, b));
      SplitSpaces(spaces);
      JoinLines(first, SplitLines(spaces), tail);
      AfterFirst(f, SplitLines(spaces) + tail, EarlyEntries(f));
      BlanksSkipped(SplitLines(spaces), tail, EarlyEntries(f)[REPRESENTATION := Strip(r[..b])]);
    }
  }

  lemma SpacesBehind(r: string, b: nat, next: nat)
    requires b <= next <= |r| && All(r[b..], IsSpace)
    ensures All(r[next..] + CRLF, IsSpace)
  {
    assert forall i :: 0 <= i < |r| - next ==> r[next..][i] == r[b..][next - b + i];
  }

  /** The first line break comes after the last visible character, or it does not. */
  lemma BreakAfterInk(r: string)
    ensures var b := FirstBreak(r);
            if Plain(StripRight(r)) then All(r[b..], IsSpace)
            else b < |r| && 0 < Ink(r[b + BreakWidth(r, b)..])
  {
    hide FirstBreak, StripRight, Ink, IsSpace, IsBreak, BreakWidth;
    var b, kept := FirstBreak(r), StripRight(r);
    StripRightResult(r);
    assert forall i :: 0 <= i < |kept| ==> kept[i] == r[i];
    if Plain(kept) {
      assert |kept| <= b;
    } else {
      var i :| 0 <= i < |kept| && IsBreak(kept[i]);
      assert b <= i;
      SomeInk(r, b, |kept| - 1);
    }
  }

  lemma SomeInk(r: string, b: nat, last: nat)
    requires b <= last < |r| && IsBreak(r[b]) && !IsSpace(r[last])
    ensures 0 < Ink(r[b + BreakWidth(r, b)..])
  {
    var next := b + BreakWidth(r, b);
    assert next <= last;
    InkCut(r[next..], last - next);
    assert r[next..][last - next..][0] == r[last];
  }

  /** A line break before visible characters leaves the representation with less of them. */
  lemma HarmfulBreaks(f: Fields)
    requires !Plain(StripRight(f.representation))
    ensures ParseText(BuildResponseHeader(f), map[]).0 != Entries(f)
  {
    hide SplitLines, ParseLines, Strip, Stored, Entries, EarlyEntries, IntText, Ink, KeyValue, Harmless;
    var r := f.representation;
    var b := FirstBreak(r);
    BreakAfterInk(r);
    hide FirstBreak, BreakWidth, Plain, StripRight, SegmentText, RepresentationText, ParseText;
    var next := b + BreakWidth(r, b);
    var more, tail := SplitLines(r[next..] + CRLF), SplitLines(SegmentText(f));
    var first := ["REPRESENTATION" + " " + r[..b]];
    HeaderFromRepresentation(f);
    FirstLine(f);
    JoinLines(first, more, tail);
    AfterFirst(f, more + tail, EarlyEntries(f));
    InkParts(r, b, next);
    InkOfStrip(r[..b]);
    forall k | 0 <= k < |more + tail| ensures Harmless((more + tail)[k], Ink(r)) {
      if k < |more| {
        CutLineHarmless(r[next..] + CRLF, k, Ink(r));
      } else {
        SegmentLineHarmless(f, k - |more|, Ink(r));
      }
    }
    StaysFaint(more + tail, EarlyEntries(f)[REPRESENTATION := Strip(r[..b])], Ink(r));
    InkOfStrip(r);
    MeantValue(f);
  }

  lemma MeantValue(f: Fields)
    ensures REPRESENTATION in Entries(f) && Entries(f)[REPRESENTATION] == Strip(f.representation)
  {
    hide Entries, Strip;
    EntryValues(f);
  }

  lemma InkParts(r: string, b: nat, next: nat)
    requires b <= next <= |r| && 0 < Ink(r[next..])
    ensures Ink(r[..b]) < Ink(r) && Ink(r[next..] + CRLF) <= Ink(r)
  {
    InkCut(r, next);
    InkCut(r[..next], b);
    assert r[..next][..b] == r[..b];
    InkAppend(r[next..], CRLF);
    NoInk(CRLF);
  }

  lemma SegmentLineHarmless(f: Fields, k: nat, ink: nat)
    requires k < |SplitLines(SegmentText(f))|
    ensures Harmless(SplitLines(SegmentText(f))[k], ink)
  {
    SegmentLines(f);
    if k == 0 {
      FieldLine("SEGMENT", IntText(f.segmentId));
    } else {
      StripTrimmed(DATA_LINE);
    }
  }

  /** A printed header is read entire exactly when no line break stands before the last visible character. */
  lemma HeaderSurvivesExactly(f: Fields)
    requires 0 <= f.size
    ensures ParseHeader(BuildResponseHeader(f)) == Success(Received(f)) <==> Plain(StripRight(f.representation))
  {
    hide ParseLines, SplitLines, BuildResponseHeader, Entries, Plain, StripRight;
    if Plain(StripRight(f.representation)) {
      HarmlessBreaks(f);
      EntriesMeanFields(f);
    } else {
      HarmfulBreaks(f);
    }
  }

  /** The header meant to be read: the fields as they are, the duration unrounded. */
  function Meant(f: Fields): Header { Received(f).(duration := f.duration) }

  /** All fields come back as they were printed exactly when the duration is short enough too. */
  lemma HeaderExactly(f: Fields)
    requires 0 <= f.size
    ensures ParseHeader(BuildResponseHeader(f)) == Success(Meant(f))
            <==> Plain(StripRight(f.representation)) && Writable(f.duration)
  {
    hide ParseLines, SplitLines, BuildResponseHeader, Entries, Plain, StripRight, Rounding.SixDigits, Rounding.Rounded;
    if Plain(StripRight(f.representation)) {
      HeaderSurvivesExactly(f);
      if f.duration.Finite? {
        Rounding.RoundedExactly(f.duration.value);
      }
    } else {
      HarmfulBreaks(f);
    }
  }

  /** The one header that is refused has a negative size. */
  lemma NegativeSizeRefused(f: Fields)
    requires Plain(StripRight(f.representation)) && f.size < 0
    ensures ParseHeader(BuildResponseHeader(f)) == Failure(NegativeSize)
  {
    hide ParseLines, SplitLines, BuildResponseHeader, Entries, Plain, StripRight;
    HarmlessBreaks(f);
    EntriesMeanFields(f);
  }
}
