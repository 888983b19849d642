/** Response headers: one field per line, closed by the DATA line. */
module Headers {
  import opened Wrappers
  import opened Text
  import opened Rounding
  import opened Numerals

  const DATA_LINE := "DATA"

  datatype Fields = Fields(status: int, size: int, bitrate: int, duration: Float,
                           representation: string, segmentId: int)

  /** The fields of a header-only reply. */
  function Bare(status: int): Fields { Fields(status, 0, 0, Finite(0.0), "", 0) }

  datatype Header = Header(status: int, size: int, bitrate: int, duration: Float,
                           entries: map<string, string>, dataFollows: bool)

  datatype HeaderError = MissingField | BadNumber | NegativeSize

  // ---------------------------------------------------------------- printing

  /** The header's entries in the order they are sent. */
  function Pairs(f: Fields): seq<(string, string)> {
    [("STATUS", IntText(f.status)), ("SIZE", IntText(f.size)), ("BITRATE", IntText(f.bitrate)),
     ("DURATION", FloatText(f.duration)), ("REPRESENTATION", f.representation), ("SEGMENT", IntText(f.segmentId))]
  }

  function Lines(pairs: seq<(string, string)>): seq<string> {
    if pairs == [] then [DATA_LINE] else [pairs[0].0 + " " + pairs[0].1] + Lines(pairs[1..])
  }

  function Joined(lines: seq<string>): string {
    if lines == [] then "" else lines[0] + CRLF + Joined(lines[1..])
  }

  function BuildResponseHeader(f: Fields): string { Joined(Lines(Pairs(f))) }

  /** The bytes of a header. */
  lemma HeaderText(f: Fields)
    ensures BuildResponseHeader(f)
            == "STATUS " + IntText(f.status) + "\r\n"
               + ("SIZE " + IntText(f.size) + "\r\n"
               + ("BITRATE " + IntText(f.bitrate) + "\r\n"
               + ("DURATION " + FloatText(f.duration) + "\r\n"
               + ("REPRESENTATION " + f.representation + "\r\n"
               + ("SEGMENT " + IntText(f.segmentId) + "\r\n" + "DATA\r\n")))))
  {
    hide IntText, FloatText;
    var p := Pairs(f);
    assert p[0..] == p;
    FieldText(p, 0, "STATUS ");
    FieldText(p, 1, "SIZE ");
    FieldText(p, 2, "BITRATE ");
    FieldText(p, 3, "DURATION ");
    FieldText(p, 4, "REPRESENTATION ");
    FieldText(p, 5, "SEGMENT ");
    assert p[6..] == [] && Joined(Lines([])) == "DATA" + CRLF + "" == "DATA\r\n";
  }

  lemma FieldText(pairs: seq<(string, string)>, k: nat, key: string)
    requires k < |pairs| && key == pairs[k].0 + " "
    ensures Joined(Lines(pairs[k..])) == key + pairs[k].1 + "\r\n" + Joined(Lines(pairs[k + 1..]))
  {
    assert pairs[k..][1..] == pairs[k + 1..];
    LinesUnfold(pairs[k..]);
  }

  lemma LinesUnfold(pairs: seq<(string, string)>)
    requires pairs != []
    ensures Joined(Lines(pairs)) == pairs[0].0 + " " + pairs[0].1 + CRLF + Joined(Lines(pairs[1..]))
  {
    var line := pairs[0].0 + " " + pairs[0].1;
    assert ([line] + Lines(pairs[1..]))[1..] == Lines(pairs[1..]);
  }

  // ---------------------------------------------------------------- reading

  /** Key and value of a stripped, non-empty line; a key alone has an empty value. */
  function KeyValue(line: string): (string, string) {
    var n := Span(line, c => !IsSpace(c));
    (line[..n], StripLeft(line[n..]))
  }

  function ParseLines(lines: seq<string>, entries: map<string, string>): (map<string, string>, bool)
    decreases |lines|
  {
    if lines == [] then (entries, false)
    else
      var line := Strip(lines[0]);
      if line == "" then ParseLines(lines[1..], entries)
      else if line == DATA_LINE then (entries, true)
      else ParseLines(lines[1..], entries[KeyValue(line).0 := KeyValue(line).1])
  }

  /** The number under a key; absent optional fields count as zero. */
  function IntEntry(entries: map<string, string>, key: string): Option<int> {
    if key in entries then ParseInt(entries[key]) else Some(0)
  }

  function FloatEntry(entries: map<string, string>, key: string): Option<Float> {
    if key in entries then ParseFloat(entries[key]) else Some(Finite(0.0))
  }

  function Interpret(entries: map<string, string>, dataFollows: bool): (r: Result<Header, HeaderError>)
    ensures r.Success? ==> 0 <= r.value.size
  {
    if "STATUS" !in entries || "SIZE" !in entries then Failure(MissingField)
    else
      var status, size := IntEntry(entries, "STATUS"), IntEntry(entries, "SIZE");
      var bitrate, duration := IntEntry(entries, "BITRATE"), FloatEntry(entries, "DURATION");
      if status.None? || size.None? || bitrate.None? || duration.None? then Failure(BadNumber)
      else if size.value < 0 then Failure(NegativeSize)
      else Success(Header(status.value, size.value, bitrate.value, duration.value, entries, dataFollows))
  }

  function ParseHeader(raw: string): Result<Header, HeaderError> {
    var (entries, dataFollows) := ParseLines(SplitLines(raw), map[]);
    Interpret(entries, dataFollows)
  }

  /** The header parser as the loop it is: one pass over the lines, filling a dictionary. */
  method ParseResponseHeader(raw: string) returns (r: Result<Header, HeaderError>)
    ensures r == ParseHeader(raw)
  {
    var lines := SplitLines(raw);
    var entries: map<string, string> := map[];
    var dataFollows := false;
    var i := 0;
    while i < |lines|
      invariant 0 <= i <= |lines| && !dataFollows
      invariant ParseLines(lines[i..], entries) == ParseLines(lines, map[])
    {
      var line := Strip(lines[i]);
      assert lines[i..][0] == lines[i] && lines[i..][1..] == lines[i + 1..];
      if line == DATA_LINE {
        dataFollows := true;
        break;
      }
      if line != "" {
        var (key, value) := KeyValue(line);
        entries := entries[key := value];
      }
      i := i + 1;
    }
    assert (entries, dataFollows) == ParseLines(lines, map[]);
    r := Interpret(entries, dataFollows);
  }

  // ---------------------------------------------------------------- round trip

  predicate Plain(line: string) { forall i :: 0 <= i < |line| ==> !IsBreak(line[i]) }

  lemma {:induction false} SplitJoined(lines: seq<string>)
    requires forall i :: 0 <= i < |lines| ==> Plain(lines[i])
    ensures SplitLines(Joined(lines)) == lines
  {
    if lines != [] {
      SplitJoined(lines[1..]);
      SplitLinesCons(lines[0], Joined(lines[1..]));
    }
  }

  lemma KeyValueOf(key: string, gap: string, value: string)
    requires key != "" && Word(key) && All(gap, IsSpace) && Trimmed(value)
    requires gap == "" ==> value == ""
    ensures KeyValue(key + (gap + value)) == (key, value)
  {
    SpanOf(key, gap + value, c => !IsSpace(c));
    assert (key + (gap + value))[..|key|] == key;
    assert (key + (gap + value))[|key|..] == gap + value;
    SpanOf(gap, value, IsSpace);
    assert (gap + value)[|gap|..] == value;
  }

  lemma KeyFirst(key: string, before: string, core: string, after: string)
    ensures key + " " + (before + (core + after)) == key + ((" " + before) + core) + after
  {
  }

  /** A printed field, whatever its value, is split back into its key and its value without outer spaces. */
  lemma FieldLine(key: string, value: string)
    requires key != "" && Word(key)
    ensures Strip(key + " " + value) != ""
    ensures KeyValue(Strip(key + " " + value)) == (key, Strip(value))
  {
    var before, after := StripParts(value);
    var core := Strip(value);
    if core == "" {
      FieldStripped(key, "", "", " " + before + after);
      assert key + " " + value == key + ("" + "") + (" " + before + after);
      KeyValueOf(key, "", "");
    } else {
      FieldStripped(key, " " + before, core, after);
      KeyFirst(key, before, core, after);
      KeyValueOf(key, " " + before, core);
    }
  }

  lemma FieldStripped(key: string, gap: string, core: string, after: string)
    requires key != "" && Word(key) && Trimmed(core) && (core == "" ==> gap == "")
    requires All(after, IsSpace)
    ensures Strip(key + (gap + core) + after) == key + (gap + core)
  {
    var kept := key + (gap + core);
    assert kept[|kept| - 1] == if core == "" then key[|key| - 1] else core[|core| - 1];
    StripRightPadded(kept, after);
    assert (kept + after)[0] == key[0];
    assert StripLeft(kept + after) == kept + after;
  }

  lemma DataKey()
    ensures KeyValue(DATA_LINE).0 == DATA_LINE
  {
    SpanOf(DATA_LINE, "", c => !IsSpace(c));
    assert DATA_LINE + "" == DATA_LINE;
  }

  lemma FieldIsNotData(key: string, value: string)
    requires key != "" && Word(key) && key != DATA_LINE
    ensures Strip(key + " " + value) != DATA_LINE
  {
    FieldLine(key, value);
    DataKey();
  }

  /** Reading one printed field stores its value and goes on with the next line. */
  lemma FieldStep(key: string, value: string, rest: seq<string>, entries: map<string, string>)
    requires key != "" && Word(key) && key != DATA_LINE
    ensures ParseLines([key + " " + value] + rest, entries) == ParseLines(rest, entries[key := Strip(value)])
  {
    FieldLine(key, value);
    FieldIsNotData(key, value);
    assert ([key + " " + value] + rest)[1..] == rest;
  }

  /** The dictionary the reader ends up with: later entries win, values lose outer spaces. */
  function Stored(pairs: seq<(string, string)>, entries: map<string, string>): map<string, string> {
    if pairs == [] then entries else Stored(pairs[1..], entries[pairs[0].0 := Strip(pairs[0].1)])
  }

  predicate Keyed(pairs: seq<(string, string)>) {
    && (forall i :: 0 <= i < |pairs| ==> pairs[i].0 != "" && Word(pairs[i].0) && pairs[i].0 != DATA_LINE)
    && (forall i, j :: 0 <= i < j < |pairs| ==> pairs[i].0 != pairs[j].0)
  }

  lemma {:induction false} LinesRead(pairs: seq<(string, string)>, entries: map<string, string>)
    requires Keyed(pairs)
    ensures ParseLines(Lines(pairs), entries) == (Stored(pairs, entries), true)
    decreases |pairs|
  {
    if pairs == [] {
      StripTrimmed(DATA_LINE);
    } else {
      var (key, value) := pairs[0];
      FieldStep(key, value, Lines(pairs[1..]), entries);
      LinesRead(pairs[1..], entries[key := Strip(value)]);
    }
  }

  lemma {:induction false} StoredKeeps(pairs: seq<(string, string)>, entries: map<string, string>, key: string)
    requires key in entries && forall i :: 0 <= i < |pairs| ==> pairs[i].0 != key
    ensures key in Stored(pairs, entries) && Stored(pairs, entries)[key] == entries[key]
    decreases |pairs|
  {
    if pairs != [] {
      StoredKeeps(pairs[1..], entries[pairs[0].0 := Strip(pairs[0].1)], key);
    }
  }

  lemma {:induction false} StoredHas(pairs: seq<(string, string)>, entries: map<string, string>, k: nat)
    requires Keyed(pairs) && k < |pairs|
    ensures pairs[k].0 in Stored(pairs, entries)
    ensures Stored(pairs, entries)[pairs[k].0] == Strip(pairs[k].1)
    decreases |pairs|
  {
    var next := entries[pairs[0].0 := Strip(pairs[0].1)];
    if k == 0 {
      StoredKeeps(pairs[1..], next, pairs[0].0);
    } else {
      StoredHas(pairs[1..], next, k - 1);
    }
  }

  function Entries(f: Fields): map<string, string> { Stored(Pairs(f), map[]) }

  lemma StripNumber(n: int)
    ensures Strip(IntText(n)) == IntText(n) && Plain(IntText(n)) && Word(IntText(n))
  {
    IntRoundTrip(n);
    StripTrimmed(IntText(n));
  }

  /** The six keys differ in length, but for two that differ in their first letter. */
  lemma KeysDiffer(f: Fields, i: nat, j: nat)
    requires i < j < 6
    ensures Pairs(f)[i].0 != Pairs(f)[j].0
  {
    hide IntText, FloatText;
    var p := Pairs(f);
    assert |p[0].0| == 6 && |p[1].0| == 4 && |p[2].0| == 7 && |p[3].0| == 8 && |p[4].0| == 14 && |p[5].0| == 7;
    assert p[2].0[0] == 'B' && p[5].0[0] == 'S';
  }

  lemma KeyIsWord(f: Fields, i: nat)
    requires i < 6
    ensures Pairs(f)[i].0 != "" && Word(Pairs(f)[i].0) && Pairs(f)[i].0 != DATA_LINE
  {
    hide IntText, FloatText;
    var p := Pairs(f);
    assert |p[1].0| == 4 && p[1].0[0] == 'S';
  }

  lemma PairsKeyed(f: Fields)
    ensures Keyed(Pairs(f))
  {
    forall i | 0 <= i < 6 ensures Pairs(f)[i].0 != "" && Word(Pairs(f)[i].0) && Pairs(f)[i].0 != DATA_LINE {
      KeyIsWord(f, i);
    }
    forall i, j | 0 <= i < j < 6 ensures Pairs(f)[i].0 != Pairs(f)[j].0 {
      KeysDiffer(f, i, j);
    }
    assert |Pairs(f)| == 6;
    hide Pairs, Word;
  }

  /** What the other side reads from a printed header. */
  function Received(f: Fields): Header {
    Header(f.status, f.size, f.bitrate, RoundedFloat(f.duration), Entries(f), true)
  }

  lemma EntryValues(f: Fields)
    ensures var e := Entries(f);
            && "STATUS" in e && e["STATUS"] == IntText(f.status)
            && "SIZE" in e && e["SIZE"] == IntText(f.size)
            && "BITRATE" in e && e["BITRATE"] == IntText(f.bitrate)
            && "DURATION" in e && e["DURATION"] == FloatText(f.duration)
            && "REPRESENTATION" in e && e["REPRESENTATION"] == Strip(f.representation)
            && "SEGMENT" in e && e["SEGMENT"] == IntText(f.segmentId)
  {
    hide IntText, FloatText, Strip, Stored, Keyed;
    PairsKeyed(f);
    forall k | 0 <= k < 6 ensures Pairs(f)[k].0 in Entries(f) && Entries(f)[Pairs(f)[k].0] == Strip(Pairs(f)[k].1) {
      StoredHas(Pairs(f), map[], k);
    }
    assert Pairs(f)[0].0 == "STATUS" && Pairs(f)[1].0 == "SIZE" && Pairs(f)[2].0 == "BITRATE";
    assert Pairs(f)[3].0 == "DURATION" && Pairs(f)[4].0 == "REPRESENTATION" && Pairs(f)[5].0 == "SEGMENT";
    StripNumber(f.status);
    StripNumber(f.size);
    StripNumber(f.bitrate);
    StripNumber(f.segmentId);
    FloatIsWord(f.duration);
    StripTrimmed(FloatText(f.duration));
  }

  lemma EntriesMeanFields(f: Fields)
    ensures Interpret(Entries(f), true) == if f.size < 0 then Failure(NegativeSize) else Success(Received(f))
  {
    EntryValues(f);
    IntRoundTrip(f.status);
    IntRoundTrip(f.size);
    IntRoundTrip(f.bitrate);
    FloatReads(f.duration);
  }

  lemma {:induction false} LinesPlain(pairs: seq<(string, string)>)
    requires forall i :: 0 <= i < |pairs| ==> Plain(pairs[i].0) && Plain(pairs[i].1)
    ensures forall i :: 0 <= i < |Lines(pairs)| ==> Plain(Lines(pairs)[i])
    decreases |pairs|
  {
    if pairs != [] {
      LinesPlain(pairs[1..]);
    }
  }

  lemma WordIsPlain(s: string)
    requires Word(s)
    ensures Plain(s)
  {
  }

  /** Only the representation can contain a line break. */
  lemma PairsPlain(f: Fields)
    ensures forall i :: 0 <= i < 6 ==> Plain(Pairs(f)[i].0) && (i == 4 || Plain(Pairs(f)[i].1))
  {
    PairsKeyed(f);
    StripNumber(f.status);
    StripNumber(f.size);
    StripNumber(f.bitrate);
    StripNumber(f.segmentId);
    FloatIsWord(f.duration);
    WordIsPlain(FloatText(f.duration));
    forall i | 0 <= i < 6 ensures Plain(Pairs(f)[i].0) {
      WordIsPlain(Pairs(f)[i].0);
    }
  }

  /**
   A printed header reads back with all its numbers, including the header-only replies whose
   representation is empty; the one it refuses is a negative size.
   */
  lemma HeaderRoundTrip(f: Fields)
    requires Plain(f.representation)
    ensures ParseHeader(BuildResponseHeader(f)) == if f.size < 0 then Failure(NegativeSize) else Success(Received(f))
  {
    PairsPlain(f);
    LinesPlain(Pairs(f));
    SplitJoined(Lines(Pairs(f)));
    PairsKeyed(f);
    LinesRead(Pairs(f), map[]);
    EntriesMeanFields(f);
  }

  /** A duration that six significant digits can write, or a special one. */
  ghost predicate Writable(x: Float) { x.Finite? ==> SixDigits(x.value) }
}
