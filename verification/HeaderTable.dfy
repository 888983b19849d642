/** What any header text means, printed or not: which line a field's value comes from, and what is refused. */
module HeaderTable {
  import opened Wrappers
  import opened Text
  import opened Numerals
  import opened Headers

  /** The line, stripped, is a key and a value with space between them, or a key alone. */
  ghost predicate Sets(line: string, key: string, value: string) {
    exists gap: string :: Spaced(Strip(line), key, gap, value)
  }

  predicate Spaced(text: string, key: string, gap: string, value: string) {
    && text == key + (gap + value)
    && key != "" && Word(key) && All(gap, IsSpace)
    && (value == "" <==> gap == "") && (value != "" ==> !IsSpace(value[0]))
  }

  /** The lines that count: those before the first that says DATA. */
  ghost predicate Before(lines: seq<string>, end: nat) {
    && end <= |lines|
    && (forall i :: 0 <= i < end ==> Strip(lines[i]) != "DATA")
    && (end < |lines| ==> Strip(lines[end]) == "DATA")
  }

  /** The last line that counts and has the key gives it this value. */
  ghost predicate Holds(lines: seq<string>, end: nat, key: string, value: string)
    requires end <= |lines|
  {
    exists i :: 0 <= i < end && Sets(lines[i], key, value) && Unset(lines, i + 1, end, key)
  }

  /** No line of this range has the key. */
  ghost predicate Unset(lines: seq<string>, from: nat, end: nat, key: string)
    requires end <= |lines|
  {
    forall j, value :: from <= j < end ==> !Sets(lines[j], key, value)
  }

  lemma SpacedIsKeyValue(text: string, key: string, gap: string, value: string)
    requires Spaced(text, key, gap, value)
    ensures KeyValue(text) == (key, value)
  {
    SpanOf(key, gap + value, c => !IsSpace(c));
    assert text[..|key|] == key && text[|key|..] == gap + value;
    SpanOf(gap, value, IsSpace);
    assert (gap + value)[|gap|..] == value;
  }

  lemma KeyValueIsSpaced(text: string) returns (gap: string)
    requires text != "" && Trimmed(text)
    ensures Spaced(text, KeyValue(text).0, gap, KeyValue(text).1)
  {
    var n := Span(text, c => !IsSpace(c));
    var tail := text[n..];
    var m := Span(tail, IsSpace);
    gap := tail[..m];
    assert tail == gap + tail[m..] && text == text[..n] + tail;
  }

  /** A line that is not blank sets one key to one value: the ones the reader takes off it. */
  lemma SetsExactly(line: string, key: string, value: string)
    ensures Sets(line, key, value) <==> Strip(line) != "" && KeyValue(Strip(line)) == (key, value)
  {
    var before, after := StripParts(line);
    hide Strip, KeyValue, StripLeft;
    if gap: string :| Spaced(Strip(line), key, gap, value) {
      SpacedIsKeyValue(Strip(line), key, gap, value);
    }
    if Strip(line) != "" && KeyValue(Strip(line)) == (key, value) {
      var gap := KeyValueIsSpaced(Strip(line));
    }
  }

  /** The entries that result: those given, overridden by what the lines that count set. */
  lemma {:induction false} EntriesExactly(lines: seq<string>, entries: map<string, string>, end: nat,
                                          key: string, value: string)
    requires Before(lines, end)
    ensures var (all, follows) := ParseLines(lines, entries);
            && (follows <==> end < |lines|)
            && (key in all && all[key] == value
                <==> Holds(lines, end, key, value)
                     || (Unset(lines, 0, end, key) && key in entries && entries[key] == value))
    decreases |lines|
  {
    hide Strip, KeyValue, Sets;
    if 0 < end {
      var rest := lines[1..];
      var line := Strip(lines[0]);
      var next := if line == "" then entries else entries[KeyValue(line).0 := KeyValue(line).1];
      assert Before(rest, end - 1);
      EntriesExactly(rest, next, end - 1, key, value);
      HoldsLater(lines, end, key, value);
      UnsetLater(lines, end, key);
      SetsExactly(lines[0], key, value);
      KeySet(lines[0], key);
    }
  }

  lemma KeySet(line: string, key: string)
    ensures (exists value :: Sets(line, key, value)) <==> Strip(line) != "" && KeyValue(Strip(line)).0 == key
  {
    hide Strip, KeyValue, Sets;
    if value :| Sets(line, key, value) {
      SetsExactly(line, key, value);
    }
    SetsExactly(line, key, KeyValue(Strip(line)).1);
  }

  lemma UnsetShift(lines: seq<string>, from: nat, end: nat, key: string)
    requires 0 < end <= |lines|
    ensures Unset(lines, from + 1, end, key) <==> Unset(lines[1..], from, end - 1, key)
  {
    hide Sets;
    var rest := lines[1..];
    if Unset(lines, from + 1, end, key) {
      forall j, value | from <= j < end - 1 ensures !Sets(rest[j], key, value) {
        assert !Sets(lines[j + 1], key, value);
      }
    }
    if Unset(rest, from, end - 1, key) {
      forall j, value | from + 1 <= j < end ensures !Sets(lines[j], key, value) {
        assert !Sets(rest[j - 1], key, value);
      }
    }
  }

  lemma HoldsLater(lines: seq<string>, end: nat, key: string, value: string)
    requires 0 < end <= |lines|
    ensures Holds(lines, end, key, value)
            <==> Holds(lines[1..], end - 1, key, value)
                 || (Sets(lines[0], key, value) && Unset(lines[1..], 0, end - 1, key))
  {
    hide Sets, Unset;
    var rest := lines[1..];
    UnsetShift(lines, 0, end, key);
    if i :| 0 <= i < end && Sets(lines[i], key, value) && Unset(lines, i + 1, end, key) {
      if 0 < i {
        UnsetShift(lines, i, end, key);
        assert Sets(rest[i - 1], key, value);
      }
    }
    if i :| 0 <= i < end - 1 && Sets(rest[i], key, value) && Unset(rest, i + 1, end - 1, key) {
      UnsetShift(lines, i + 1, end, key);
      assert Sets(lines[i + 1], key, value);
    }
  }

  lemma UnsetLater(lines: seq<string>, end: nat, key: string)
    requires 0 < end <= |lines|
    ensures Unset(lines, 0, end, key)
            <==> (forall value :: !Sets(lines[0], key, value)) && Unset(lines[1..], 0, end - 1, key)
  {
    UnsetShift(lines, 0, end, key);
    hide Sets;
  }

  // ---------------------------------------------------------------- the header read

  /** Some value is held and reads as this number, or the key is nowhere and the number is zero. */
  ghost predicate IntField(lines: seq<string>, end: nat, key: string, n: int)
    requires end <= |lines|
  {
    || (Unset(lines, 0, end, key) && n == 0)
    || exists value :: Holds(lines, end, key, value) && ParseInt(value) == Some(n)
  }

  ghost predicate FloatField(lines: seq<string>, end: nat, key: string, x: Float)
    requires end <= |lines|
  {
    || (Unset(lines, 0, end, key) && x == Finite(0.0))
    || exists value :: Holds(lines, end, key, value) && ParseFloat(value) == Some(x)
  }

  lemma Entry(lines: seq<string>, end: nat, key: string)
    requires Before(lines, end)
    ensures var entries := ParseLines(lines, map[]).0;
            && (key in entries ==> Holds(lines, end, key, entries[key]) && !Unset(lines, 0, end, key))
            && (key !in entries ==> Unset(lines, 0, end, key))
            && forall value :: Holds(lines, end, key, value) ==> key in entries && entries[key] == value
  {
    var entries := ParseLines(lines, map[]).0;
    forall value ensures Holds(lines, end, key, value) <==> key in entries && entries[key] == value {
      EntriesExactly(lines, map[], end, key, value);
    }
    if key in entries {
      HeldIsSet(lines, end, key, entries[key]);
    } else {
      LastSet(lines, end, key);
    }
  }

  lemma HeldIsSet(lines: seq<string>, end: nat, key: string, value: string)
    requires end <= |lines| && Holds(lines, end, key, value)
    ensures !Unset(lines, 0, end, key)
  {
    hide Sets;
  }

  /** If any line has the key, one is the last. */
  lemma {:induction false} LastSet(lines: seq<string>, end: nat, key: string)
    requires end <= |lines|
    ensures Unset(lines, 0, end, key) || exists value :: Holds(lines, end, key, value)
    decreases end
  {
    hide Sets;
    if end != 0 {
      var last := end - 1;
      if value :| Sets(lines[last], key, value) {
        assert Unset(lines, last + 1, end, key);
        assert Holds(lines, end, key, value);
      } else {
        LastSet(lines, last, key);
        if value :| Holds(lines, last, key, value) {
          var i :| 0 <= i < last && Sets(lines[i], key, value) && Unset(lines, i + 1, last, key);
          assert Unset(lines, i + 1, end, key);
          assert Holds(lines, end, key, value);
        }
      }
    }
  }

  /**
   A header is accepted, and as this one, exactly when a status and a size are held and read as its numbers,
   the size not negative; a bitrate and a duration read as its, or are nowhere and zero; the rest of the
   entries are the values held; and data follows exactly when a line says so.
   */
  lemma {:induction false} HeaderReadsExactly(raw: string, h: Header, end: nat)
    requires Before(SplitLines(raw), end)
    ensures var lines := SplitLines(raw);
            ParseHeader(raw) == Success(h)
            <==> && (exists value :: Holds(lines, end, "STATUS", value) && ParseInt(value) == Some(h.status))
                 && (exists value :: Holds(lines, end, "SIZE", value) && ParseInt(value) == Some(h.size))
                 && 0 <= h.size
                 && IntField(lines, end, "BITRATE", h.bitrate)
                 && FloatField(lines, end, "DURATION", h.duration)
                 && (forall key, value ::
                       Holds(lines, end, key, value) <==> key in h.entries && h.entries[key] == value)
                 && (h.dataFollows <==> end < |lines|)
  {
    hide ParseInt, ParseFloat, Holds, Unset, ParseLines, SplitLines;
    var lines := SplitLines(raw);
    var (entries, follows) := ParseLines(lines, map[]);
    forall key
      ensures key in entries ==> Holds(lines, end, key, entries[key]) && !Unset(lines, 0, end, key)
      ensures key !in entries ==> Unset(lines, 0, end, key)
      ensures forall value :: Holds(lines, end, key, value) ==> key in entries && entries[key] == value
    {
      Entry(lines, end, key);
    }
    EntriesExactly(lines, map[], end, "", "");
    if forall key, value :: Holds(lines, end, key, value) <==> key in h.entries && h.entries[key] == value {
      forall key
        ensures key in entries <==> key in h.entries
        ensures key in entries ==> entries[key] == h.entries[key]
      {
        assert key in entries ==> Holds(lines, end, key, entries[key]);
        assert key in h.entries ==> Holds(lines, end, key, h.entries[key]);
      }
      assert entries == h.entries;
    }
  }
}
