/**
 Text as the program handles it. A string stands both for decoded text and for the bytes on the wire,
 one character per byte; outside payloads only ASCII gets a meaning.
 */
module Text {
  import opened Wrappers

  const CRLF := "\r\n"

  predicate IsSpace(c: char) {
    ('\t' <= c <= '\r') || (28 as char <= c <= ' ')
  }

  predicate IsDigit(c: char) { '0' <= c <= '9' }

  predicate IsAlnum(c: char) { IsDigit(c) || 'A' <= c <= 'Z' || 'a' <= c <= 'z' }

  /** Characters that end a line: all the whitespace except tab, space and the unit separator. */
  predicate IsBreak(c: char) {
    ('\n' <= c <= '\r') || (28 as char <= c <= 30 as char)
  }

  // ---------------------------------------------------------------- scanning

  /** The length of the longest prefix whose characters all satisfy p. */
  function Span(s: string, p: char -> bool): (n: nat)
    ensures n <= |s|
    ensures forall i :: 0 <= i < n ==> p(s[i])
    ensures n < |s| ==> !p(s[n])
  {
    if s == [] || !p(s[0]) then 0 else 1 + Span(s[1..], p)
  }

  lemma {:induction false} SpanOf(a: string, b: string, p: char -> bool)
    requires All(a, p)
    requires b == [] || !p(b[0])
    ensures Span(a + b, p) == |a|
  {
    if a == [] {
      assert a + b == b;
    } else {
      SpanOf(a[1..], b, p);
      assert (a + b)[1..] == a[1..] + b;
    }
  }

  /** Text without whitespace: one word, or nothing. */
  predicate Word(s: string) { forall i :: 0 <= i < |s| ==> !IsSpace(s[i]) }

  predicate All(s: string, p: char -> bool) { forall i :: 0 <= i < |s| ==> p(s[i]) }

  predicate StartsWith(s: string, prefix: string) {
    |prefix| <= |s| && s[..|prefix|] == prefix
  }

  function StripLeft(s: string): string { s[Span(s, IsSpace)..] }

  function StripRight(s: string): string
    decreases |s|
  {
    if s != [] && IsSpace(s[|s| - 1]) then StripRight(s[..|s| - 1]) else s
  }

  function Strip(s: string): string { StripRight(StripLeft(s)) }

  /** Text that neither begins nor ends with whitespace. */
  predicate Trimmed(s: string) {
    s == [] || (!IsSpace(s[0]) && !IsSpace(s[|s| - 1]))
  }

  lemma StripTrimmed(s: string)
    requires Trimmed(s)
    ensures Strip(s) == s
  {
  }

  /** Surrounding whitespace is what strip removes, and all it removes. */
  lemma {:induction false} StripRightPadded(s: string, after: string)
    requires s == [] || !IsSpace(s[|s| - 1])
    requires All(after, IsSpace)
    ensures StripRight(s + after) == s
    decreases |after|
  {
    if after == [] {
      assert s + after == s;
    } else {
      var cut := after[..|after| - 1];
      assert (s + after)[..|s + after| - 1] == s + cut;
      StripRightPadded(s, cut);
    }
  }

  lemma {:induction false} StripRightResult(s: string)
    ensures var r := StripRight(s);
            && StartsWith(s, r)
            && (r == [] || !IsSpace(r[|r| - 1]))
            && (forall i :: |r| <= i < |s| ==> IsSpace(s[i]))
    decreases |s|
  {
    if s != [] && IsSpace(s[|s| - 1]) {
      StripRightResult(s[..|s| - 1]);
    }
  }

  predicate IsCrlf(s: string, i: int) {
    0 <= i && i + 1 < |s| && s[i] == '\r' && s[i + 1] == '\n'
  }

  lemma RightParts(left: string) returns (after: string)
    ensures left == StripRight(left) + after && All(after, IsSpace)
    ensures StripRight(left) == [] || !IsSpace(StripRight(left)[|StripRight(left)| - 1])
    ensures left == [] || IsSpace(left[0]) || StripRight(left) == [] || StripRight(left)[0] == left[0]
  {
    StripRightResult(left);
    hide StripRight, IsSpace;
    after := left[|StripRight(left)|..];
  }

  lemma StripParts(s: string) returns (before: string, after: string)
    ensures All(before, IsSpace) && All(after, IsSpace)
    ensures s == before + (Strip(s) + after)
    ensures Trimmed(Strip(s))
  {
    var n := Span(s, IsSpace);
    before := s[..n];
    assert StripLeft(s) == s[n..] && (n < |s| ==> !IsSpace(s[n..][0]));
    hide StripRight, StripLeft, Span, IsSpace;
    after := RightParts(s[n..]);
    assert s == before + s[n..];
  }

  /** Where a line of text ends: the position of its first CR LF pair. */
  function FindCrlf(s: string): (r: Option<nat>)
    ensures r.Some? ==> IsCrlf(s, r.value) && forall i :: 0 <= i < r.value ==> !IsCrlf(s, i)
    ensures r.None? ==> forall i :: !IsCrlf(s, i)
  {
    if s == [] then None
    else if IsCrlf(s, 0) then Some(0)
    else
      var rest := FindCrlf(s[1..]);
      assert forall i :: 1 <= i ==> IsCrlf(s, i) == IsCrlf(s[1..], i - 1);
      if rest.Some? then Some(rest.value + 1) else None
  }

  lemma CrlfAfter(line: string, rest: string)
    requires '\r' !in line
    ensures FindCrlf(line + CRLF + rest) == Some(|line|)
  {
    var s := line + CRLF + rest;
    assert IsCrlf(s, |line|);
    forall i | 0 <= i < |line| ensures !IsCrlf(s, i) {
      assert s[i] == line[i];
    }
  }

  /** Receiving more bytes never moves a line end already found. */
  lemma CrlfStable(s: string, more: string)
    requires FindCrlf(s).Some?
    ensures FindCrlf(s + more) == FindCrlf(s)
  {
    var at := FindCrlf(s).value;
    assert IsCrlf(s + more, at);
    forall i | 0 <= i < at ensures !IsCrlf(s + more, i) {
      assert !IsCrlf(s, i);
    }
  }

  function Find(s: string, c: char): (r: Option<nat>)
    ensures r.Some? ==> r.value < |s| && s[r.value] == c && c !in s[..r.value]
    ensures r.None? ==> c !in s
  {
    if s == [] then None
    else if s[0] == c then Some(0)
    else
      var rest := Find(s[1..], c);
      if rest.Some? then
        assert s[..rest.value + 1] == [s[0]] + s[1..][..rest.value];
        Some(rest.value + 1)
      else None
  }

  predicate Inside(c: char) { !IsBreak(c) }

  function FirstBreak(s: string): (n: nat)
    ensures n <= |s| && (n < |s| ==> IsBreak(s[n]))
    ensures forall i :: 0 <= i < n ==> !IsBreak(s[i])
  {
    Span(s, Inside)
  }

  /** CR LF counts as one line break. */
  function BreakWidth(s: string, at: nat): (width: nat)
    requires at < |s|
    ensures 1 <= width && at + width <= |s|
  {
    if s[at] == '\r' && at + 1 < |s| && s[at + 1] == '\n' then 2 else 1
  }

  /** Lines of a text, each cut before its line break. */
  function SplitLines(s: string): seq<string>
    decreases |s|
  {
    if s == [] then []
    else
      var end := FirstBreak(s);
      if end == |s| then [s] else [s[..end]] + SplitLines(s[end + BreakWidth(s, end)..])
  }

  /** The first line is what comes before the first break. */
  lemma SplitFirst(s: string, end: nat)
    requires end < |s| && IsBreak(s[end]) && forall i :: 0 <= i < end ==> !IsBreak(s[i])
    ensures SplitLines(s) == [s[..end]] + SplitLines(s[end + BreakWidth(s, end)..])
  {
    assert FirstBreak(s) == end;
  }

  lemma {:induction false} SplitLinesCons(line: string, rest: string)
    requires forall i :: 0 <= i < |line| ==> !IsBreak(line[i])
    ensures SplitLines(line + CRLF + rest) == [line] + SplitLines(rest)
  {
    var s := line + CRLF + rest;
    assert s[|line|] == '\r' && s[|line| + 1] == '\n';
    assert s[..|line|] == line && s[|line| + 2..] == rest;
    SplitFirst(s, |line|);
  }

  // ---------------------------------------------------------------- decimal numbers

  function Digit(n: nat): (c: char)
    requires n < 10
    ensures IsDigit(c) && Value(c) == n
  {
    '0' + n as char
  }

  function Value(c: char): nat
    requires IsDigit(c)
  {
    (c - '0') as nat
  }

  function Decimal(n: nat): (s: string)
    ensures s != [] && All(s, IsDigit)
  {
    if n < 10 then [Digit(n)] else Decimal(n / 10) + [Digit(n % 10)]
  }

  function IntText(n: int): string {
    if n < 0 then "-" + Decimal(-n) else Decimal(n)
  }

  /** Zero-padded to a width of three, the sign counting towards the width. */
  function PaddedText(n: int): string {
    if n < 0 then "-" + Padded(Decimal(-n), 2) else Padded(Decimal(n), 3)
  }

  function Padded(s: string, width: nat): string
    decreases width - |s|
  {
    if |s| < width then Padded("0" + s, width) else s
  }

  /** Digits with single underscores between them, as integer literals allow. */
  function ParseDigits(s: string): Option<nat>
    decreases |s|
  {
    if s == [] || !IsDigit(s[|s| - 1]) then None
    else
      var last := Value(s[|s| - 1]);
      if |s| == 1 then Some(last)
      else
        var p := s[..|s| - 1];
        var high := ParseDigits(if p[|p| - 1] == '_' then p[..|p| - 1] else p);
        if high.Some? then Some(10 * high.value + last) else None
  }

  /** Digits after an optional sign. */
  function ParseSigned(s: string): Option<int> {
    if s != [] && (s[0] == '-' || s[0] == '+') then
      var n := ParseDigits(s[1..]);
      if n.None? then None else var v: int := n.value; Some(if s[0] == '-' then -v else v)
    else
      ParseDigits(s)
  }

  function ParseInt(text: string): Option<int> { ParseSigned(Strip(text)) }

  lemma {:induction false} DecimalRoundTrip(n: nat)
    ensures ParseDigits(Decimal(n)) == Some(n)
  {
    if 10 <= n {
      DecimalRoundTrip(n / 10);
      var s := Decimal(n);
      assert s[..|s| - 1] == Decimal(n / 10);
    }
  }

  /** Printed numbers do not begin with a zero, but for the number zero itself. */
  lemma {:induction false} NoLeadingZero(n: nat)
    ensures Decimal(n)[0] == '0' <==> n == 0
    decreases n
  {
    if 10 <= n {
      NoLeadingZero(n / 10);
    }
  }

  // ---------------------------------------------------------------- any integer numeral

  /** A digit, or an underscore that follows no other. */
  predicate Joins(s: string, i: nat)
    requires 0 < i < |s|
  {
    IsDigit(s[i]) || (s[i] == '_' && s[i - 1] != '_')
  }

  /** Digits, with single underscores between digits. */
  predicate Grouped(s: string) {
    && s != "" && IsDigit(s[0]) && IsDigit(s[|s| - 1])
    && forall i :: 0 < i < |s| ==> Joins(s, i)
  }

  /** The number its digits write. */
  function Worth(s: string): nat {
    if s == "" then 0
    else if IsDigit(s[|s| - 1]) then 10 * Worth(s[..|s| - 1]) + Value(s[|s| - 1])
    else Worth(s[..|s| - 1])
  }

  /** Numerals are accepted exactly when their digits are grouped, and read as what the digits write. */
  lemma {:induction false} DigitsExactly(s: string)
    ensures ParseDigits(s) == if Grouped(s) then Some(Worth(s)) else None
    decreases |s|
  {
    if s != "" && IsDigit(s[|s| - 1]) {
      var p := s[..|s| - 1];
      if p != "" {
        var q := if p[|p| - 1] == '_' then p[..|p| - 1] else p;
        DigitsExactly(q);
        GroupedShort(s, p, q);
      }
    }
  }

  lemma GroupedShort(s: string, p: string, q: string)
    requires 1 < |s| && IsDigit(s[|s| - 1]) && p == s[..|s| - 1]
    requires q == if p[|p| - 1] == '_' then p[..|p| - 1] else p
    ensures Grouped(s) <==> Grouped(q)
    ensures Worth(p) == Worth(q)
  {
    assert forall i :: 0 <= i < |q| ==> q[i] == s[i];
    assert forall i :: 0 < i < |q| ==> Joins(s, i) == Joins(q, i);
    if Grouped(s) {
      assert 1 < |p| ==> Joins(s, |p| - 1);
      assert 1 < |q| ==> Joins(s, |q| - 1);
    }
    if Grouped(q) {
      forall i | 0 < i < |s| ensures Joins(s, i) {
        assert |q| <= i ==> i == |s| - 1 || s[i - 1] == q[|q| - 1];
      }
    }
  }

  /** An integer is read off a text exactly when, spaces and one sign apart, its digits are grouped. */
  lemma IntegerGrammar(text: string)
    ensures var s := Strip(text);
            var signed := s != "" && (s[0] == '-' || s[0] == '+');
            var digits := if signed then s[1..] else s;
            ParseInt(text) == if !Grouped(digits) then None
                              else if signed && s[0] == '-' then Some(-(Worth(digits) as int)) else Some(Worth(digits))
  {
    var s := Strip(text);
    hide Strip, Grouped, Worth, ParseDigits;
    DigitsExactly(s);
    if s != "" {
      DigitsExactly(s[1..]);
    }
  }

  // ---------------------------------------------------------------- padding

  /** Leading zeros do not change a number. */
  lemma {:induction false} LeadingZero(s: string)
    requires s != [] && All(s, IsDigit)
    ensures ParseDigits("0" + s) == ParseDigits(s)
    decreases |s|
  {
    var z := "0" + s;
    assert z[..|z| - 1] == "0" + s[..|s| - 1];
    if |s| == 1 {
      assert z[..1] == "0";
      assert ParseDigits("0") == Some(0);
    } else {
      LeadingZero(s[..|s| - 1]);
    }
  }

  lemma {:induction false} PaddedRoundTrip(s: string, width: nat)
    requires s != [] && All(s, IsDigit)
    ensures var p := Padded(s, width);
            && p != [] && All(p, IsDigit)
            && ParseDigits(p) == ParseDigits(s)
            && |p| == if |s| < width then width else |s|
    decreases width - |s|
  {
    if |s| < width {
      LeadingZero(s);
      PaddedRoundTrip("0" + s, width);
    }
  }

  /** An id in a path has three places at least, the sign among them, and reads as the id. */
  lemma PlacesOfText(n: int)
    ensures var digits := Decimal(if n < 0 then -n else n);
            var shown := if n < 0 then PaddedText(n)[1..] else PaddedText(n);
            && |PaddedText(n)| == (var length := |digits| + if n < 0 then 1 else 0; if length < 3 then 3 else length)
            && (n < 0 ==> PaddedText(n)[0] == '-')
            && All(shown, IsDigit) && ParseDigits(shown) == Some(if n < 0 then -n else n)
  {
    var size := if n < 0 then -n else n;
    DecimalRoundTrip(size);
    PaddedRoundTrip(Decimal(size), if n < 0 then 2 else 3);
    assert n < 0 ==> PaddedText(n)[1..] == Padded(Decimal(size), 2);
  }

  lemma {:induction false} DecimalIsInt(n: nat)
    ensures ParseInt(Decimal(n)) == Some(n)
  {
    DecimalRoundTrip(n);
    StripTrimmed(Decimal(n));
  }

  lemma NegativeIsInt(n: nat)
    ensures ParseInt("-" + Decimal(n)) == Some(-(n as int))
  {
    var s := "-" + Decimal(n);
    DecimalRoundTrip(n);
    StripTrimmed(s);
    assert s[1..] == Decimal(n);
  }

  lemma IntRoundTrip(n: int)
    ensures ParseInt(IntText(n)) == Some(n)
    ensures IntText(n) != [] && forall i :: 0 <= i < |IntText(n)| ==> IsDigit(IntText(n)[i]) || IntText(n)[i] == '-'
  {
    hide ParseInt, Decimal, IsSpace;
    if n < 0 {
      NegativeIsInt(-n);
    } else {
      DecimalIsInt(n);
    }
  }
}
