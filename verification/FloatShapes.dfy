/** Which texts are read as numbers with a point or an exponent, and what they are worth. */
module FloatShapes {
  import opened Wrappers
  import opened Text
  import opened Rounding
  import opened Numerals

  /** The parts of a numeral: digits, a point and more digits, a mark and an exponent; some may be missing. */
  datatype FloatShape = FloatShape(whole: string, point: bool, fraction: string, mark: string, exponent: string)
  {
    predicate Valid() {
      && (whole == "" || Grouped(whole)) && (fraction == "" || Grouped(fraction))
      && (whole != "" || fraction != "") && (fraction != "" ==> point)
      && (mark == "" || mark == "e" || mark == "E") && (mark == "" ==> exponent == "")
      && (mark != "" ==> ParseSigned(exponent).Some?)
    }

    function Mantissa(): string { whole + (if point then "." + fraction else "") }

    function Text(): string { Mantissa() + (mark + exponent) }

    /** The digits before the point, those behind it, and the exponent's power of ten. */
    function Amount(): real
      requires Valid()
    {
      Scaled(Units(whole, fraction), if mark == "" then 0 else ParseSigned(exponent).value)
    }
  }

  /** The number before an exponent moves its point. */
  function Units(whole: string, fraction: string): real {
    Worth(whole) as real + Scaled(Worth(fraction) as real, -(DigitCount(fraction) as int))
  }

  predicate Figures(s: string) { forall i :: 0 <= i < |s| ==> IsDigit(s[i]) || s[i] == '_' }

  lemma GroupedFigures(s: string)
    requires s == "" || Grouped(s)
    ensures Figures(s)
  {
    forall i | 0 <= i < |s| ensures IsDigit(s[i]) || s[i] == '_' {
      assert 0 < i ==> Joins(s, i);
    }
  }

  lemma NoPoint(whole: string)
    requires Figures(whole)
    ensures Find(whole, '.').None?
  {
  }

  lemma PointAt(whole: string, fraction: string)
    requires Figures(whole)
    ensures var s := whole + ("." + fraction);
            Find(s, '.') == Some(|whole|) && s[..|whole|] == whole && s[|whole| + 1..] == fraction
  {
    var s := whole + ("." + fraction);
    assert s[|whole|] == '.';
    forall i | 0 <= i < |whole| ensures s[i] != '.' {
      assert s[i] == whole[i];
    }
    hide Figures;
  }

  lemma Fraction(s: string)
    ensures ParseFraction(s)
         == if s == "" || Grouped(s) then Some(Scaled(Worth(s) as real, -(DigitCount(s) as int))) else None
  {
    DigitsExactly(s);
    hide Scaled, Grouped, ParseDigits;
    ScaledZero(0);
  }

  lemma WholeUnits(whole: string)
    requires Grouped(whole)
    ensures ParseMantissa(whole) == Some(Units(whole, ""))
  {
    GroupedFigures(whole);
    hide Scaled, Grouped, ParseDigits, Find, Figures;
    NoPoint(whole);
    DigitsExactly(whole);
    ScaledZero(0);
  }

  lemma PointUnits(whole: string, fraction: string)
    requires (whole == "" || Grouped(whole)) && (fraction == "" || Grouped(fraction))
    requires whole != "" || fraction != ""
    ensures ParseMantissa(whole + ("." + fraction)) == Some(Units(whole, fraction))
  {
    GroupedFigures(whole);
    hide Scaled, Grouped, ParseDigits, ParseFraction, Find, Figures, DigitCount;
    PointAt(whole, fraction);
    DigitsExactly(whole);
    Fraction(fraction);
  }

  /** Mantissas, read. */
  lemma MantissaExactly(shape: FloatShape)
    requires shape.Valid()
    ensures ParseMantissa(shape.Mantissa()) == Some(Units(shape.whole, shape.fraction))
  {
    hide Grouped, ParseSigned, ParseMantissa, Units;
    if shape.point {
      PointUnits(shape.whole, shape.fraction);
    } else {
      WholeUnits(shape.whole);
      assert shape.whole + "" == shape.whole;
    }
  }

  lemma ShapeUnmarked(shape: FloatShape)
    requires shape.Valid()
    ensures forall i :: 0 <= i < |shape.Mantissa()| ==> !IsMark(shape.Mantissa()[i])
  {
    GroupedFigures(shape.whole);
    GroupedFigures(shape.fraction);
    hide Grouped, ParseSigned;
    var m := shape.Mantissa();
    forall i | 0 <= i < |m| ensures !IsMark(m[i]) {
      if |shape.whole| < i {
        assert m[i] == shape.fraction[i - |shape.whole| - 1];
      }
    }
  }

  lemma SpanToMark(m: string, tail: string)
    requires (forall i :: 0 <= i < |m| ==> !IsMark(m[i])) && (tail == "" || IsMark(tail[0]))
    ensures Span(m + tail, c => !IsMark(c)) == |m|
    ensures (m + tail)[..|m|] == m && (tail != "" ==> (m + tail)[|m| + 1..] == tail[1..])
  {
    var unmarked := c => !IsMark(c);
    assert All(m, unmarked);
    SpanOf(m, tail, unmarked);
  }

  lemma MarkAt(shape: FloatShape)
    requires shape.Valid()
    ensures Span(shape.Text(), c => !IsMark(c)) == |shape.Mantissa()|
    ensures shape.Text()[..|shape.Mantissa()|] == shape.Mantissa()
    ensures shape.mark != "" ==> |shape.Mantissa()| < |shape.Text()|
                                 && shape.Text()[|shape.Mantissa()| + 1..] == shape.exponent
  {
    ShapeUnmarked(shape);
    hide Grouped, ParseSigned, Span;
    SpanToMark(shape.Mantissa(), shape.mark + shape.exponent);
  }

  lemma MarkedReads(s: string, n: nat, x: real, e: int)
    requires n < |s| && Span(s, c => !IsMark(c)) == n
    requires ParseMantissa(s[..n]) == Some(x) && ParseSigned(s[n + 1..]) == Some(e)
    ensures ParseUnsigned(s) == Some(Scaled(x, e))
  {
    hide ParseMantissa, ParseSigned, Span, Scaled;
  }

  lemma UnmarkedReads(s: string, x: real)
    requires Span(s, c => !IsMark(c)) == |s| && ParseMantissa(s) == Some(x)
    ensures ParseUnsigned(s) == Some(Scaled(x, 0))
  {
    hide ParseMantissa, ParseSigned, Span, Scaled;
    assert s[..|s|] == s;
    ScaledByNone(x);
  }

  /** Numerals of this shape are accepted, with their amount. */
  lemma ShapeReads(shape: FloatShape)
    requires shape.Valid()
    ensures ParseUnsigned(shape.Text()) == Some(shape.Amount())
  {
    hide ParseUnsigned, ParseMantissa, ParseSigned, Span, Units, Scaled, Grouped, IsMark;
    var x := Units(shape.whole, shape.fraction);
    MarkAt(shape);
    MantissaExactly(shape);
    if shape.mark == "" {
      assert shape.Text() == shape.Mantissa();
      UnmarkedReads(shape.Text(), x);
    } else {
      MarkedReads(shape.Text(), |shape.Mantissa()|, x, ParseSigned(shape.exponent).value);
    }
  }

  lemma MantissaShape(m: string) returns (whole: string, point: bool, fraction: string)
    requires ParseMantissa(m).Some?
    ensures (whole == "" || Grouped(whole)) && (fraction == "" || Grouped(fraction))
    ensures (whole != "" || fraction != "") && (fraction != "" ==> point)
    ensures m == whole + if point then "." + fraction else ""
  {
    hide Scaled, Grouped, ParseDigits, ParseFraction, Worth, DigitCount;
    whole, point, fraction := m, false, "";
    DigitsExactly(m);
    var at := Find(m, '.');
    if at.Some? {
      whole, point, fraction := m[..at.value], true, m[at.value + 1..];
      assert m == whole + ("." + fraction);
      DigitsExactly(whole);
      Fraction(fraction);
    } else {
      assert m + "" == m && m != "" by {
        NotGrouped("");
      }
    }
  }

  lemma NotGrouped(s: string)
    requires s == ""
    ensures !Grouped(s)
  {
  }

  lemma MarkedParts(s: string, n: nat)
    requires n < |s|
    ensures s == s[..n] + (s[n..n + 1] + s[n + 1..]) && s[n..n + 1] == [s[n]]
  {
  }

  /** And only such numerals are. */
  lemma ReadsShape(s: string) returns (shape: FloatShape)
    requires ParseUnsigned(s).Some?
    ensures shape.Valid() && shape.Text() == s
  {
    hide ParseMantissa, Grouped, Scaled, Span, ParseSigned;
    var n := Span(s, c => !IsMark(c));
    var whole, point, fraction := MantissaShape(s[..n]);
    if n == |s| {
      shape := FloatShape(whole, point, fraction, "", "");
      assert s[..n] == s && s + "" == s;
    } else {
      MarkedParts(s, n);
      shape := FloatShape(whole, point, fraction, s[n..n + 1], s[n + 1..]);
    }
  }

  ghost predicate Writes(s: string, x: real) {
    exists shape: FloatShape :: shape.Valid() && shape.Text() == s && shape.Amount() == x
  }

  /** An unsigned number is read off a text exactly when the text has the shape, and is the shape's amount. */
  lemma FloatGrammar(s: string, x: real)
    ensures ParseUnsigned(s) == Some(x) <==> Writes(s, x)
  {
    hide ParseUnsigned;
    if ParseUnsigned(s) == Some(x) {
      var shape := ReadsShape(s);
      ShapeReads(shape);
    }
    if shape: FloatShape :| shape.Valid() && shape.Text() == s && shape.Amount() == x {
      ShapeReads(shape);
    }
  }

  /** A numeral begins with a digit or its point, so it is none of the special values. */
  lemma NotSpecialShape(shape: FloatShape)
    requires shape.Valid()
    ensures var s := Lower(shape.Text()); s != "inf" && s != "infinity" && s != "nan"
  {
    hide Grouped, ParseSigned;
    var s := shape.Text();
    assert s != "" && (IsDigit(s[0]) || s[0] == '.') by {
      FirstFigure(shape.whole);
    }
    assert Lower(s)[0] == s[0];
  }

  lemma FirstFigure(s: string)
    ensures Grouped(s) ==> s != "" && IsDigit(s[0])
  {
  }

  lemma MagnitudeExactly(s: string, x: real)
    ensures ParseMagnitude(s) == Some(Finite(x)) <==> Writes(s, x)
  {
    FloatGrammar(s, x);
    hide ParseUnsigned;
    if shape: FloatShape :| shape.Valid() && shape.Text() == s && shape.Amount() == x {
      NotSpecialShape(shape);
    }
  }

  /** A finite number is read off a text exactly when, spaces and one sign apart, it has the shape; with that amount. */
  lemma FloatExactly(text: string, x: real)
    ensures var s := Strip(text);
            var signed := s != "" && (s[0] == '-' || s[0] == '+');
            ParseFloat(text) == Some(Finite(x))
            <==> Writes(if signed then s[1..] else s, if signed && s[0] == '-' then -x else x)
  {
    hide Strip, ParseMagnitude, Writes;
    var s := Strip(text);
    if s != "" && (s[0] == '-' || s[0] == '+') {
      MagnitudeExactly(s[1..], x);
      MagnitudeExactly(s[1..], -x);
      assert -(-x) == x;
    } else {
      MagnitudeExactly(s, x);
    }
  }
}
