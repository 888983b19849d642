/** Decimal text of real numbers: durations are printed to six significant digits and read back as any numeral. */
module Numerals {
  import opened Wrappers
  import opened Text
  import opened Rounding

  // ---------------------------------------------------------------- reading

  /** The digits of a text that may have underscores between them. */
  function DigitCount(s: string): nat {
    if s == "" then 0 else DigitCount(s[..|s| - 1]) + if IsDigit(s[|s| - 1]) then 1 else 0
  }

  function ParseFraction(s: string): Option<real> {
    if s == "" then Some(0.0)
    else
      var n := ParseDigits(s);
      if n.None? then None else Some(Scaled(n.value as real, -(DigitCount(s) as int)))
  }

  /** Digits with at most one point among them. */
  function ParseMantissa(s: string): Option<real> {
    match Find(s, '.')
    case None =>
      var n := ParseDigits(s);
      if n.None? then None else Some(n.value as real)
    case Some(point) =>
      var whole, fraction := s[..point], s[point + 1..];
      if whole == "" && fraction == "" then None
      else
        var n, f := if whole == "" then Some(0) else ParseDigits(whole), ParseFraction(fraction);
        if n.None? || f.None? then None else Some(n.value as real + f.value)
  }

  predicate IsMark(c: char) { c == 'e' || c == 'E' }

  function ParseUnsigned(s: string): Option<real> {
    var n := Span(s, c => !IsMark(c));
    var mantissa := ParseMantissa(s[..n]);
    if n == |s| then mantissa
    else
      var exponent := ParseSigned(s[n + 1..]);
      if mantissa.None? || exponent.None? then None else Some(Scaled(mantissa.value, exponent.value))
  }

  /** A floating-point value, but for its rounding. */
  datatype Float = Finite(value: real) | Infinite(negative: bool) | NotANumber

  function Negative(x: Float): Float {
    match x
    case Finite(value) => Finite(-value)
    case Infinite(negative) => Infinite(!negative)
    case NotANumber => NotANumber
  }

  function LowerCase(c: char): char { if 'A' <= c <= 'Z' then c - 'A' + 'a' else c }

  function Lower(s: string): (r: string)
    ensures |r| == |s| && forall i :: 0 <= i < |s| ==> r[i] == LowerCase(s[i])
  {
    if s == "" then "" else [LowerCase(s[0])] + Lower(s[1..])
  }

  function ParseMagnitude(s: string): Option<Float> {
    if Lower(s) == "inf" || Lower(s) == "infinity" then Some(Infinite(false))
    else if Lower(s) == "nan" then Some(NotANumber)
    else
      var x := ParseUnsigned(s);
      if x.None? then None else Some(Finite(x.value))
  }

  function ParseFloat(text: string): Option<Float> {
    var s := Strip(text);
    if s != "" && (s[0] == '-' || s[0] == '+') then
      var x := ParseMagnitude(s[1..]);
      if x.None? then None else Some(if s[0] == '-' then Negative(x.value) else x.value)
    else
      ParseMagnitude(s)
  }

  // ---------------------------------------------------------------- digit strings

  function Number(digits: string): nat
    requires All(digits, IsDigit)
  {
    if digits == "" then 0 else 10 * Number(digits[..|digits| - 1]) + Value(digits[|digits| - 1])
  }

  lemma {:induction false} DigitsParse(s: string)
    requires s != "" && All(s, IsDigit)
    ensures ParseDigits(s) == Some(Number(s)) && DigitCount(s) == |s|
    decreases |s|
  {
    if 1 < |s| {
      DigitsParse(s[..|s| - 1]);
    }
  }

  lemma {:induction false} NumberAppend(a: string, b: string)
    requires All(a, IsDigit) && All(b, IsDigit)
    ensures Number(a + b) as real == Scaled(Number(a) as real, |b|) + Number(b) as real
    decreases |b|
  {
    if b == "" {
      assert a + b == a;
      ScaledByNone(Number(a) as real);
    } else {
      var cut := b[..|b| - 1];
      assert (a + b)[..|a + b| - 1] == a + cut;
      assert Number(a + b) == 10 * Number(a + cut) + Value(b[|b| - 1]);
      hide Scaled;
      NumberAppend(a, cut);
      ScaledStep(Number(a) as real, |cut|);
    }
  }

  // ---------------------------------------------------------------- numerals without redundancy

  /** Digits, a point if digits follow it, and an exponent if there is one. */
  datatype Numeral = Numeral(whole: string, fraction: string, exponent: Option<int>) {
    predicate Valid() { whole != "" && All(whole, IsDigit) && All(fraction, IsDigit) }

    function Places(): int { (if exponent.None? then 0 else exponent.value) - |fraction| }

    function Amount(): real
      requires Valid()
    {
      Scaled(Number(whole + fraction) as real, Places())
    }
  }

  function ExponentText(e: int): string {
    if e < 0 then "-" + Padded(Decimal(-e), 2) else "+" + Padded(Decimal(e), 2)
  }

  function MantissaText(n: Numeral): string { if n.fraction == "" then n.whole else n.whole + ("." + n.fraction) }

  function NumeralText(n: Numeral): string {
    if n.exponent.None? then MantissaText(n) else MantissaText(n) + ("e" + ExponentText(n.exponent.value))
  }

  lemma ExponentReads(e: int)
    ensures ParseSigned(ExponentText(e)) == Some(e)
    ensures var digits := |Decimal(if e < 0 then -e else e)|; |ExponentText(e)| == 1 + if digits < 2 then 2 else digits
  {
    var size := if e < 0 then -e else e;
    DecimalRoundTrip(size);
    PaddedRoundTrip(Decimal(size), 2);
    assert ExponentText(e)[1..] == Padded(Decimal(size), 2);
  }

  lemma SplitReads(s: string, whole: string, fraction: string, w: nat, f: nat)
    requires whole != "" && fraction != "" && Find(s, '.') == Some(|whole|)
    requires s[..|whole|] == whole && s[|whole| + 1..] == fraction
    requires ParseDigits(whole) == Some(w) && ParseDigits(fraction) == Some(f) && DigitCount(fraction) == |fraction|
    ensures ParseMantissa(s) == Some(w as real + Scaled(f as real, -|fraction|))
  {
    hide Scaled, ParseDigits, DigitCount, Find;
  }

  lemma PointReads(whole: string, fraction: string)
    requires whole != "" && fraction != "" && All(whole, IsDigit) && All(fraction, IsDigit)
    ensures ParseMantissa(whole + ("." + fraction))
         == Some(Number(whole) as real + Scaled(Number(fraction) as real, -|fraction|))
  {
    hide Scaled, Number, ParseDigits, DigitCount, Find, ParseMantissa;
    PointFound(whole, fraction);
    DigitsParse(whole);
    DigitsParse(fraction);
    SplitReads(whole + ("." + fraction), whole, fraction, Number(whole), Number(fraction));
  }

  lemma WholeReads(whole: string)
    requires whole != "" && All(whole, IsDigit)
    ensures ParseMantissa(whole) == Some(Number(whole) as real)
  {
    DigitsParse(whole);
    hide Number, ParseDigits, Find;
  }

  lemma MantissaReads(n: Numeral)
    requires n.Valid()
    ensures ParseMantissa(MantissaText(n)) == Some(Scaled(Number(n.whole + n.fraction) as real, -|n.fraction|))
  {
    if n.fraction == "" {
      hide Scaled, Number, ParseMantissa;
      WholeReads(n.whole);
      assert n.whole + n.fraction == n.whole;
      ScaledByNone(Number(n.whole) as real);
    } else {
      hide Scaled, Number, ParseMantissa;
      PointReads(n.whole, n.fraction);
      NumberAppend(n.whole, n.fraction);
      Spread(Number(n.whole) as real, Number(n.fraction) as real, |n.fraction|);
    }
  }

  lemma Spread(w: real, f: real, places: int)
    ensures w + Scaled(f, -places) == Scaled(Scaled(w, places) + f, -places)
  {
    hide Scaled;
    ScaledSum(Scaled(w, places), f, -places);
    ScaledTwice(w, places, -places);
    ScaledByNone(w);
  }

  lemma PointFound(whole: string, fraction: string)
    requires All(whole, IsDigit)
    ensures var s := whole + ("." + fraction);
            Find(s, '.') == Some(|whole|) && s[..|whole|] == whole && s[|whole| + 1..] == fraction
  {
    var s := whole + ("." + fraction);
    assert s[|whole|] == '.';
    forall i | 0 <= i < |whole| ensures s[i] != '.' {
      assert s[i] == whole[i];
    }
  }

  lemma MantissaUnmarked(n: Numeral, tail: string)
    requires n.Valid() && (tail == "" || IsMark(tail[0]))
    ensures var s := MantissaText(n) + tail;
            Span(s, c => !IsMark(c)) == |MantissaText(n)|
  {
    var unmarked := c => !IsMark(c);
    assert All(MantissaText(n), unmarked);
    SpanOf(MantissaText(n), tail, unmarked);
  }

  lemma NumeralReads(n: Numeral)
    requires n.Valid()
    ensures ParseUnsigned(NumeralText(n)) == Some(n.Amount())
  {
    hide Scaled, ParseMantissa, MantissaText, ExponentText, ParseSigned, Number, Span;
    var m := MantissaText(n);
    MantissaReads(n);
    if n.exponent.None? {
      MantissaUnmarked(n, "");
      assert m + "" == m && m[..|m|] == m;
    } else {
      var e := n.exponent.value;
      var tail := "e" + ExponentText(e);
      MantissaUnmarked(n, tail);
      assert (m + tail)[..|m|] == m && (m + tail)[|m| + 1..] == ExponentText(e);
      ExponentReads(e);
      ScaledTwice(Number(n.whole + n.fraction) as real, -|n.fraction|, e);
    }
  }

  // ---------------------------------------------------------------- printing

  function Zeros(n: nat): (s: string)
    ensures |s| == n && All(s, IsDigit)
  {
    seq(n, _ => '0')
  }

  /** Without the zeros at its end. */
  function Trimmed0(digits: string): (s: string)
    ensures s <= digits
    ensures All(digits, IsDigit) ==> All(s, IsDigit)
  {
    if digits != "" && digits[|digits| - 1] == '0' then Trimmed0(digits[..|digits| - 1]) else digits
  }

  lemma {:induction false} TrimmedScales(digits: string)
    requires All(digits, IsDigit)
    ensures Number(digits) as real == Scaled(Number(Trimmed0(digits)) as real, |digits| - |Trimmed0(digits)|)
    decreases |digits|
  {
    if digits != "" && digits[|digits| - 1] == '0' {
      var cut := digits[..|digits| - 1];
      assert Number(digits) == 10 * Number(cut) && Trimmed0(digits) == Trimmed0(cut);
      hide Scaled, Number, Trimmed0;
      TrimmedScales(cut);
      ScaledStep(Number(Trimmed0(cut)) as real, |cut| - |Trimmed0(cut)|);
    } else {
      ScaledByNone(Number(digits) as real);
    }
  }

  lemma {:induction false} ZerosAppend(digits: string, n: nat)
    requires All(digits, IsDigit)
    ensures Number(digits + Zeros(n)) as real == Scaled(Number(digits) as real, n)
  {
    hide Scaled, Number;
    NumberAppend(digits, Zeros(n));
    ZerosNumber(n);
  }

  lemma {:induction false} ZerosNumber(n: nat)
    ensures Number(Zeros(n)) == 0
  {
    if n != 0 {
      assert Zeros(n)[..n - 1] == Zeros(n - 1);
      ZerosNumber(n - 1);
    }
  }

  lemma {:induction false} DecimalNumber(n: nat)
    ensures Number(Decimal(n)) == n
  {
    DecimalRoundTrip(n);
    DigitsParse(Decimal(n));
  }

  lemma {:induction false} DecimalLength(n: nat, length: nat, low: nat)
    requires 0 < low <= n < 10 * low && IsPower(low, length)
    ensures |Decimal(n)| == length + 1
    decreases length
  {
    if length == 0 {
      assert n < 10;
    } else {
      DecimalLength(n / 10, length - 1, low / 10);
    }
  }

  /** Ten to the power of k. */
  predicate IsPower(low: nat, k: nat)
    decreases k
  {
    if k == 0 then low == 1 else low % 10 == 0 && IsPower(low / 10, k - 1)
  }

  lemma SixLong(m: nat)
    requires 100_000 <= m < 1_000_000
    ensures |Decimal(m)| == 6
  {
    assert IsPower(10, 1);
    assert IsPower(1000, 3);
    assert IsPower(100_000, 5);
    DecimalLength(m, 5, 100_000);
  }

  /** The digits that are shown: six, less the zeros at the end. */
  function Shown(x: Scientific): (s: string)
    requires x.Valid()
    ensures All(s, IsDigit)
  {
    Trimmed0(Decimal(x.mantissa))
  }

  lemma ShownAmount(x: Scientific)
    requires x.Valid()
    ensures |Shown(x)| <= 6
    ensures x.mantissa as real == Scaled(Number(Shown(x)) as real, 6 - |Shown(x)|)
  {
    hide Scaled, Decimal, Number, Trimmed0;
    SixLong(x.mantissa);
    DecimalNumber(x.mantissa);
    TrimmedScales(Decimal(x.mantissa));
  }

  lemma ShownNotEmpty(x: Scientific)
    requires x.Valid()
    ensures Shown(x) != ""
  {
    hide Scaled;
    ShownAmount(x);
    ScaledZero(6);
  }

  /** Positional where the exponent is from -4 to 5, scientific elsewhere. */
  function Layout(x: Scientific): Numeral
    requires x.Valid()
  {
    var digits, e := Shown(x), x.exponent;
    if e < -4 || 6 <= e then
      if digits == "" then Numeral("0", "", Some(e)) else Numeral(digits[..1], digits[1..], Some(e))
    else if e < 0 then Numeral("0", Zeros(-e - 1) + digits, None)
    else if |digits| <= e + 1 then Numeral(digits + Zeros(e + 1 - |digits|), "", None)
    else Numeral(digits[..e + 1], digits[e + 1..], None)
  }

  function General(d: real): string {
    if d == 0.0 then "0"
    else if d < 0.0 then "-" + NumeralText(Layout(Six(-d)))
    else NumeralText(Layout(Six(d)))
  }

  lemma LayoutLeading(digits: string, n: nat)
    requires All(digits, IsDigit)
    ensures Number("0" + (Zeros(n) + digits)) == Number(digits)
  {
    hide Scaled, Number;
    assert "0" + (Zeros(n) + digits) == Zeros(n + 1) + digits;
    NumberAppend(Zeros(n + 1), digits);
    ZerosNumber(n + 1);
    ScaledZero(|digits|);
  }

  /** All layouts write the digits shown, scaled to the exponent. */
  lemma LayoutDigits(x: Scientific) returns (shift: int)
    requires x.Valid() && 1 <= |Shown(x)| <= 6
    ensures Layout(x).Valid()
    ensures Number(Layout(x).whole + Layout(x).fraction) as real == Scaled(Number(Shown(x)) as real, shift)
    ensures shift + Layout(x).Places() == x.exponent + 1 - |Shown(x)|
  {
    hide Scaled, Number, Shown;
    var digits, e, n := Shown(x), x.exponent, Layout(x);
    ScaledByNone(Number(digits) as real);
    shift := 0;
    if e < -4 || 6 <= e {
      assert n.whole + n.fraction == digits;
    } else if e < 0 {
      LayoutLeading(digits, -e - 1);
    } else if |digits| <= e + 1 {
      assert n.whole + n.fraction == digits + Zeros(e + 1 - |digits|);
      ZerosAppend(digits, e + 1 - |digits|);
      shift := e + 1 - |digits|;
    } else {
      assert n.whole + n.fraction == digits;
    }
  }

  lemma LayoutAmount(x: Scientific)
    requires x.Valid()
    ensures Layout(x).Valid() && Layout(x).Amount() == x.Amount()
  {
    hide Scaled, Number, Shown, Layout;
    ShownAmount(x);
    ShownNotEmpty(x);
    var shift := LayoutDigits(x);
    ScaledTwice(Number(Shown(x)) as real, shift, Layout(x).Places());
    ScaledTwice(Number(Shown(x)) as real, 6 - |Shown(x)|, x.exponent - 5);
  }

  // ---------------------------------------------------------------- the shape of what is printed

  lemma {:induction false} TrimmedEnd(digits: string)
    ensures var s := Trimmed0(digits); s == "" || s[|s| - 1] != '0'
    decreases |digits|
  {
    if digits != "" && digits[|digits| - 1] == '0' {
      TrimmedEnd(digits[..|digits| - 1]);
    }
  }

  lemma ShownEnds(x: Scientific)
    requires x.Valid()
    ensures 1 <= |Shown(x)| <= 6 && Shown(x)[0] != '0' && Shown(x)[|Shown(x)| - 1] != '0'
  {
    ShownAmount(x);
    ShownNotEmpty(x);
    hide Decimal, Trimmed0;
    NoLeadingZero(x.mantissa);
    TrimmedEnd(Decimal(x.mantissa));
  }

  lemma LayoutShape(x: Scientific)
    requires x.Valid()
    ensures var n := Layout(x);
            && n.Valid()
            && (n.exponent.Some? <==> x.exponent < -4 || 6 <= x.exponent)
            && (n.exponent.Some? ==> |n.whole| == 1 && n.whole != "0")
            && (n.whole == "0" || n.whole[0] != '0')
            && (n.fraction == "" || n.fraction[|n.fraction| - 1] != '0')
  {
    hide Shown;
    ShownEnds(x);
    LayoutAmount(x);
  }

  lemma AmountBounds(x: Scientific)
    requires x.Valid()
    ensures Pow10(x.exponent) <= x.Amount() < Pow10(x.exponent + 1)
  {
    hide Pow10;
    FivePlaces(x.exponent);
    InItsDecade(x.mantissa as real, Pow10(x.exponent - 5), x.Amount());
  }

  lemma RangeOf(x: Scientific)
    requires x.Valid()
    ensures x.exponent < -4 <==> x.Amount() < 0.0001
    ensures 6 <= x.exponent <==> 1_000_000.0 <= x.Amount()
  {
    AmountBounds(x);
    assert Pow10(-4) == 0.0001 && Pow10(6) == 1_000_000.0;
    hide Pow10, Scaled;
    var e := x.exponent;
    Pow10Rises(if e < -4 then e + 1 else -4, if e < -4 then -4 else e);
    Pow10Rises(if e < 6 then e + 1 else 6, if e < 6 then 6 else e);
  }

  /**
   A printed number has no zero in front but before the point, none behind the point at its end, and an
   exponent exactly when it rounds to less than a ten-thousandth or to a million at least.
   */
  lemma GeneralShape(d: real) returns (n: Numeral)
    requires 0.0 < d
    ensures n.Valid() && General(-d) == "-" + General(d)
    ensures General(d) == n.whole + (if n.fraction == "" then "" else "." + n.fraction)
                          + (if n.exponent.None? then "" else "e" + ExponentText(n.exponent.value))
    ensures n.exponent.Some? <==> Rounded(d) < 0.0001 || 1_000_000.0 <= Rounded(d)
    ensures n.exponent.Some? ==> |n.whole| == 1 && n.whole != "0"
    ensures n.whole == "0" || n.whole[0] != '0'
    ensures n.fraction == "" || n.fraction[|n.fraction| - 1] != '0'
  {
    n := Layout(Six(d));
    hide Layout, Six, ExponentText;
    LayoutShape(Six(d));
    RangeOf(Six(d));
    assert n.whole + "" == n.whole && MantissaText(n) + "" == MantissaText(n);
  }

  lemma StartsWithDigit(n: Numeral)
    requires n.Valid()
    ensures var s := NumeralText(n); s != "" && IsDigit(s[0]) && Word(s)
  {
    if n.exponent.Some? {
      ExponentIsWord(n.exponent.value);
    }
  }

  lemma ExponentIsWord(e: int)
    ensures Word(ExponentText(e))
  {
    PaddedRoundTrip(Decimal(if e < 0 then -e else e), 2);
  }

  lemma GeneralIsWord(d: real)
    ensures General(d) != "" && Word(General(d))
    ensures d < 0.0 ==> General(d)[0] == '-'
    ensures 0.0 <= d ==> IsDigit(General(d)[0])
  {
    hide NumeralText, Layout, Six;
    if d != 0.0 {
      var size := if d < 0.0 then -d else d;
      LayoutAmount(Six(size));
      StartsWithDigit(Layout(Six(size)));
    }
  }

  /** Text that begins with a digit names no special value. */
  lemma NotSpecial(s: string)
    requires s != "" && IsDigit(s[0])
    ensures ParseMagnitude(s) == if ParseUnsigned(s).None? then None else Some(Finite(ParseUnsigned(s).value))
  {
    hide ParseUnsigned;
    assert Lower(s)[0] == s[0] && Lower(s)[0] != 'i' && Lower(s)[0] != 'n';
  }

  lemma LayoutReads(d: real)
    requires 0.0 < d
    ensures ParseMagnitude(NumeralText(Layout(Six(d)))) == Some(Finite(Six(d).Amount()))
  {
    hide NumeralText, Layout, Six, ParseUnsigned, ParseMagnitude;
    LayoutAmount(Six(d));
    NumeralReads(Layout(Six(d)));
    StartsWithDigit(Layout(Six(d)));
    NotSpecial(NumeralText(Layout(Six(d))));
  }

  lemma ZeroReads()
    ensures ParseMagnitude("0") == Some(Finite(0.0))
  {
    NotSpecial("0");
    hide ParseMagnitude;
    var n := Numeral("0", "", None);
    assert NumeralText(n) == "0" && n.whole + n.fraction == "0";
    hide NumeralText;
    NumeralReads(n);
    ScaledZero(0);
  }

  /** A printed number reads back rounded to six significant digits. */
  lemma GeneralReads(d: real)
    ensures ParseFloat(General(d)) == Some(Finite(Rounded(d)))
  {
    hide NumeralText, Layout, Six, ParseMagnitude, Strip, IsSpace;
    GeneralIsWord(d);
    StripTrimmed(General(d));
    if d == 0.0 {
      ZeroReads();
    } else if d < 0.0 {
      LayoutReads(-d);
      assert General(d)[1..] == NumeralText(Layout(Six(-d)));
    } else {
      LayoutReads(d);
    }
  }

  /** So it reads back unchanged exactly when six significant digits can write it. */
  lemma GeneralExactly(d: real)
    ensures ParseFloat(General(d)) == Some(Finite(d)) <==> SixDigits(d)
  {
    hide SixDigits, Rounded, General, ParseFloat;
    GeneralReads(d);
    RoundedExactly(d);
  }

  lemma SixOfSeven()
    ensures Six(1.000001) == Scientific(100_000, 0)
  {
    var d := 1.000001;
    assert Pow10(0) == 1.0 && Pow10(1) == 10.0 && Pow10(-5) == 0.00001;
    hide Pow10, Exponent;
    ExponentUnique(d, 0);
    assert d / 0.00001 == 100_000.1;
  }

  /** A seventh digit is lost: 1.000001 comes back as 1. */
  lemma SeventhDigitIsLost()
    ensures ParseFloat(General(1.000001)) == Some(Finite(1.0)) && !SixDigits(1.000001)
  {
    SixOfSeven();
    assert Pow10(-5) == 0.00001;
    hide Pow10, Six, SixDigits, General, ParseFloat;
    GeneralReads(1.000001);
    RoundedExactly(1.000001);
  }

  // ---------------------------------------------------------------- special values

  function FloatText(x: Float): string {
    match x
    case Finite(d) => General(d)
    case Infinite(negative) => if negative then "-inf" else "inf"
    case NotANumber => "nan"
  }

  function RoundedFloat(x: Float): Float { if x.Finite? then Finite(Rounded(x.value)) else x }

  lemma FloatIsWord(x: Float)
    ensures FloatText(x) != "" && Word(FloatText(x))
  {
    hide General;
    if x.Finite? {
      GeneralIsWord(x.value);
    }
  }

  lemma SpecialReads(s: string, x: Float)
    requires (s == "inf" && x == Infinite(false)) || (s == "nan" && x == NotANumber)
    ensures ParseFloat(s) == Some(x) && ParseFloat("-" + s) == Some(Negative(x))
  {
    hide ParseUnsigned, Strip;
    StripTrimmed(s);
    StripTrimmed("-" + s);
    assert ("-" + s)[1..] == s;
    assert Lower(s) == s;
  }

  /** Every printed value reads back, a finite one rounded to six significant digits. */
  lemma FloatReads(x: Float)
    ensures ParseFloat(FloatText(x)) == Some(RoundedFloat(x))
  {
    hide General, Rounded, ParseFloat;
    match x
    case Finite(d) => GeneralReads(d);
    case Infinite(negative) =>
      SpecialReads("inf", Infinite(false));
      assert "-" + "inf" == "-inf";
    case NotANumber => SpecialReads("nan", NotANumber);
  }
}
