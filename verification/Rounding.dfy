/** Real numbers to six significant digits: the decimal exponent, rounding, and which numbers it leaves alone. */
module Rounding {
  import opened Arithmetic

  function Pow10(e: int): (p: real)
    ensures 0.0 < p
    decreases if e < 0 then -e else e
  {
    if e == 0 then 1.0 else if 0 < e then 10.0 * Pow10(e - 1) else Pow10(e + 1) / 10.0
  }

  lemma {:induction false} Pow10Step(e: int)
    ensures Pow10(e + 1) == 10.0 * Pow10(e)
    decreases if e < 0 then -e else e
  {
    if 0 < e {
      Pow10Step(e - 1);
    } else if e < 0 {
      Pow10Step(e + 1);
    }
  }

  lemma {:induction false} Pow10Add(a: int, b: int)
    ensures Pow10(a + b) == Product(Pow10(a), Pow10(b))
    decreases if b < 0 then -b else b
  {
    if b == 0 {
      assert Pow10(b) == 1.0;
    } else if 0 < b {
      hide Product, Pow10;
      Pow10Add(a, b - 1);
      assert Pow10(a + (b - 1)) == Pow10(a + b - 1);
      Pow10Step(a + b - 1);
      Pow10Step(b - 1);
      Tenfold(Pow10(a), Pow10(b - 1), Pow10(b));
    } else {
      hide Product, Pow10;
      Pow10Add(a, b + 1);
      assert Pow10(a + (b + 1)) == Pow10(a + b + 1);
      Pow10Step(a + b);
      Pow10Step(b);
      Tenfold(Pow10(a), Pow10(b), Pow10(b + 1));
    }
  }

  lemma Tenfold(a: real, b: real, b10: real)
    requires b10 == 10.0 * b
    ensures Product(a, b10) == 10.0 * Product(a, b)
  {
    assert a * b10 == 10.0 * (a * b);
  }

  /** A number with its point moved: `places` to the right, or to the left if negative. */
  function Scaled(x: real, places: int): real { Product(x, Pow10(places)) }

  lemma ScaledByNone(x: real)
    ensures Scaled(x, 0) == x
  {
    assert Pow10(0) == 1.0;
  }

  lemma ScaledZero(places: int)
    ensures Scaled(0.0, places) == 0.0
  {
  }

  lemma ScaledTwice(x: real, a: int, b: int)
    ensures Scaled(Scaled(x, a), b) == Scaled(x, a + b)
  {
    Pow10Add(a, b);
    hide Pow10;
    assert (x * Pow10(a)) * Pow10(b) == x * (Pow10(a) * Pow10(b));
  }

  lemma ScaledSum(x: real, y: real, places: int)
    ensures Scaled(x + y, places) == Scaled(x, places) + Scaled(y, places)
  {
    hide Pow10;
    Distribute(Pow10(places), x, y);
  }

  lemma ScaledStep(x: real, places: int)
    ensures Scaled(x, places + 1) == 10.0 * Scaled(x, places) == Scaled(10.0 * x, places)
  {
    Pow10Step(places);
    hide Pow10;
    Tenfold(x, Pow10(places), Pow10(places + 1));
    assert (10.0 * x) * Pow10(places) == 10.0 * (x * Pow10(places));
  }

  lemma {:induction false} Pow10Rises(a: int, b: int)
    requires a <= b
    ensures 0.0 < Pow10(a) <= Pow10(b)
    ensures a < b ==> 10.0 * Pow10(a) <= Pow10(b)
    decreases b - a
  {
    Pow10Step(a);
    if a < b {
      Pow10Rises(a + 1, b);
    }
  }

  function ExponentUp(d: real): nat
    requires 1.0 <= d
    decreases d
  {
    if d < 10.0 then 0 else ExponentUp(d / 10.0) + 1
  }

  function ExponentDown(d: real): int
    requires 0.0 < d < 1.0
    decreases 1.0 / d
  {
    if 1.0 <= 10.0 * d then -1
    else
      Tenth(d);
      ExponentDown(10.0 * d) - 1
  }

  lemma Tenth(d: real)
    requires 0.0 < d && 10.0 * d < 1.0
    ensures 0.0 < 1.0 / (10.0 * d) <= 1.0 / d - 1.0
  {
    var q := 1.0 / d;
    assert q * d == 1.0;
    assert (q / 10.0) * (10.0 * d) == 1.0;
    assert 1.0 / (10.0 * d) == q / 10.0;
    assert 10.0 < q by {
      if q <= 10.0 { MulKeepsOrder(q, 10.0, d); }
    }
  }

  /** Where the leading digit stands. */
  function Exponent(d: real): int
    requires 0.0 < d
  {
    if 1.0 <= d then ExponentUp(d) else ExponentDown(d)
  }

  lemma {:induction false} UpBounds(d: real)
    requires 1.0 <= d
    ensures Pow10(ExponentUp(d)) <= d < Pow10(ExponentUp(d) + 1)
    decreases d
  {
    if d < 10.0 {
      assert Pow10(0) == 1.0 && Pow10(1) == 10.0;
    } else {
      UpBounds(d / 10.0);
      Pow10Step(ExponentUp(d / 10.0));
      Pow10Step(ExponentUp(d));
    }
  }

  lemma {:induction false} DownBounds(d: real)
    requires 0.0 < d < 1.0
    ensures Pow10(ExponentDown(d)) <= d < Pow10(ExponentDown(d) + 1)
    decreases 1.0 / d
  {
    if 1.0 <= 10.0 * d {
      assert Pow10(-1) == 0.1 && Pow10(0) == 1.0;
    } else {
      Tenth(d);
      DownBounds(10.0 * d);
      Pow10Step(ExponentDown(d));
      Pow10Step(ExponentDown(10.0 * d));
    }
  }

  lemma ExponentBounds(d: real)
    requires 0.0 < d
    ensures Pow10(Exponent(d)) <= d < Pow10(Exponent(d) + 1)
  {
    if 1.0 <= d {
      UpBounds(d);
    } else {
      DownBounds(d);
    }
  }

  lemma ExponentUnique(d: real, e: int)
    requires 0.0 < d && Pow10(e) <= d < Pow10(e + 1)
    ensures e == Exponent(d)
  {
    ExponentBounds(d);
    if e < Exponent(d) {
      Pow10Rises(e + 1, Exponent(d));
    }
    if Exponent(d) < e {
      Pow10Rises(Exponent(d) + 1, e);
    }
  }

  // ---------------------------------------------------------------- six significant digits

  /** To the nearest integer, ties to the even one. */
  function RoundHalfEven(x: real): int {
    var below := x.Floor;
    var over := x - below as real;
    if over < 0.5 || (over == 0.5 && below % 2 == 0) then below else below + 1
  }

  /** A mantissa of six digits and the place of its first one. */
  datatype Scientific = Scientific(mantissa: nat, exponent: int) {
    predicate Valid() { 100_000 <= mantissa < 1_000_000 }

    function Amount(): real { Scaled(mantissa as real, exponent - 5) }
  }

  lemma FivePlaces(e: int)
    ensures Pow10(e) == 100_000.0 * Pow10(e - 5) && Pow10(e + 1) == 1_000_000.0 * Pow10(e - 5)
  {
    Pow10Step(e);
    Pow10Step(e - 1);
    Pow10Step(e - 2);
    Pow10Step(e - 3);
    Pow10Step(e - 4);
    Pow10Step(e - 5);
    hide Pow10;
  }

  lemma MantissaBounds(d: real)
    requires 0.0 < d
    ensures 100_000.0 <= d / Pow10(Exponent(d) - 5) < 1_000_000.0
  {
    hide Pow10, Exponent;
    ExponentBounds(d);
    FivePlaces(Exponent(d));
    Quotient(d, Pow10(Exponent(d) - 5), 100_000.0, 1_000_000.0);
  }

  lemma Quotient(d: real, unit: real, low: real, high: real)
    requires 0.0 < unit && low * unit <= d < high * unit
    ensures low <= d / unit < high
  {
    DivideKeepsOrder(low * unit, d, unit);
    DivideKeepsOrder(d, high * unit, unit);
    assert low * unit / unit == low && high * unit / unit == high;
  }

  function Six(d: real): (x: Scientific)
    requires 0.0 < d
    ensures x.Valid()
  {
    MantissaBounds(d);
    var e := Exponent(d);
    var m := RoundHalfEven(d / Pow10(e - 5));
    if m == 1_000_000 then Scientific(100_000, e + 1) else Scientific(m, e)
  }

  /** A number kept to six significant digits. */
  function Rounded(d: real): real {
    if d == 0.0 then 0.0 else if d < 0.0 then -Six(-d).Amount() else Six(d).Amount()
  }

  lemma HalfEven(x: real)
    ensures var m := RoundHalfEven(x);
            -0.5 <= m as real - x <= 0.5 && (m as real - x == 0.5 || m as real - x == -0.5 ==> m % 2 == 0)
  {
  }

  lemma Unrounded(m: real, q: real, unit: real)
    requires 0.0 < unit && -0.5 <= m - q <= 0.5
    ensures Product(q, unit) - unit / 2.0 <= Product(m, unit) <= Product(q, unit) + unit / 2.0
  {
    var less, more := 0.5 - (m - q), 0.5 + (m - q);
    NonNegative(less, unit);
    NonNegative(more, unit);
    assert less * unit == unit / 2.0 - m * unit + q * unit;
    assert more * unit == unit / 2.0 + m * unit - q * unit;
  }

  lemma Restored(d: real, unit: real)
    requires unit != 0.0
    ensures Product(d / unit, unit) == d
  {
  }

  lemma SixAmount(d: real)
    requires 0.0 < d
    ensures var unit := Pow10(Exponent(d) - 5);
            Six(d).Amount() == Product(RoundHalfEven(d / unit) as real, unit) && Product(d / unit, unit) == d
  {
    hide Pow10, Exponent, RoundHalfEven, Product;
    var e := Exponent(d);
    MantissaBounds(d);
    Restored(d, Pow10(e - 5));
    ScaledStep(100_000.0, e - 5);
  }

  /** Rounding is to the nearest: off by at most half a unit of the sixth digit, and alike on both sides of zero. */
  lemma RoundedNearest(d: real)
    requires 0.0 < d
    ensures var unit := Pow10(Exponent(d) - 5); d - unit / 2.0 <= Rounded(d) <= d + unit / 2.0
    ensures Rounded(-d) == -Rounded(d)
  {
    SixAmount(d);
    hide Pow10, Exponent, RoundHalfEven, Product, Six;
    var unit := Pow10(Exponent(d) - 5);
    HalfEven(d / unit);
    Unrounded(RoundHalfEven(d / unit) as real, d / unit, unit);
  }

  /** Half-way between two six-digit numbers, the one with the even digit is taken. */
  lemma TiesToEven(d: real)
    requires 0.0 < d
    ensures var q := d / Pow10(Exponent(d) - 5);
            q - q.Floor as real == 0.5 ==>
              Rounded(d) == Product((if q.Floor % 2 == 0 then q.Floor else q.Floor + 1) as real, Pow10(Exponent(d) - 5))
  {
    SixAmount(d);
    hide Pow10, Exponent, Product, Six;
  }

  /** A number that six significant digits can write. */
  ghost predicate SixDigits(d: real) {
    exists m: int, e: int :: Written(d, m, e)
  }

  predicate Written(d: real, m: int, e: int) { -1_000_000 < m < 1_000_000 && d == Scaled(m as real, e) }

  lemma {:induction false} Normalised(d: real, m: nat, e: int) returns (x: Scientific)
    requires 0 < m < 1_000_000 && d == Scaled(m as real, e)
    ensures x.Valid() && d == x.Amount()
    decreases 1_000_000 - m
  {
    hide Scaled;
    if 100_000 <= m {
      x := Scientific(m, e + 5);
    } else {
      ScaledStep(m as real, e - 1);
      assert (10 * m) as real == 10.0 * m as real;
      x := Normalised(d, 10 * m, e - 1);
    }
  }

  lemma InItsDecade(m: real, unit: real, d: real)
    requires 100_000.0 <= m < 1_000_000.0 && 0.0 < unit && d == m * unit
    ensures 0.0 < 100_000.0 * unit <= d < 1_000_000.0 * unit && d / unit == m
  {
    MulKeepsOrder(100_000.0, m, unit);
    MulStrict(unit, m, 1_000_000.0);
  }

  lemma SixOf(d: real, m: nat, e: int)
    requires Scientific(m, e).Valid() && d == Scaled(m as real, e - 5)
    ensures 0.0 < d && Six(d) == Scientific(m, e)
  {
    hide Pow10, Exponent;
    InItsDecade(m as real, Pow10(e - 5), d);
    FivePlaces(e);
    ExponentUnique(d, e);
    assert RoundHalfEven(m as real) == m;
  }

  lemma ScaledNegated(x: real, places: int)
    ensures Scaled(-x, places) == -Scaled(x, places)
  {
    hide Pow10;
  }

  lemma AmountIsWritten(d: real)
    requires 0.0 < d && Six(d).Amount() == d
    ensures SixDigits(d)
  {
    hide Scaled;
    var x := Six(d);
    var m: int := x.mantissa;
    assert Written(d, m, x.exponent - 5);
  }

  lemma PositiveExactly(d: real)
    requires 0.0 < d
    ensures Six(d).Amount() == d <==> SixDigits(d)
  {
    hide Six, Scaled;
    if Six(d).Amount() == d {
      AmountIsWritten(d);
    }
    if m: int, e: int :| Written(d, m, e) {
      SignOf(m, e, d);
      var x := Normalised(d, m, e);
      SixOf(d, x.mantissa, x.exponent);
    }
  }

  /** Keeping six significant digits changes nothing exactly when there are no more than six. */
  lemma RoundedExactly(d: real)
    ensures Rounded(d) == d <==> SixDigits(d)
  {
    hide Six, SixDigits;
    if d == 0.0 {
      ZeroIsWritten();
    } else if 0.0 < d {
      PositiveExactly(d);
    } else {
      PositiveExactly(-d);
      if SixDigits(d) { Negated(d); }
      if SixDigits(-d) { Negated(-d); }
    }
  }

  lemma ZeroIsWritten()
    ensures SixDigits(0.0)
  {
    ScaledZero(0);
    assert Written(0.0, 0, 0);
  }

  lemma Negated(d: real)
    requires SixDigits(d)
    ensures SixDigits(-d)
  {
    hide Scaled;
    var m: int, e: int :| Written(d, m, e);
    ScaledNegated(m as real, e);
    assert (-m) as real == -(m as real);
    assert Written(-d, -m, e);
  }

  lemma SignOf(m: int, e: int, d: real)
    requires d == Scaled(m as real, e) && 0.0 < d
    ensures 0 < m
  {
    hide Pow10;
    if m <= 0 {
      NonNegative((-m) as real, Pow10(e));
    }
  }
}
