/** Order facts about products and quotients of exact numbers. */
module Arithmetic {
  function Max(a: real, b: real): real { if a < b then b else a }

  function Abs(a: real): real { if a < 0.0 then -a else a }

  /** Division by a positive number keeps the order of the numerators. */
  lemma DivideKeepsOrder(a: real, b: real, d: real)
    requires 0.0 < d
    ensures a <= b <==> a / d <= b / d
    ensures a < b <==> a / d < b / d
  {
    var x, y := a / d, b / d;
    assert x * d == a && y * d == b;
    if x <= y { MulKeepsOrder(x, y, d); } else { MulKeepsOrder(y, x, d); }
    if x < y { assert 0.0 < (y - x) * d; }
    if y < x { assert 0.0 < (x - y) * d; }
  }

  lemma NonNegative(a: real, b: real)
    requires 0.0 <= a && 0.0 <= b
    ensures 0.0 <= a * b
  {
  }

  lemma MulKeepsOrder(a: real, b: real, k: real)
    requires a <= b && 0.0 <= k
    ensures a * k <= b * k
    ensures k * a <= k * b
  {
  }

  lemma Distribute(k: real, x: real, y: real)
    ensures k * (x + y) == k * x + k * y
    ensures k * (x - y) == k * x - k * y
  {
  }

  lemma QuotientFalls(work: real, a: real, b: real)
    requires 0.0 <= work && 0.0 < a <= b
    ensures 0.0 <= work / b <= work / a
  {
    var x, y := work / a, work / b;
    assert x * a == work && y * b == work;
    if y < 0.0 { MulKeepsOrder(0.0, b, -y); }
    if x < y {
      MulKeepsOrder(a, b, y);
      assert (y - x) * a > 0.0;
    }
  }

  lemma PositiveProduct(a: real, b: real)
    requires 0.0 < a && 0.0 < b
    ensures 0.0 < a * b
  {
  }

  lemma MulStrict(k: real, x: real, y: real)
    requires 0.0 < k && x < y
    ensures k * x < k * y
  {
    PositiveProduct(k, y - x);
    Distribute(k, y, x);
  }

  /** A product as a term of its own, for proofs that only need its order. */
  function Product(a: real, b: real): real { a * b }

  lemma ProductRises(k: real, x: real, y: real)
    requires 0.0 < k && x < y
    ensures Product(k, x) < Product(k, y)
  {
    assert Product(k, y) - Product(k, x) == k * (y - x);
    PositiveProduct(k, y - x);
  }

  lemma ProductKeepsOrder(k: real, x: real, y: real)
    requires 0.0 < k && x <= y
    ensures Product(k, x) <= Product(k, y)
    ensures x < y ==> Product(k, x) < Product(k, y)
  {
    hide Product;
    if x < y {
      ProductRises(k, x, y);
    }
  }
}
