/** The two controllers that map the buffer level straight onto the ladder: evenly spaced bands, and BOLA. */
module Thresholds {
  import opened Arithmetic
  import opened Ladder

  lemma CrossMultiply(a: real, m: real, b: real)
    requires 0.0 < m
    ensures a / m <= b <==> a <= b * m
  {
    DivideKeepsOrder(a, b * m, m);
    assert b * m / m == b;
  }

  // ---------------------------------------------------------------- evenly spaced bands

  datatype Bands = Bands(reserve: real, cap: real)

  predicate ValidBands(b: Bands) { b.reserve < b.cap }

  /** The buffer level at which the controller moves up to a level. */
  function Threshold(b: Bands, n: nat, i: nat): real
    requires 2 <= n
  {
    b.reserve + (b.cap - b.reserve) * i as real / (n - 1) as real
  }

  function ThresholdsOf(b: Bands, n: nat): (t: seq<real>)
    requires 2 <= n
    ensures |t| == n
  {
    seq(n, (i: nat) => Threshold(b, n, i))
  }

  function BandLevel(b: Bands, n: nat, buffer: real): (level: nat)
    requires 2 <= n
    ensures level < n
  {
    if buffer <= b.reserve then 0
    else if b.cap <= buffer then n - 1
    else LastFitting(ThresholdsOf(b, n), buffer)
  }

  class BufferBasedABR {
    const ladder: Ladder
    const bands: Bands
    const thresholds: seq<real>

    ghost predicate Valid() {
      2 <= |ladder| && ValidBands(bands) && thresholds == ThresholdsOf(bands, |ladder|)
    }

    constructor (ladder: Ladder, reserve: real, cap: real)
      requires 2 <= |ladder| && reserve < cap
      ensures Valid() && this.ladder == ladder && bands == Bands(reserve, cap)
    {
      this.ladder, bands := ladder, Bands(reserve, cap);
      thresholds := seq(|ladder|, (i: nat) => Threshold(Bands(reserve, cap), |ladder|, i));
    }

    method Select(buffer: real) returns (index: nat)
      requires Valid()
      ensures index == BandLevel(bands, |ladder|, buffer)
    {
      hide Threshold;
      if buffer <= bands.reserve {
        return 0;
      }
      if bands.cap <= buffer {
        return |ladder| - 1;
      }
      index := 0;
      var i := 0;
      while i < |thresholds|
        invariant 0 <= i <= |thresholds|
        invariant Climb(thresholds, buffer) == i + Climb(thresholds[i..], buffer)
        invariant index == if i == 0 then 0 else i - 1
      {
        if buffer < thresholds[i] {
          break;
        }
        index := i;
        assert thresholds[i..][1..] == thresholds[i + 1..];
        i := i + 1;
      }
    }
  }

  /** Where the buffer stands on the bands' own scale, level 0 at the reserve and the top level at the cap. */
  function BandScale(b: Bands, n: nat, buffer: real): real
    requires 2 <= n && ValidBands(b)
  {
    (buffer - b.reserve) * (n - 1) as real / (b.cap - b.reserve)
  }

  lemma ThresholdOnScale(b: Bands, n: nat, i: nat, buffer: real)
    requires 2 <= n && ValidBands(b)
    ensures Threshold(b, n, i) <= buffer <==> i as real <= BandScale(b, n, buffer)
  {
    var width, steps, above := b.cap - b.reserve, (n - 1) as real, buffer - b.reserve;
    CrossMultiply(width * i as real, steps, above);
    CrossMultiply(above * steps, width, i as real);
    DivideKeepsOrder(i as real * width, above * steps, width);
    assert i as real * width / width == i as real;
  }

  lemma ScaleAt(b: Bands, n: nat, i: nat)
    requires 2 <= n && ValidBands(b)
    ensures BandScale(b, n, Threshold(b, n, i)) == i as real
    ensures Threshold(b, n, 0) == b.reserve && Threshold(b, n, n - 1) == b.cap
  {
    var width, steps := b.cap - b.reserve, (n - 1) as real;
    assert width * i as real / steps * steps == width * i as real;
    assert width * i as real / width == i as real;
    assert width * steps / steps == width;
    assert width * 0.0 / steps == 0.0;
  }

  lemma ThresholdsRise(b: Bands, n: nat, i: nat, j: nat)
    requires 2 <= n && ValidBands(b)
    ensures Threshold(b, n, i) <= Threshold(b, n, j) <==> i <= j
  {
    ThresholdOnScale(b, n, i, Threshold(b, n, j));
    ScaleAt(b, n, j);
  }

  /** A level is reached exactly from its own threshold on. */
  lemma BandReached(b: Bands, n: nat, buffer: real, i: nat)
    requires 2 <= n && ValidBands(b) && i < n
    ensures i <= BandLevel(b, n, buffer) <==> i == 0 || Threshold(b, n, i) <= buffer
  {
    hide Threshold;
    var t := ThresholdsOf(b, n);
    ScaleAt(b, n, 0);
    ThresholdsRise(b, n, i, n - 1);
    ThresholdsRise(b, n, 0, i);
    ThresholdsRise(b, n, i, 0);
    assert t[i] == Threshold(b, n, i);
    var k := Climb(t, buffer);
    if k < n {
      assert t[k] == Threshold(b, n, k);
      ThresholdsRise(b, n, k, i);
    }
  }

  /** The scan equals arithmetic: the floor of the position on the scale, clamped to the ladder. */
  lemma BandsAreArithmetic(b: Bands, ladder: Ladder, buffer: real)
    requires 2 <= |ladder| && ValidBands(b)
    ensures BandLevel(b, |ladder|, buffer)
         == Clamp(ladder, ((buffer - b.reserve) * (|ladder| - 1) as real / (b.cap - b.reserve)).Floor)
  {
    assert BandScale(b, |ladder|, buffer) == (buffer - b.reserve) * (|ladder| - 1) as real / (b.cap - b.reserve);
    hide BandLevel, BandScale, Threshold;
    var n, r := |ladder|, Clamp(ladder, BandScale(b, |ladder|, buffer).Floor);
    BandReached(b, n, buffer, r);
    ThresholdOnScale(b, n, r, buffer);
    if r + 1 < n {
      BandReached(b, n, buffer, r + 1);
      ThresholdOnScale(b, n, r + 1, buffer);
    }
  }

  /** The two saturation returns before the scan change nothing. */
  lemma BandSaturationIsRedundant(b: Bands, n: nat, buffer: real)
    requires 2 <= n && ValidBands(b)
    ensures BandLevel(b, n, buffer) == LastFitting(ThresholdsOf(b, n), buffer)
  {
    hide Threshold;
    ScaleAt(b, n, 0);
    var t := ThresholdsOf(b, n);
    var k := Climb(t, buffer);
    if k < n {
      ThresholdsRise(b, n, k, n - 1);
    }
    if 1 < k {
      ThresholdsRise(b, n, 1, 0);
      assert t[1] <= buffer;
    }
  }

  /** More buffer never lowers the level, and every level is chosen at its threshold. */
  lemma {:induction false} BandsMonotoneOnto(b: Bands, n: nat, low: real, high: real, i: nat)
    requires 2 <= n && ValidBands(b) && low <= high && i < n
    ensures BandLevel(b, n, low) <= BandLevel(b, n, high)
    ensures BandLevel(b, n, Threshold(b, n, i)) == i
  {
    hide BandLevel, Threshold;
    var k := BandLevel(b, n, low);
    BandReached(b, n, low, k);
    BandReached(b, n, high, k);
    BandReached(b, n, Threshold(b, n, i), i);
    if i + 1 < n {
      BandReached(b, n, Threshold(b, n, i), i + 1);
      ThresholdsRise(b, n, i + 1, i);
    }
  }

  // ---------------------------------------------------------------- BOLA

  datatype Bola = Bola(low: real, high: real)

  predicate ValidBola(c: Bola, ladder: Ladder) { c.low < c.high && ladder != [] && ladder[|ladder| - 1] != 0.0 }

  function Weight(c: Bola, ladder: Ladder): real
    requires ValidBola(c, ladder)
  {
    var top := Quality(ladder, |ladder| - 1);
    if 0.0 < top then (c.high - c.low) / top else 1.0
  }

  lemma WeightIsSpan(c: Bola, ladder: Ladder)
    requires ValidBola(c, ladder)
    ensures Weight(c, ladder) == c.high - c.low && 0.0 < Weight(c, ladder)
  {
    var top := ladder[|ladder| - 1];
    assert top / top == 1.0;
    assert (c.high - c.low) / 1.0 == c.high - c.low;
  }

  function Utility(c: Bola, ladder: Ladder, i: nat): real
    requires ValidBola(c, ladder) && i < |ladder|
  {
    WeightIsSpan(c, ladder);
    Quality(ladder, i) - Quality(ladder, 0) + c.low / Weight(c, ladder)
  }

  function Score(c: Bola, ladder: Ladder, i: nat, buffer: real): real
    requires ValidBola(c, ladder) && i < |ladder|
  {
    Weight(c, ladder) * Utility(c, ladder, i) - buffer
  }

  /** The first level from `i` on whose utility covers the buffer, else the top level. */
  function FirstCovering(c: Bola, ladder: Ladder, buffer: real, i: nat): (k: nat)
    requires ValidBola(c, ladder) && i <= |ladder|
    ensures k < |ladder|
    ensures i < |ladder| ==> i <= k && (k < |ladder| - 1 ==> 0.0 <= Score(c, ladder, k, buffer))
    ensures forall j :: i <= j < k ==> Score(c, ladder, j, buffer) < 0.0
    decreases |ladder| - i
  {
    if i == |ladder| then |ladder| - 1
    else if 0.0 <= Score(c, ladder, i, buffer) then i
    else FirstCovering(c, ladder, buffer, i + 1)
  }

  function BolaLevel(c: Bola, ladder: Ladder, buffer: real): (level: nat)
    requires ValidBola(c, ladder)
    ensures level < |ladder|
  {
    if buffer <= c.low then 0
    else if c.high <= buffer then |ladder| - 1
    else FirstCovering(c, ladder, buffer, 0)
  }

  class BOLA {
    const ladder: Ladder
    const settings: Bola
    const weight: real
    const utilities: seq<real>

    ghost predicate Valid() {
      && ValidBola(settings, ladder) && weight == Weight(settings, ladder) && |utilities| == |ladder|
      && forall i :: 0 <= i < |ladder| ==> utilities[i] == Utility(settings, ladder, i)
    }

    constructor (ladder: Ladder, low: real, high: real)
      requires ladder != [] && ladder[|ladder| - 1] != 0.0 && low < high
      ensures Valid() && this.ladder == ladder && settings == Bola(low, high)
    {
      var c := Bola(low, high);
      this.ladder, settings, weight := ladder, c, Weight(c, ladder);
      utilities := seq(|ladder|, (i: nat) requires i < |ladder| => Utility(c, ladder, i));
    }

    function ScoreOf(index: nat, buffer: real): (score: real)
      requires Valid() && index < |ladder|
      ensures score == Score(settings, ladder, index, buffer)
    {
      weight * utilities[index] - buffer
    }

    method Select(buffer: real) returns (index: int)
      requires Valid()
      ensures index == BolaLevel(settings, ladder, buffer)
    {
      hide Utility, Weight, Score;
      if buffer <= settings.low {
        return 0;
      }
      if settings.high <= buffer {
        return |ladder| - 1;
      }
      var chosen := |ladder| - 1;
      var i := 0;
      while i < |ladder|
        invariant 0 <= i <= |ladder| && chosen == |ladder| - 1
        invariant FirstCovering(settings, ladder, buffer, 0) == FirstCovering(settings, ladder, buffer, i)
      {
        if 0.0 <= ScoreOf(i, buffer) {
          chosen := i;
          break;
        }
        i := i + 1;
      }
      index := Clamp(ladder, chosen);
    }
  }

  function Lift(span: real, first: real, quality: real): real { Product(span, quality - first) }

  /** The buffer level up to which a level's utility covers the buffer. */
  function Cover(c: Bola, ladder: Ladder, i: nat): real
    requires ValidBola(c, ladder) && i < |ladder|
  {
    c.low + Lift(c.high - c.low, Quality(ladder, 0), Quality(ladder, i))
  }

  lemma ScoreIsDistance(c: Bola, ladder: Ladder, i: nat, buffer: real)
    requires ValidBola(c, ladder) && i < |ladder|
    ensures Score(c, ladder, i, buffer) == Cover(c, ladder, i) - buffer
  {
    WeightIsSpan(c, ladder);
    var span, rise := c.high - c.low, Quality(ladder, i) - Quality(ladder, 0);
    Distribute(span, rise, c.low / span);
    assert span * (c.low / span) == c.low;
  }

  lemma CoversRise(c: Bola, ladder: Ladder, i: nat, j: nat)
    requires ValidBola(c, ladder) && Rising(ladder) && i <= j < |ladder|
    ensures c.low <= Cover(c, ladder, i) <= Cover(c, ladder, j) < c.high
    ensures Cover(c, ladder, 0) == c.low
    ensures i < j ==> Cover(c, ladder, i) < Cover(c, ladder, j)
  {
    hide Quality, Lift;
    QualityRises(ladder, 0, i);
    QualityRises(ladder, i, j);
    CoverGrows(c.high - c.low, Quality(ladder, 0), Quality(ladder, i), Quality(ladder, j));
  }

  lemma CoverGrows(span: real, first: real, a: real, b: real)
    requires 0.0 < span && 0.0 < first <= a <= b <= 1.0
    ensures 0.0 == Lift(span, first, first) <= Lift(span, first, a) <= Lift(span, first, b) < span
    ensures a < b ==> Lift(span, first, a) < Lift(span, first, b)
  {
    assert Product(span, 0.0) == 0.0 && Product(span, 1.0) == span;
    hide Product;
    ProductKeepsOrder(span, first - first, a - first);
    ProductKeepsOrder(span, a - first, b - first);
    ProductKeepsOrder(span, b - first, 1.0);
  }

  /** The level is the least whose cover reaches the buffer, or the top level when none does. */
  lemma {:induction false} BolaIsLeastCover(c: Bola, ladder: Ladder, buffer: real, i: nat)
    requires ValidBola(c, ladder) && Rising(ladder) && i < |ladder|
    ensures BolaLevel(c, ladder, buffer) <= i <==> i == |ladder| - 1 || buffer <= Cover(c, ladder, i)
  {
    hide Score, Cover, Quality;
    CoversRise(c, ladder, 0, i);
    ScoreIsDistance(c, ladder, i, buffer);
    var k := FirstCovering(c, ladder, buffer, 0);
    ScoreIsDistance(c, ladder, k, buffer);
    if k <= i {
      CoversRise(c, ladder, k, i);
    }
  }

  lemma CoverInBitrates(c: Bola, ladder: Ladder, i: nat, buffer: real)
    requires ValidBola(c, ladder) && Rising(ladder) && i < |ladder|
    ensures buffer <= Cover(c, ladder, i)
            <==> (buffer - c.low) * ladder[|ladder| - 1] <= (c.high - c.low) * (ladder[i] - ladder[0])
  {
    var top, span := ladder[|ladder| - 1], c.high - c.low;
    var q, q0 := Quality(ladder, i), Quality(ladder, 0);
    assert q * top == ladder[i] && q0 * top == ladder[0];
    hide Quality;
    Distribute(top, q, q0);
    assert span * (q - q0) * top == span * ((q - q0) * top);
    DivideKeepsOrder((buffer - c.low) * top, span * (q - q0) * top, top);
    Cancelled(buffer - c.low, top);
    Cancelled(span * (q - q0), top);
  }

  lemma Cancelled(x: real, top: real)
    requires top != 0.0
    ensures x * top / top == x
  {
  }

  /**
   In seconds and bitrates: a level is not exceeded exactly when it is the top one, or the buffer's share
   of the way from the low to the high mark is at most the level's bitrate above the lowest, as a share
   of the top bitrate.
   */
  lemma BolaInBitrates(c: Bola, ladder: Ladder, buffer: real, i: nat)
    requires ValidBola(c, ladder) && Rising(ladder) && i < |ladder|
    ensures BolaLevel(c, ladder, buffer) <= i
            <==> i == |ladder| - 1
                 || (buffer - c.low) * ladder[|ladder| - 1] <= (c.high - c.low) * (ladder[i] - ladder[0])
  {
    BolaIsLeastCover(c, ladder, buffer, i);
    hide BolaLevel, Cover;
    CoverInBitrates(c, ladder, i, buffer);
  }

  lemma {:induction false} BolaSaturationIsRedundant(c: Bola, ladder: Ladder, buffer: real)
    requires ValidBola(c, ladder) && Rising(ladder)
    ensures BolaLevel(c, ladder, buffer) == FirstCovering(c, ladder, buffer, 0)
  {
    hide Score, Cover, Quality;
    var k := FirstCovering(c, ladder, buffer, 0);
    ScoreIsDistance(c, ladder, k, buffer);
    ScoreIsDistance(c, ladder, 0, buffer);
    CoversRise(c, ladder, 0, k);
  }

  /** More buffer never lowers the level, and every level is chosen at the end of its cover. */
  lemma BolaMonotoneOnto(c: Bola, ladder: Ladder, low: real, high: real, i: nat)
    requires ValidBola(c, ladder) && Rising(ladder) && low <= high && i < |ladder|
    ensures BolaLevel(c, ladder, low) <= BolaLevel(c, ladder, high)
    ensures BolaLevel(c, ladder, Cover(c, ladder, i)) == i
  {
    hide BolaLevel, Cover;
    var k := BolaLevel(c, ladder, high);
    BolaIsLeastCover(c, ladder, low, k);
    BolaIsLeastCover(c, ladder, high, k);
    var at := Cover(c, ladder, i);
    BolaIsLeastCover(c, ladder, at, i);
    if 0 < i {
      BolaIsLeastCover(c, ladder, at, i - 1);
      CoversRise(c, ladder, i - 1, i);
    }
  }
}
