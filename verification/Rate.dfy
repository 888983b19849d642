/** Throughput: the shaped download, its smoothing, and the controller that follows it. */
module Rate {
  import opened Wrappers
  import opened Arithmetic
  import opened Ladder

  // ---------------------------------------------------------------- exponential smoothing

  predicate GoodAlpha(alpha: real) { 0.0 < alpha <= 1.0 }

  function Smoothed(alpha: real, estimate: Option<real>, sample: real): real {
    if estimate.None? then sample else alpha * sample + (1.0 - alpha) * estimate.value
  }

  class EWMA {
    const alpha: real
    var value: Option<real>
    var samples: nat

    constructor (alpha: real, initial: Option<real>)
      requires GoodAlpha(alpha)
      ensures this.alpha == alpha && value == initial && samples == 0
    {
      this.alpha, value, samples := alpha, initial, 0;
    }

    method Update(throughput: real) returns (estimate: real)
      modifies this
      ensures value == Some(estimate) && estimate == Smoothed(alpha, old(value), throughput)
      ensures samples == old(samples) + 1
    {
      if value.None? {
        value := Some(throughput);
      } else {
        value := Some(alpha * throughput + (1.0 - alpha) * value.value);
      }
      samples := samples + 1;
      return value.value;
    }
  }

  /** The estimate after a series of samples. */
  function Estimate(alpha: real, initial: Option<real>, samples: seq<real>): Option<real> {
    if samples == [] then initial
    else Some(Smoothed(alpha, Estimate(alpha, initial, samples[..|samples| - 1]), samples[|samples| - 1]))
  }

  ghost predicate Within(low: real, high: real, samples: seq<real>) {
    forall i :: 0 <= i < |samples| ==> low <= samples[i] <= high
  }

  lemma Mix(alpha: real, a: real, b: real, low: real, high: real)
    requires 0.0 <= alpha <= 1.0 && low <= a <= high && low <= b <= high
    ensures low <= alpha * a + (1.0 - alpha) * b <= high
  {
    NonNegative(alpha, a - low);
    NonNegative(alpha, high - a);
    NonNegative(1.0 - alpha, b - low);
    NonNegative(1.0 - alpha, high - b);
  }

  /** Smoothing from scratch stays between the smallest and the largest sample. */
  lemma {:induction false} EstimateWithin(alpha: real, samples: seq<real>, low: real, high: real)
    requires GoodAlpha(alpha) && samples != [] && Within(low, high, samples)
    ensures var e := Estimate(alpha, None, samples); e.Some? && low <= e.value <= high
    decreases |samples|
  {
    var before, last := samples[..|samples| - 1], samples[|samples| - 1];
    if before != [] {
      assert forall i :: 0 <= i < |before| ==> before[i] == samples[i];
      EstimateWithin(alpha, before, low, high);
      Mix(alpha, last, Estimate(alpha, None, before).value, low, high);
    }
  }

  function Power(x: real, k: nat): real { if k == 0 then 1.0 else x * Power(x, k - 1) }

  function Constant(c: real, k: nat): seq<real> { seq(k, _ => c) }

  lemma SmoothTowards(alpha: real, c: real, x: real)
    ensures alpha * c + (1.0 - alpha) * (c + x) == c + (1.0 - alpha) * x
  {
  }

  lemma Associate(a: real, b: real, c: real)
    ensures a * (b * c) == (a * b) * c
  {
  }

  function Offset(c: real, factor: real, error: real): real { c + factor * error }

  lemma GeometricStep(alpha: real, c: real, e: real, p: real, next: real)
    requires next == (1.0 - alpha) * p
    ensures Smoothed(alpha, Some(Offset(c, p, e)), c) == Offset(c, next, e)
  {
    SmoothTowards(alpha, c, p * e);
    Associate(1.0 - alpha, p, e);
  }

  lemma OneMoreSample(alpha: real, initial: Option<real>, c: real, k: nat)
    requires 0 < k
    ensures Estimate(alpha, initial, Constant(c, k))
         == Some(Smoothed(alpha, Estimate(alpha, initial, Constant(c, k - 1)), c))
  {
    hide Smoothed;
    assert Constant(c, k)[..k - 1] == Constant(c, k - 1) && Constant(c, k)[k - 1] == c;
  }

  /** Under constant throughput the estimation error shrinks geometrically. */
  lemma {:induction false} GeometricError(alpha: real, start: real, c: real, k: nat)
    ensures Estimate(alpha, Some(start), Constant(c, k)) == Some(Offset(c, Power(1.0 - alpha, k), start - c))
    decreases k
  {
    if k == 0 {
      assert Power(1.0 - alpha, 0) == 1.0;
      assert Constant(c, 0) == [];
    } else {
      var p := Power(1.0 - alpha, k - 1);
      GeometricError(alpha, start, c, k - 1);
      assert Power(1.0 - alpha, k) == (1.0 - alpha) * p;
      hide Power, Estimate, Constant, Smoothed, Offset;
      OneMoreSample(alpha, Some(start), c, k);
      GeometricStep(alpha, c, start - c, p, Power(1.0 - alpha, k));
    }
  }

  /** Bernoulli: the geometric factor is at most the reciprocal of a line. */
  lemma {:induction false} Bernoulli(alpha: real, k: nat)
    requires GoodAlpha(alpha)
    ensures 0.0 <= Power(1.0 - alpha, k) && Power(1.0 - alpha, k) * (1.0 + k as real * alpha) <= 1.0
    decreases k
  {
    if k != 0 {
      Bernoulli(alpha, k - 1);
      var p, n := Power(1.0 - alpha, k - 1), (k - 1) as real;
      MulKeepsOrder(0.0, p, 1.0 - alpha);
      BernoulliStep(alpha, p, n);
      assert k as real == n + 1.0;
    }
  }

  lemma BernoulliStep(alpha: real, p: real, n: real)
    requires 0.0 < alpha <= 1.0 && 0.0 <= p && 0.0 <= n && p * (1.0 + n * alpha) <= 1.0
    ensures ((1.0 - alpha) * p) * (1.0 + (n + 1.0) * alpha) <= 1.0
  {
    var line := 1.0 + n * alpha;
    var rest := alpha * (n * alpha) + alpha * alpha;
    assert 0.0 <= n * alpha;
    MulKeepsOrder(0.0, n * alpha, alpha);
    MulKeepsOrder(0.0, alpha, alpha);
    MulKeepsOrder(0.0, rest, p);
    assert (1.0 - alpha) * (line + alpha) == line - rest;
    assert ((1.0 - alpha) * p) * (line + alpha) == p * line - p * rest;
  }

  // ---------------------------------------------------------------- the rate-based controller

  /** Decision on the estimate, or on the lowest bitrate while there is none. */
  function RateLevel(ladder: Ladder, safety: real, estimate: Option<real>): nat
    requires ladder != []
  {
    LastFitting(ladder, Limit(Usable(ladder, estimate), safety))
  }

  function Usable(ladder: Ladder, estimate: Option<real>): real
    requires ladder != []
  {
    if estimate.None? || estimate.value == 0.0 then ladder[0] else estimate.value
  }

  method SelectByRate(ladder: Ladder, safety: real, estimate: Option<real>) returns (index: nat)
    requires ladder != []
    ensures index == RateLevel(ladder, safety, estimate) && index < |ladder|
  {
    hide LastFitting, Limit;
    var throughput := if estimate.Some? && estimate.value != 0.0 then estimate.value else ladder[0];
    index := HighestFitting(ladder, throughput, safety);
  }

  lemma OnEstimate(ladder: Ladder, safety: real, e: real)
    requires ladder != [] && e != 0.0
    ensures RateLevel(ladder, safety, Some(e)) == LastFitting(ladder, safety * e)
  {
    assert Limit(e, safety) == safety * e;
  }

  /** No rung lies within the margin above the limit. */
  ghost predicate ClearAbove(ladder: Ladder, limit: real, margin: real) {
    forall i :: 0 <= i < |ladder| && limit < ladder[i] ==> limit + margin <= ladder[i]
  }

  /** No rung but the lowest lies at the limit or within the margin below it. */
  ghost predicate ClearBelow(ladder: Ladder, limit: real, margin: real) {
    forall i :: 1 <= i < |ladder| && ladder[i] <= limit ==> ladder[i] + margin <= limit
  }

  lemma SameRung(ladder: Ladder, a: real, b: real, margin: real)
    requires Rising(ladder) && 0.0 < margin
    requires if a <= b then ClearAbove(ladder, a, margin) && b < a + margin
             else ClearBelow(ladder, a, margin) && a - margin < b
    ensures LastFitting(ladder, b) == LastFitting(ladder, a)
  {
    hide LastFitting;
    HighestFits(ladder, a);
    HighestFits(ladder, b);
  }

  lemma AbsScaled(p: real, x: real)
    requires 0.0 <= p
    ensures Abs(p * x) == p * Abs(x)
  {
    if x < 0.0 {
      NonNegative(p, -x);
    } else {
      NonNegative(p, x);
    }
  }

  lemma ShrunkBy(p: real, line: real, size: real)
    requires 0.0 <= p && p * line <= 1.0 && 0.0 <= size
    ensures (p * size) * line <= size
  {
    NonNegative(1.0 - p * line, size);
    Associate(line, p, size);
  }

  lemma Bounded(p: real, x: real, line: real, c: real, value: real)
    requires 0.0 <= p && p * line <= 1.0 && value == Offset(c, p, x)
    ensures Abs(value - c) * line <= Abs(x)
  {
    AbsScaled(p, x);
    ShrunkBy(p, line, Abs(x));
    assert value - c == p * x;
    hide Abs;
  }

  /** After k samples the error is at most the initial one divided by 1 + k alpha. */
  lemma ErrorBound(alpha: real, start: real, c: real, k: nat)
    requires GoodAlpha(alpha)
    ensures var e := Estimate(alpha, Some(start), Constant(c, k));
            e.Some? && Abs(e.value - c) * (1.0 + k as real * alpha) <= Abs(start - c)
  {
    hide Estimate, Constant, Power, Abs, Offset;
    GeometricError(alpha, start, c, k);
    Bernoulli(alpha, k);
    Bounded(Power(1.0 - alpha, k), start - c, 1.0 + k as real * alpha, c,
            Estimate(alpha, Some(start), Constant(c, k)).value);
  }

  /** Smoothing a longer series is smoothing its tail from where its head ended. */
  lemma {:induction false} EstimateAppend(alpha: real, initial: Option<real>, xs: seq<real>, ys: seq<real>)
    ensures Estimate(alpha, initial, xs + ys) == Estimate(alpha, Estimate(alpha, initial, xs), ys)
    decreases |ys|
  {
    if ys == [] {
      assert xs + ys == xs;
    } else {
      hide Smoothed;
      var last := |ys| - 1;
      assert (xs + ys)[..|xs| + last] == xs + ys[..last];
      EstimateAppend(alpha, initial, xs, ys[..last]);
    }
  }

  /** The choice after a history and k more samples, all of them c. */
  function LevelAfter(ladder: Ladder, safety: real, alpha: real, history: seq<real>, c: real, k: nat): nat
    requires ladder != []
  {
    RateLevel(ladder, safety, Estimate(alpha, None, history + Constant(c, k)))
  }

  lemma LevelAfterIs(ladder: Ladder, safety: real, alpha: real, history: seq<real>, start: real, c: real, k: nat)
    requires ladder != [] && Estimate(alpha, None, history) == Some(start)
    ensures LevelAfter(ladder, safety, alpha, history, c, k)
         == RateLevel(ladder, safety, Some(Offset(c, Power(1.0 - alpha, k), start - c)))
  {
    hide RateLevel, Offset, Power;
    EstimateAppend(alpha, None, history, Constant(c, k));
    GeometricError(alpha, start, c, k);
  }

  lemma SameSide(c: real, p: real, x: real)
    requires 0.0 <= p
    ensures if 0.0 <= x then c <= Offset(c, p, x) else Offset(c, p, x) <= c
  {
    if 0.0 <= x {
      NonNegative(p, x);
    } else {
      NonNegative(p, -x);
    }
  }

  /**
   Settling time: whatever was measured before, on constant throughput c, once k is large enough for
   the error divided by 1 + k alpha to stay within the distance to the next rung on the estimate's
   side, the controller behaves as if it knew c.
   */
  lemma {:induction false} Settles(ladder: Ladder, safety: real, alpha: real, history: seq<real>, start: real,
                                   c: real, k: nat, margin: real)
    requires Rising(ladder) && GoodAlpha(alpha) && 0.0 < safety && 0.0 < c && 0.0 < margin
    requires Estimate(alpha, None, history) == Some(start)
    requires if c <= start then ClearAbove(ladder, safety * c, margin)
             else ClearBelow(ladder, safety * c, margin) && margin <= safety * c
    requires safety * Abs(start - c) < margin * (1.0 + k as real * alpha)
    ensures LevelAfter(ladder, safety, alpha, history, c, k) == LastFitting(ladder, safety * c)
  {
    hide LastFitting, Estimate, Constant, ClearAbove, ClearBelow, Abs, RateLevel, LevelAfter, Offset, Power;
    LevelAfterIs(ladder, safety, alpha, history, start, c, k);
    GeometricError(alpha, start, c, k);
    ErrorBound(alpha, start, c, k);
    Bernoulli(alpha, k);
    SameSide(c, Power(1.0 - alpha, k), start - c);
    NonNegative(k as real, alpha);
    var e := Offset(c, Power(1.0 - alpha, k), start - c);
    Close(safety, e, c, margin, 1.0 + k as real * alpha, Abs(start - c));
    OnItsSide(ladder, safety, e, c, margin, c <= start);
  }

  /** A limit within the margin on the clear side fits the same levels. */
  lemma NearRung(ladder: Ladder, a: real, b: real, margin: real, above: bool)
    requires Rising(ladder) && 0.0 < margin && a - margin < b < a + margin
    requires if above then a <= b && ClearAbove(ladder, a, margin) else b <= a && ClearBelow(ladder, a, margin)
    ensures LastFitting(ladder, b) == LastFitting(ladder, a)
  {
    hide LastFitting, ClearAbove, ClearBelow, Rising;
    if a != b {
      SameRung(ladder, a, b, margin);
    }
  }

  lemma SideKept(safety: real, e: real, c: real, a: real, b: real, margin: real, above: bool)
    requires 0.0 < safety && 0.0 < c && 0.0 < margin && a == safety * c && b == safety * e && a - margin < b
    requires if above then c <= e else e <= c && margin <= a
    ensures (if above then a <= b else b <= a) && e != 0.0
  {
    if above {
      MulKeepsOrder(c, e, safety);
    } else {
      MulKeepsOrder(e, c, safety);
      assert e == 0.0 ==> safety * e == 0.0;
    }
  }

  lemma OnItsSide(ladder: Ladder, safety: real, e: real, c: real, margin: real, above: bool)
    requires Rising(ladder) && 0.0 < safety && 0.0 < c && 0.0 < margin
    requires safety * c - margin < safety * e < safety * c + margin
    requires if above then c <= e && ClearAbove(ladder, safety * c, margin)
             else e <= c && ClearBelow(ladder, safety * c, margin) && margin <= safety * c
    ensures RateLevel(ladder, safety, Some(e)) == LastFitting(ladder, safety * c)
  {
    hide LastFitting, ClearAbove, ClearBelow, RateLevel;
    var a, b := safety * c, safety * e;
    SideKept(safety, e, c, a, b, margin, above);
    OnEstimate(ladder, safety, e);
    NearRung(ladder, a, b, margin, above);
  }

  lemma {:induction false} MarginAbove(ladder: Ladder, limit: real) returns (margin: real)
    ensures 0.0 < margin && ClearAbove(ladder, limit, margin)
    decreases |ladder|
  {
    if ladder == [] {
      margin := 1.0;
    } else {
      var last := |ladder| - 1;
      margin := MarginAbove(ladder[..last], limit);
      var gap := ladder[last] - limit;
      if 0.0 < gap < margin {
        margin := gap;
      }
      assert forall i :: 0 <= i < last ==> ladder[..last][i] == ladder[i];
    }
  }

  lemma {:induction false} MarginBelow(ladder: Ladder, limit: real) returns (margin: real)
    requires 0.0 < limit && forall i :: 1 <= i < |ladder| ==> ladder[i] != limit
    ensures 0.0 < margin <= limit && ClearBelow(ladder, limit, margin)
    decreases |ladder|
  {
    if |ladder| <= 1 {
      margin := limit;
    } else {
      var last := |ladder| - 1;
      margin := MarginBelow(ladder[..last], limit);
      var gap := limit - ladder[last];
      if 0.0 < gap < margin {
        margin := gap;
      }
      assert forall i :: 0 <= i < last ==> ladder[..last][i] == ladder[i];
    }
  }

  lemma LateEnough(need: real, margin: real, alpha: real, k: nat)
    requires 0.0 <= need && 0.0 < margin && 0.0 < alpha && 0.0 < margin * alpha
    requires need / (margin * alpha) < k as real
    ensures need < margin * (1.0 + k as real * alpha)
  {
    var step := margin * alpha;
    MulStrict(step, need / step, k as real);
    assert step * (need / step) == need;
    assert step * k as real == margin * (k as real * alpha);
    Distribute(margin, 1.0, k as real * alpha);
  }

  ghost predicate Settled(ladder: Ladder, safety: real, alpha: real, history: seq<real>, c: real, from: nat)
    requires ladder != []
  {
    forall k: nat :: from <= k ==>
      LevelAfter(ladder, safety, alpha, history, c, k) == LastFitting(ladder, safety * c)
  }

  lemma SettlesWithMargin(ladder: Ladder, safety: real, alpha: real, history: seq<real>, start: real,
                          c: real, margin: real) returns (from: nat)
    requires Rising(ladder) && GoodAlpha(alpha) && 0.0 < safety && 0.0 < c && 0.0 < margin
    requires Estimate(alpha, None, history) == Some(start)
    requires if c <= start then ClearAbove(ladder, safety * c, margin)
             else ClearBelow(ladder, safety * c, margin) && margin <= safety * c
    ensures Settled(ladder, safety, alpha, history, c, from)
  {
    hide Estimate, LevelAfter, LastFitting, ClearAbove, ClearBelow;
    PositiveProduct(margin, alpha);
    NonNegative(safety, Abs(start - c));
    var need := safety * Abs(start - c);
    DivideKeepsOrder(0.0, need, margin * alpha);
    from := (need / (margin * alpha)).Floor + 1;
    hide Abs;
    forall k: nat | from <= k
      ensures LevelAfter(ladder, safety, alpha, history, c, k) == LastFitting(ladder, safety * c)
    {
      LateEnough(need, margin, alpha, k);
      Settles(ladder, safety, alpha, history, start, c, k, margin);
    }
  }

  /** With alpha one the estimate is the last sample. */
  lemma SettlesAtOnce(ladder: Ladder, safety: real, history: seq<real>, start: real, c: real)
    requires ladder != [] && c != 0.0 && Estimate(1.0, None, history) == Some(start)
    ensures Settled(ladder, safety, 1.0, history, c, 1)
  {
    hide Estimate, LevelAfter, LastFitting, RateLevel;
    forall k: nat | 1 <= k
      ensures LevelAfter(ladder, safety, 1.0, history, c, k) == LastFitting(ladder, safety * c)
    {
      LevelAfterIs(ladder, safety, 1.0, history, start, c, k);
      assert Power(0.0, k) == 0.0 * Power(0.0, k - 1) == 0.0;
      OnEstimate(ladder, safety, c);
    }
  }

  lemma {:induction false} PowerPositive(x: real, k: nat)
    requires 0.0 < x <= 1.0
    ensures 0.0 < Power(x, k) <= 1.0
    decreases k
  {
    if k != 0 {
      PowerPositive(x, k - 1);
      MulKeepsOrder(x, 1.0, Power(x, k - 1));
    }
  }

  lemma StillBelow(c: real, p: real, x: real)
    requires 0.0 < p && x < 0.0
    ensures Offset(c, p, x) < c
  {
    PositiveProduct(p, -x);
  }

  /** When safety times the throughput is exactly a rung, an estimate below it chooses a lower level. */
  lemma {:induction false} BelowExactRung(ladder: Ladder, safety: real, e: real, c: real, rung: nat)
    requires Rising(ladder) && 0.0 < safety && e < c && e != 0.0
    requires 1 <= rung < |ladder| && ladder[rung] == safety * c
    ensures RateLevel(ladder, safety, Some(e)) != LastFitting(ladder, safety * c)
  {
    hide LastFitting, RateLevel;
    MulStrict(safety, e, c);
    OnEstimate(ladder, safety, e);
    BelowRung(ladder, safety * e, safety * c, rung);
  }

  lemma BelowRung(ladder: Ladder, low: real, limit: real, rung: nat)
    requires Rising(ladder) && low < limit && 1 <= rung < |ladder| && ladder[rung] == limit
    ensures LastFitting(ladder, low) < rung == LastFitting(ladder, limit)
  {
    hide LastFitting;
    assert forall i :: rung <= i < |ladder| ==> limit <= ladder[i];
    HighestFits(ladder, low);
    HighestFits(ladder, limit);
  }

  lemma StillMoving(c: real, alpha: real, p: real, x: real)
    requires 0.0 < alpha && 0.0 < p && x < 0.0
    ensures Offset(c, p, x) < Offset(c, (1.0 - alpha) * p, x)
  {
    PositiveProduct(alpha, p);
    PositiveProduct(alpha * p, -x);
    assert (1.0 - alpha) * p == p - alpha * p;
    assert (p - alpha * p) * x == p * x - (alpha * p) * x;
  }

  /** An estimate rising towards an exact rung chooses a lower level at every sample, but for one it may be zero at. */
  lemma {:induction false} NeverReachesExactRung(ladder: Ladder, safety: real, alpha: real, history: seq<real>,
                                                 start: real, c: real, rung: nat, k: nat)
    requires Rising(ladder) && 0.0 < alpha < 1.0 && 0.0 < safety && start < c
    requires Estimate(alpha, None, history) == Some(start)
    requires 1 <= rung < |ladder| && ladder[rung] == safety * c
    ensures LevelAfter(ladder, safety, alpha, history, c, k) != LastFitting(ladder, safety * c)
         || LevelAfter(ladder, safety, alpha, history, c, k + 1) != LastFitting(ladder, safety * c)
  {
    hide Estimate, Offset, LevelAfter, LastFitting, RateLevel;
    var p, x := Power(1.0 - alpha, k), start - c;
    LevelAfterIs(ladder, safety, alpha, history, start, c, k);
    LevelAfterIs(ladder, safety, alpha, history, start, c, k + 1);
    PowerPositive(1.0 - alpha, k);
    PowerPositive(1.0 - alpha, k + 1);
    assert Power(1.0 - alpha, k + 1) == (1.0 - alpha) * p;
    hide Power;
    StillBelow(c, p, x);
    StillBelow(c, Power(1.0 - alpha, k + 1), x);
    StillMoving(c, alpha, p, x);
    if Offset(c, p, x) != 0.0 {
      BelowExactRung(ladder, safety, Offset(c, p, x), c, rung);
    } else {
      BelowExactRung(ladder, safety, Offset(c, Power(1.0 - alpha, k + 1), x), c, rung);
    }
  }

  /** A smoothed estimate approaches a rung above the lowest from below. */
  ghost predicate CreepsUpToRung(ladder: Ladder, safety: real, alpha: real, start: real, c: real) {
    alpha < 1.0 && start < c && exists i :: 1 <= i < |ladder| && ladder[i] == safety * c
  }

  /** On constant throughput the choice settles on that of the true throughput unless it creeps up to a rung. */
  lemma {:induction false} SettlesExactly(ladder: Ladder, safety: real, alpha: real, history: seq<real>,
                                          start: real, c: real)
    requires Rising(ladder) && GoodAlpha(alpha) && 0.0 < safety && 0.0 < c
    requires Estimate(alpha, None, history) == Some(start)
    ensures (exists from: nat :: Settled(ladder, safety, alpha, history, c, from))
            <==> !CreepsUpToRung(ladder, safety, alpha, start, c)
  {
    hide Estimate, LevelAfter, LastFitting, Settled, ClearAbove, ClearBelow;
    if CreepsUpToRung(ladder, safety, alpha, start, c) {
      var rung :| 1 <= rung < |ladder| && ladder[rung] == safety * c;
      forall from: nat ensures !Settled(ladder, safety, alpha, history, c, from) {
        NotSettled(ladder, safety, alpha, history, start, c, rung, from);
      }
    } else if c <= start {
      var margin := MarginAbove(ladder, safety * c);
      var from := SettlesWithMargin(ladder, safety, alpha, history, start, c, margin);
    } else if alpha == 1.0 {
      SettlesAtOnce(ladder, safety, history, start, c);
    } else {
      PositiveProduct(safety, c);
      var margin := MarginBelow(ladder, safety * c);
      var from := SettlesWithMargin(ladder, safety, alpha, history, start, c, margin);
    }
  }

  /** On a dead link it settles on the lowest level unless a zero estimate falls back to more than that. */
  lemma {:induction false} SettlesOnDeadLink(ladder: Ladder, safety: real, alpha: real, history: seq<real>, start: real)
    requires Rising(ladder) && GoodAlpha(alpha) && 0.0 < safety && 0.0 <= start
    requires Estimate(alpha, None, history) == Some(start)
    ensures (exists from: nat :: Settled(ladder, safety, alpha, history, 0.0, from))
            <==> (alpha < 1.0 && 0.0 < start) || RateLevel(ladder, safety, None) == 0
  {
    hide Estimate, LevelAfter, LastFitting, RateLevel, ClearAbove;
    assert safety * 0.0 == 0.0;
    HighestFits(ladder, 0.0);
    if alpha < 1.0 && 0.0 < start {
      var from := FadesOut(ladder, safety, alpha, history, start);
    } else {
      forall k: nat | 1 <= k
        ensures LevelAfter(ladder, safety, alpha, history, 0.0, k) == RateLevel(ladder, safety, None)
      {
        LevelAfterIs(ladder, safety, alpha, history, start, 0.0, k);
        assert alpha == 1.0 ==> Power(1.0 - alpha, k) == 0.0 * Power(1.0 - alpha, k - 1) == 0.0;
        assert Offset(0.0, Power(1.0 - alpha, k), start - 0.0) == 0.0;
        ZeroFallsBack(ladder, safety);
      }
      if RateLevel(ladder, safety, None) == 0 {
        assert Settled(ladder, safety, alpha, history, 0.0, 1);
      } else {
        forall from: nat ensures !Settled(ladder, safety, alpha, history, 0.0, from) {
          assert LevelAfter(ladder, safety, alpha, history, 0.0, from + 1) != LastFitting(ladder, safety * 0.0);
        }
      }
    }
  }

  lemma ZeroFallsBack(ladder: Ladder, safety: real)
    requires ladder != []
    ensures RateLevel(ladder, safety, Some(0.0)) == RateLevel(ladder, safety, None)
  {
  }

  lemma FadesOut(ladder: Ladder, safety: real, alpha: real, history: seq<real>, start: real) returns (from: nat)
    requires Rising(ladder) && 0.0 < alpha < 1.0 && 0.0 < safety && 0.0 < start
    requires Estimate(alpha, None, history) == Some(start)
    ensures Settled(ladder, safety, alpha, history, 0.0, from)
  {
    hide Estimate, LevelAfter, LastFitting, RateLevel, ClearAbove, Offset;
    var margin := MarginAbove(ladder, 0.0);
    PositiveProduct(margin, alpha);
    PositiveProduct(safety, start);
    DivideKeepsOrder(0.0, safety * start, margin * alpha);
    from := (safety * start / (margin * alpha)).Floor + 1;
    forall k: nat | from <= k
      ensures LevelAfter(ladder, safety, alpha, history, 0.0, k) == LastFitting(ladder, safety * 0.0)
    {
      LateEnough(safety * start, margin, alpha, k);
      LevelAfterIs(ladder, safety, alpha, history, start, 0.0, k);
      PowerPositive(1.0 - alpha, k);
      Bernoulli(alpha, k);
      NonNegative(k as real, alpha);
      Faded(ladder, safety, Power(1.0 - alpha, k), start, margin, 1.0 + k as real * alpha);
    }
  }

  lemma Faded(ladder: Ladder, safety: real, p: real, start: real, margin: real, line: real)
    requires Rising(ladder) && 0.0 < safety && 0.0 < p && 0.0 < start && 0.0 < margin && 1.0 <= line
    requires p * line <= 1.0 && safety * start < margin * line && ClearAbove(ladder, 0.0, margin)
    ensures RateLevel(ladder, safety, Some(Offset(0.0, p, start - 0.0))) == LastFitting(ladder, safety * 0.0)
  {
    hide LastFitting, RateLevel, ClearAbove;
    var e := p * start;
    assert Offset(0.0, p, start - 0.0) == e && safety * 0.0 == 0.0;
    PositiveProduct(p, start);
    PositiveProduct(safety, e);
    ShrunkBy(p, line, start);
    MulKeepsOrder(e * line, start, safety);
    Associate(safety, e, line);
    Cancel(safety * e, margin, line);
    OnEstimate(ladder, safety, e);
    SameRung(ladder, 0.0, safety * e, margin);
  }

  lemma NotSettled(ladder: Ladder, safety: real, alpha: real, history: seq<real>, start: real, c: real,
                   rung: nat, from: nat)
    requires Rising(ladder) && 0.0 < alpha < 1.0 && 0.0 < safety && start < c
    requires Estimate(alpha, None, history) == Some(start)
    requires 1 <= rung < |ladder| && ladder[rung] == safety * c
    ensures !Settled(ladder, safety, alpha, history, c, from)
  {
    hide Estimate, LevelAfter, LastFitting;
    NeverReachesExactRung(ladder, safety, alpha, history, start, c, rung, from);
  }

  lemma Cancel(a: real, b: real, line: real)
    requires 1.0 <= line && a * line < b * line
    ensures a < b
  {
    if b <= a {
      MulKeepsOrder(b, a, line);
    }
  }

  lemma Close(safety: real, e: real, c: real, margin: real, line: real, first: real)
    requires 0.0 < safety && 1.0 <= line && Abs(e - c) * line <= first && safety * first < margin * line
    ensures safety * c - margin < safety * e < safety * c + margin
  {
    MulKeepsOrder(Abs(e - c) * line, first, safety);
    Associate(safety, Abs(e - c), line);
    Cancel(safety * Abs(e - c), margin, line);
    AbsScaled(safety, e - c);
    Distribute(safety, e, c);
  }
}
