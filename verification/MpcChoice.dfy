/** Which level predictive control picks when the network is rich, and how long it can stall. */
module MpcChoice {
  import opened Arithmetic
  import opened Ladder
  import opened Mpc
  import opened MpcBounds

  /** A ladder and weights as configured: rising bitrates, no negative weight. */
  predicate Sane(c: Controller) { Rising(c.ladder) && Penalising(c) }

  function TopLevel(c: Controller): nat
    requires c.ladder != []
  {
    |c.ladder| - 1
  }

  lemma AbsUp(c: Controller, level: nat, prev: nat)
    requires Sane(c) && c.Usable() && prev <= level < |c.ladder|
    ensures Change(c, level, prev) == Quality(c.ladder, level) - Quality(c.ladder, prev)
    ensures Change(c, prev, level) == Quality(c.ladder, level) - Quality(c.ladder, prev)
  {
    QualityRises(c.ladder, prev, level);
  }

  /** The best quality a plan visits. */
  lemma {:induction false} Peak(c: Controller, plan: Plan) returns (p: nat)
    requires c.Usable() && IsPlan(c, plan) && plan != []
    ensures p < |plan|
    ensures forall i :: 0 <= i < |plan| ==> Quality(c.ladder, plan[i]) <= Quality(c.ladder, plan[p])
    decreases |plan|
  {
    hide Quality;
    if |plan| == 1 {
      p := 0;
    } else {
      var r := Peak(c, plan[1..]);
      p := if Quality(c.ladder, plan[r + 1]) < Quality(c.ladder, plan[0]) then 0 else r + 1;
      forall i | 0 <= i < |plan| ensures Quality(c.ladder, plan[i]) <= Quality(c.ladder, plan[p]) {
        assert 0 < i ==> plan[i] == plan[1..][i - 1];
      }
    }
  }

  /** Two products on each side, compared one by one. */
  lemma Compare(a: real, b: real, v: real, w: real)
    requires a <= b && v <= w
    ensures a - w <= b - v
    ensures a < b ==> a - w < b - v
  {
  }

  lemma Expand(k: real, l: real, m: real)
    ensures (k - l) * (1.0 - m) == k - k * m - (l - l * m)
  {
    Distribute(k - l, 1.0, m);
    Distribute(m, k, l);
  }

  /** The total-variation argument: h segments of quality at most m < 1, reached from q. */
  lemma PeakBelowOne(alpha: real, gamma: real, h: real, total: real, variation: real, m: real, q: real)
    requires 0.0 <= alpha && 0.0 <= gamma && gamma < alpha * h
    requires total <= h * m && m - q <= variation && m < 1.0
    ensures alpha * total - gamma * variation < alpha * h - gamma * (1.0 - q)
  {
    var gain := alpha * h;
    MulKeepsOrder(total, h * m, alpha);
    MulKeepsOrder(m - q, variation, gamma);
    Compare(alpha * total, alpha * (h * m), gamma * (m - q), gamma * variation);
    PositiveProduct(gain - gamma, 1.0 - m);
    Expand(gain, gamma, m);
    Distribute(gamma, m, q);
    Distribute(gamma, 1.0, q);
    assert alpha * (h * m) == gain * m;
    PeakSum(alpha * total, gamma * variation, gain, gain * m, gamma, gamma * m, gamma * q);
  }

  lemma PeakSum(a: real, v: real, k: real, km: real, l: real, lm: real, lq: real)
    requires a <= km && lm - lq <= v && 0.0 < k - km - (l - lm)
    ensures a - v < k - (l - lq)
  {
  }

  /** The same when the plan does visit the top, but not throughout. */
  lemma PeakAtOne(alpha: real, gamma: real, h: real, total: real, variation: real, q: real)
    requires 0.0 <= alpha && 0.0 <= gamma && gamma < alpha * h
    requires total < h && 1.0 - q <= variation
    ensures alpha * total - gamma * variation < alpha * h - gamma * (1.0 - q)
  {
    assert alpha == 0.0 ==> alpha * h == 0.0;
    MulStrict(alpha, total, h);
    MulKeepsOrder(1.0 - q, variation, gamma);
    Compare(alpha * total, alpha * h, gamma * (1.0 - q), gamma * variation);
  }

  /** Quality and variation of a plan that does not start at the top, compared through its peak. */
  lemma BelowTop(c: Controller, s: Situation, plan: Plan) returns (m: real)
    requires Sane(c) && Valid(c, s) && IsPlan(c, plan) && plan != [] && plan[0] != TopLevel(c)
    ensures m <= 1.0 && m - Quality(c.ladder, s.current) <= Variation(c, plan, s.current)
    ensures TotalQuality(c, plan) <= |plan| as real * m
    ensures m == 1.0 ==> TotalQuality(c, plan) < |plan| as real
  {
    var p := Peak(c, plan);
    m := Quality(c.ladder, plan[p]);
    QualityRises(c.ladder, plan[p], TopLevel(c));
    VariationReaches(c, plan, s.current, p);
    TotalQualityBound(c, plan, m);
    FirstBelowOne(c, plan);
  }

  lemma AllAtMostOne(c: Controller, plan: Plan)
    requires Sane(c) && c.Usable() && IsPlan(c, plan)
    ensures TotalQuality(c, plan) <= |plan| as real
  {
    forall i | 0 <= i < |plan| ensures Quality(c.ladder, plan[i]) <= 1.0 {
      QualityRises(c.ladder, plan[i], TopLevel(c));
    }
    TotalQualityBound(c, plan, 1.0);
  }

  lemma FirstBelowOne(c: Controller, plan: Plan)
    requires Sane(c) && c.Usable() && IsPlan(c, plan) && plan != [] && plan[0] != TopLevel(c)
    ensures TotalQuality(c, plan) < |plan| as real
  {
    QualityRises(c.ladder, plan[0], TopLevel(c));
    AllAtMostOne(c, plan[1..]);
    assert |plan| as real == |plan[1..]| as real + 1.0;
    assert TotalQuality(c, plan) == Quality(c.ladder, plan[0]) + TotalQuality(c, plan[1..]);
  }

  /** What qualities and changes of level bring when nothing stalls. */
  function Worth(c: Controller, quality: real, variation: real): real { c.alpha * quality - c.gamma * variation }

  /** Staying on the top level beats every plan that starts below it. */
  lemma BelowTopIsWorse(c: Controller, s: Situation, plan: Plan)
    requires Sane(c) && Valid(c, s) && Candidate(c, plan) && plan[0] != TopLevel(c)
    requires c.gamma < c.alpha * c.Horizon() as real
    ensures Worth(c, TotalQuality(c, plan), Variation(c, plan, s.current))
            < Worth(c, c.Horizon() as real, 1.0 - Quality(c.ladder, s.current))
  {
    var h, q := c.Horizon() as real, Quality(c.ladder, s.current);
    var m := BelowTop(c, s, plan);
    var total, variation := TotalQuality(c, plan), Variation(c, plan, s.current);
    if m < 1.0 {
      PeakBelowOne(c.alpha, c.gamma, h, total, variation, m, q);
    } else {
      PeakAtOne(c.alpha, c.gamma, h, total, variation, q);
    }
  }

  /** Throughput at least a level's bitrate, and a buffer during which one segment of it arrives. */
  predicate Affords(c: Controller, level: nat, s: Situation)
    requires level < |c.ladder|
  {
    && 2.0 <= c.duration && 1.0 <= s.throughput && c.ladder[level] <= s.throughput
    && c.ladder[level] * c.duration <= s.buffer * s.throughput
  }

  lemma AffordsIsSustainable(c: Controller, level: nat, s: Situation)
    requires Rising(c.ladder) && level < |c.ladder| && Affords(c, level, s)
    ensures Sustainable(c, level, s)
  {
    MulKeepsOrder(c.ladder[level], s.throughput, c.duration);
  }

  lemma AffordsBelow(c: Controller, level: nat, s: Situation)
    requires Rising(c.ladder) && level < |c.ladder| && Affords(c, TopLevel(c), s)
    ensures Affords(c, level, s)
  {
    var top := TopLevel(c);
    assert c.ladder[level] <= c.ladder[top];
    MulKeepsOrder(c.ladder[level], c.ladder[top], c.duration);
  }

  lemma SteadyIsCandidate(c: Controller, level: nat)
    requires level < |c.ladder|
    ensures Candidate(c, Steady(level, c.Horizon())) && Steady(level, c.Horizon())[0] == level
  {
  }

  lemma TopQuality(c: Controller)
    requires Sane(c) && c.Usable()
    ensures Quality(c.ladder, TopLevel(c)) == 1.0
  {
    QualityRises(c.ladder, TopLevel(c), TopLevel(c));
  }

  /** On a horizon spent at the top every segment has quality one. */
  lemma TopNet(c: Controller, prev: nat)
    requires Sane(c) && c.Usable() && prev < |c.ladder|
    ensures SteadyNet(c, TopLevel(c), c.Horizon(), prev) == Worth(c, c.Horizon() as real, 1.0 - Quality(c.ladder, prev))
  {
    hide Quality, Change, Rising;
    TopQuality(c);
    AbsUp(c, TopLevel(c), prev);
    Substitute(c.alpha, c.Horizon() as real, Quality(c.ladder, TopLevel(c)), 1.0);
    Substitute(c.gamma, 1.0, Change(c, TopLevel(c), prev), 1.0 - Quality(c.ladder, prev));
  }

  lemma SteadyTopScore(c: Controller, s: Situation)
    requires Sane(c) && Valid(c, s) && Affords(c, TopLevel(c), s)
    ensures Candidate(c, Steady(TopLevel(c), c.Horizon())) && Steady(TopLevel(c), c.Horizon())[0] == TopLevel(c)
    ensures Score(c, Steady(TopLevel(c), c.Horizon()), s) == SteadyNet(c, TopLevel(c), c.Horizon(), s.current)
  {
    SteadyIsCandidate(c, TopLevel(c));
    hide Affords, Score, Steady, Sustainable, Quality, Rising, SteadyNet;
    AffordsIsSustainable(c, TopLevel(c), s);
    SteadyScore(c, TopLevel(c), c.Horizon(), s);
  }

  /** With a rich network every best plan starts at the top, from whatever level is in force. */
  lemma RichThroughput(c: Controller, s: Situation, level: nat)
    requires Sane(c) && Valid(c, s) && Affords(c, TopLevel(c), s)
    requires c.gamma < c.alpha * c.Horizon() as real
    requires IsChoice(c, s, level)
    ensures level == TopLevel(c)
  {
    var plan :| Optimal(c, s, plan) && plan[0] == level;
    hide SteadyNet, Worth;
    SteadyTopScore(c, s);
    TopNet(c, s.current);
    NetUpper(c, plan, s);
    if level != TopLevel(c) {
      BelowTopIsWorse(c, s, plan);
    }
  }

  lemma SwitchNotWorth(alpha: real, gamma: real, h: real, total: real, variation: real, q: real)
    requires 0.0 <= alpha && 0.0 <= gamma && alpha * h <= gamma
    requires total <= h && 1.0 - q <= variation && q <= 1.0
    ensures alpha * total - gamma * variation <= alpha * (h * q)
  {
    var gain, net := alpha * h, 1.0 - q;
    MulKeepsOrder(total, h, alpha);
    MulKeepsOrder(net, variation, gamma);
    Compare(alpha * total, gain, gamma * net, gamma * variation);
    MulKeepsOrder(gain, gamma, net);
    Compare(gain, gain, gain * net, gamma * net);
    Distribute(gain, 1.0, q);
    assert gain * q == alpha * (h * q);
  }

  /** When a switch costs at least what the horizon can win back, staying on the current level ties or wins. */
  lemma StayingTiesTop(c: Controller, s: Situation, plan: Plan)
    requires Sane(c) && Valid(c, s) && Affords(c, TopLevel(c), s)
    requires c.alpha * c.Horizon() as real <= c.gamma
    requires Candidate(c, plan) && plan[0] == TopLevel(c)
    ensures Candidate(c, Steady(s.current, c.Horizon())) && Steady(s.current, c.Horizon())[0] == s.current
    ensures Score(c, plan, s) <= Score(c, Steady(s.current, c.Horizon()), s)
  {
    hide Score, TotalQuality, Variation, Steady, Affords, Rising, Quality;
    var h, q := c.Horizon() as real, Quality(c.ladder, s.current);
    StayingScore(c, s);
    NetUpper(c, plan, s);
    VariationReaches(c, plan, s.current, 0);
    AllAtMostOne(c, plan);
    QualityRises(c.ladder, s.current, TopLevel(c));
    SwitchNotWorth(c.alpha, c.gamma, h, TotalQuality(c, plan), Variation(c, plan, s.current), q);
  }

  lemma StayingScore(c: Controller, s: Situation)
    requires Sane(c) && Valid(c, s) && Affords(c, TopLevel(c), s)
    ensures Candidate(c, Steady(s.current, c.Horizon())) && Steady(s.current, c.Horizon())[0] == s.current
    ensures Score(c, Steady(s.current, c.Horizon()), s)
         == c.alpha * (c.Horizon() as real * Quality(c.ladder, s.current))
  {
    hide Affords, Score, Sustainable;
    AffordsBelow(c, s.current, s);
    AffordsIsSustainable(c, s.current, s);
    SteadyScore(c, s.current, c.Horizon(), s);
    AbsUp(c, s.current, s.current);
    assert c.gamma * 0.0 == 0.0;
  }

  lemma BottomSustained(c: Controller, s: Situation)
    requires Sane(c) && Valid(c, s) && (Affords(c, 0, s) || Affords(c, TopLevel(c), s))
    ensures Sustainable(c, 0, s)
  {
    if Affords(c, TopLevel(c), s) {
      AffordsBelow(c, 0, s);
    }
    AffordsIsSustainable(c, 0, s);
  }

  lemma {:induction false} SteadyBottomScore(c: Controller, s: Situation)
    requires Sane(c) && Valid(c, s) && (Affords(c, 0, s) || Affords(c, TopLevel(c), s))
    ensures Candidate(c, Steady(0, c.Horizon())) && Steady(0, c.Horizon())[0] == 0
    ensures Score(c, Steady(0, c.Horizon()), s)
            == c.alpha * (c.Horizon() as real * Quality(c.ladder, 0))
               - c.gamma * (Quality(c.ladder, s.current) - Quality(c.ladder, 0))
  {
    SteadyIsCandidate(c, 0);
    BottomSustained(c, s);
    hide Score, Steady, Sustainable, Affords, Quality, Rising, SteadyNet;
    SteadyScore(c, 0, c.Horizon(), s);
    BottomNet(c, s.current);
  }

  lemma BottomNet(c: Controller, prev: nat)
    requires Sane(c) && c.Usable() && prev < |c.ladder|
    ensures SteadyNet(c, 0, c.Horizon(), prev)
            == c.alpha * (c.Horizon() as real * Quality(c.ladder, 0))
               - c.gamma * (Quality(c.ladder, prev) - Quality(c.ladder, 0))
  {
    hide Quality, Change, Rising;
    AbsUp(c, prev, 0);
    Substitute(c.gamma, 1.0, Change(c, 0, prev), Quality(c.ladder, prev) - Quality(c.ladder, 0));
  }

  lemma Substitute(k: real, h: real, x: real, y: real)
    requires x == y
    ensures k * (h * x) == k * (h * y) && k * x == k * y
  {
  }

  lemma StallsLower(c: Controller, score: real, quality: real, stall: real, variation: real)
    requires Penalising(c) && 0.0 <= stall
    requires score <= c.alpha * quality - c.beta * stall - c.gamma * variation
    ensures score <= Worth(c, quality, variation)
  {
    MulKeepsOrder(0.0, stall, c.beta);
  }

  /** Stalls only lower a score. */
  lemma {:induction false} NetUpper(c: Controller, plan: Plan, s: Situation)
    requires Valid(c, s) && IsPlan(c, plan) && Penalising(c)
    ensures Score(c, plan, s) <= Worth(c, TotalQuality(c, plan), Variation(c, plan, s.current))
  {
    hide Score, TotalQuality, TotalStall, Variation, Worth, Penalising, Deficit;
    ScoreUpper(c, plan, s);
    StallClosedForm(c, plan, s);
    StallsLower(c, Score(c, plan, s), TotalQuality(c, plan), TotalStall(c, plan, s), Variation(c, plan, s.current));
  }

  lemma FirstChange(c: Controller, plan: Plan, prev: nat)
    requires Sane(c) && c.Usable() && IsPlan(c, plan) && plan != [] && prev == TopLevel(c) && plan[0] != prev
    ensures 0.0 < Variation(c, plan, prev)
  {
    QualityRises(c.ladder, plan[0], prev);
    if 1 < |plan| {
      VariationReaches(c, plan[1..], plan[0], 0);
    }
  }

  lemma WeightedLoss(alpha: real, gamma: real, total: real, h: real, variation: real)
    requires 0.0 <= alpha && 0.0 <= gamma && total < h && 0.0 < variation
    requires 0.0 < alpha || 0.0 < gamma
    ensures alpha * total - gamma * variation < alpha * h
  {
    if 0.0 < alpha {
      MulStrict(alpha, total, h);
      NonNegative(gamma, variation);
    } else {
      PositiveProduct(gamma, variation);
      assert alpha * total == 0.0 && alpha * h == 0.0;
    }
  }

  /** From the top level a rich network keeps the controller there unless neither quality nor switching has weight. */
  lemma TopStays(c: Controller, s: Situation, level: nat)
    requires Sane(c) && Valid(c, s) && s.current == TopLevel(c) && 1 < |c.ladder| && Affords(c, TopLevel(c), s)
    requires IsChoice(c, s, level)
    ensures level == TopLevel(c) <==> 0.0 < c.alpha || 0.0 < c.gamma
  {
    hide Score, TotalQuality, Variation, Steady, Affords, Quality;
    var plan :| Optimal(c, s, plan) && plan[0] == level;
    var h := c.Horizon() as real;
    NetUpper(c, plan, s);
    if 0.0 < c.alpha || 0.0 < c.gamma {
      if level != TopLevel(c) {
        StayingScore(c, s);
        QualityRises(c.ladder, s.current, s.current);
        assert h * 1.0 == h;
        FirstBelowOne(c, plan);
        FirstChange(c, plan, s.current);
        WeightedLoss(c.alpha, c.gamma, TotalQuality(c, plan), h, Variation(c, plan, s.current));
      }
    } else {
      SteadyBottomScore(c, s);
      Weightless(c.alpha, c.gamma, TotalQuality(c, plan), Variation(c, plan, s.current));
      Weightless(c.alpha, c.gamma, h * Quality(c.ladder, 0), Quality(c.ladder, s.current) - Quality(c.ladder, 0));
      StillOptimal(c, s, plan, Steady(0, c.Horizon()));
    }
  }

  lemma Weightless(alpha: real, gamma: real, x: real, y: real)
    requires alpha == gamma == 0.0
    ensures alpha * x - gamma * y == 0.0
  {
  }

  /**
   On a ladder of several levels and a rich network, the controller picks the top exactly when the
   horizon's quality gain outweighs the switching cost; already there, when any of the two has weight.
   */
  lemma RichThroughputExactly(c: Controller, s: Situation, level: nat)
    requires Sane(c) && Valid(c, s) && 1 < |c.ladder| && Affords(c, TopLevel(c), s)
    requires IsChoice(c, s, level)
    ensures level == TopLevel(c) <==>
            if s.current == TopLevel(c) then 0.0 < c.alpha || 0.0 < c.gamma else c.gamma < c.alpha * c.Horizon() as real
  {
    if s.current == TopLevel(c) {
      TopStays(c, s, level);
    } else if c.gamma < c.alpha * c.Horizon() as real {
      RichThroughput(c, s, level);
    } else if level == TopLevel(c) {
      hide Score, Affords, Steady;
      var plan :| Optimal(c, s, plan) && plan[0] == level;
      StayingTiesTop(c, s, plan);
      StillOptimal(c, s, plan, Steady(s.current, c.Horizon()));
    }
  }

  lemma StillOptimal(c: Controller, s: Situation, plan: Plan, other: Plan)
    requires Valid(c, s) && Optimal(c, s, plan) && Candidate(c, other) && Score(c, plan, s) <= Score(c, other, s)
    ensures Optimal(c, s, other)
  {
  }

  lemma StallSum(at: real, ah: real, v: real, stall: real, low: real, climb: real)
    requires at <= ah && 0.0 <= v && low - climb <= at - stall - v
    ensures stall <= ah - low + climb
  {
  }

  /** The seconds of stall worth the quality h segments can gain over q, switching down from `now` included. */
  function StallLimit(c: Controller, h: real, q: real, now: real): real
    requires 0.0 < c.beta
  {
    (c.alpha * (h * (1.0 - q)) + c.gamma * (now - q)) / c.beta
  }

  /** What a plan scoring at least `floor` can have lost to stalls. */
  lemma StallArithmetic(c: Controller, h: real, total: real, variation: real, stall: real, floor: real,
                        q: real, now: real)
    requires 0.0 <= c.alpha && 0.0 < c.beta && 0.0 <= c.gamma && total <= h && 0.0 <= variation
    requires floor == c.alpha * (h * q) - c.gamma * (now - q)
    requires floor <= c.alpha * total - c.beta * stall - c.gamma * variation
    ensures stall <= StallLimit(c, h, q, now)
  {
    var bound, low := c.alpha * (h * (1.0 - q)) + c.gamma * (now - q), h * q;
    MulKeepsOrder(total, h, c.alpha);
    MulKeepsOrder(0.0, variation, c.gamma);
    Distribute(h, 1.0, q);
    Distribute(c.alpha, h, low);
    StallSum(c.alpha * total, c.alpha * h, c.gamma * variation, c.beta * stall, c.alpha * low, c.gamma * (now - q));
    assert c.alpha * (h * (1.0 - q)) == c.alpha * h - c.alpha * low;
    DivideKeepsOrder(c.beta * stall, bound, c.beta);
    assert c.beta * stall / c.beta == stall;
  }

  /**
   No best plan stalls for longer than the quality it could gain is worth; and the segment about to be
   downloaded arrives within the buffered time and that stall.
   */
  lemma {:induction false} StallBound(c: Controller, s: Situation, plan: Plan)
    requires Sane(c) && Valid(c, s) && 0.0 < c.beta && Affords(c, 0, s)
    requires Optimal(c, s, plan)
    ensures TotalStall(c, plan, s)
            <= StallLimit(c, c.Horizon() as real, Quality(c.ladder, 0), Quality(c.ladder, s.current))
    ensures c.ladder[plan[0]] * c.duration <= Moved(s.buffer + TotalStall(c, plan, s), s.throughput)
  {
    hide Score, TotalQuality, TotalStall, Variation, Steady, Affords, Rising, Quality, DownloadTime, StallLimit;
    hide Moved;
    SteadyBottomScore(c, s);
    var floor := Score(c, Steady(0, c.Horizon()), s);
    ScoreUpper(c, plan, s);
    AllAtMostOne(c, plan);
    VariationReaches(c, plan, s.current, 0);
    StallArithmetic(c, c.Horizon() as real, TotalQuality(c, plan), Variation(c, plan, s.current),
                    TotalStall(c, plan, s),
                    floor, Quality(c.ladder, 0), Quality(c.ladder, s.current));
    FirstStall(c, plan, s);
  }

  lemma FirstStall(c: Controller, plan: Plan, s: Situation)
    requires Valid(c, s) && IsPlan(c, plan) && plan != []
    ensures c.ladder[plan[0]] * c.duration <= Moved(s.buffer + TotalStall(c, plan, s), s.throughput)
  {
    hide Moved, DownloadTime, Deficit, TotalStall;
    StallClosedForm(c, plan, s);
    DeficitFirst(c, plan, s);
    ArrivesWithin(c, plan[0], s.throughput, s.buffer + TotalStall(c, plan, s));
  }
}
