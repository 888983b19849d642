/**
 The score of a plan without simulating it: its bitrates and their changes, the stall foreseen and the
 downloads that leave a low buffer; and what follows for the level chosen on any network, rich or poor.
 */
module MpcScore {
  import opened Arithmetic
  import opened Ladder
  import opened Mpc
  import opened MpcBounds
  import opened MpcChoice

  // ---------------------------------------------------------------- quality in bitrates

  function Bitrates(c: Controller, plan: Plan): real
    requires IsPlan(c, plan)
  {
    if plan == [] then 0.0 else c.ladder[plan[0]] + Bitrates(c, plan[1..])
  }

  /** By how much the bitrate goes up or down along a plan, in all. */
  function Jumps(c: Controller, plan: Plan, prev: nat): real
    requires IsPlan(c, plan) && prev < |c.ladder|
  {
    if plan == [] then 0.0 else Abs(c.ladder[plan[0]] - c.ladder[prev]) + Jumps(c, plan[1..], plan[0])
  }

  lemma {:induction false} QualityInBitrates(c: Controller, plan: Plan)
    requires c.Usable() && IsPlan(c, plan)
    ensures TotalQuality(c, plan) * c.ladder[|c.ladder| - 1] == Bitrates(c, plan)
    decreases |plan|
  {
    if plan != [] {
      var top := c.ladder[|c.ladder| - 1];
      QualityInBitrates(c, plan[1..]);
      assert Quality(c.ladder, plan[0]) * top == c.ladder[plan[0]];
      hide Quality;
      Distribute(top, Quality(c.ladder, plan[0]), TotalQuality(c, plan[1..]));
    }
  }

  lemma ChangeInBitrates(c: Controller, idx: nat, prev: nat)
    requires c.Usable() && idx < |c.ladder| && prev < |c.ladder| && 0.0 < c.ladder[|c.ladder| - 1]
    ensures Change(c, idx, prev) * c.ladder[|c.ladder| - 1] == Abs(c.ladder[idx] - c.ladder[prev])
  {
    var top := c.ladder[|c.ladder| - 1];
    DivideKeepsOrder(c.ladder[prev], c.ladder[idx], top);
    assert Quality(c.ladder, idx) * top == c.ladder[idx] && Quality(c.ladder, prev) * top == c.ladder[prev];
    Distribute(top, Quality(c.ladder, idx), Quality(c.ladder, prev));
    Distribute(top, Quality(c.ladder, prev), Quality(c.ladder, idx));
  }

  lemma {:induction false} VariationInBitrates(c: Controller, plan: Plan, prev: nat)
    requires c.Usable() && IsPlan(c, plan) && prev < |c.ladder| && 0.0 < c.ladder[|c.ladder| - 1]
    ensures Variation(c, plan, prev) * c.ladder[|c.ladder| - 1] == Jumps(c, plan, prev)
    decreases |plan|
  {
    hide Change, Abs;
    if plan != [] {
      ChangeInBitrates(c, plan[0], prev);
      VariationInBitrates(c, plan[1..], plan[0]);
      Distribute(c.ladder[|c.ladder| - 1], Change(c, plan[0], prev), Variation(c, plan[1..], plan[0]));
    }
  }

  // ---------------------------------------------------------------- the buffer along a plan

  /** The buffer holds what was there, the segments gained and the time stalled, less the time the bits took. */
  lemma BufferInBits(c: Controller, plan: Plan, s: Situation)
    requires Valid(c, s) && IsPlan(c, plan)
    ensures Moved(FinalBuffer(c, plan, s), s.throughput)
            == Moved(s.buffer + Video(c, |plan|) + TotalStall(c, plan, s), s.throughput) - Bits(c, plan)
  {
    hide Moved, Video;
    BufferConservation(c, plan, s);
    TimeIsBits(c, plan, s.throughput);
    MovedLess(s.buffer + Video(c, |plan|) + TotalStall(c, plan, s), TotalTime(c, plan, s.throughput), s.throughput);
  }

  /** How many of the first k downloads leave less than two seconds in the buffer. */
  function LowBuffers(c: Controller, plan: Plan, s: Situation, k: nat): nat
    requires Valid(c, s) && IsPlan(c, plan) && k <= |plan|
  {
    if k == 0 then 0
    else LowBuffers(c, plan, s, k - 1) + if FinalBuffer(c, plan[..k], s) < 2.0 then 1 else 0
  }

  lemma {:induction false} FinalBufferUnfolds(c: Controller, plan: Plan, s: Situation, k: nat)
    requires Valid(c, s) && IsPlan(c, plan) && 1 <= k <= |plan|
    ensures FinalBuffer(c, plan[..k], s) == FinalBuffer(c, plan[1..][..k - 1], Next(c, plan[0], s))
  {
    hide Next;
    assert plan[..k][1..] == plan[1..][..k - 1] && plan[..k][0] == plan[0];
  }

  lemma {:induction false} LowBuffersShift(c: Controller, plan: Plan, s: Situation, k: nat)
    requires Valid(c, s) && IsPlan(c, plan) && 1 <= k <= |plan|
    ensures LowBuffers(c, plan, s, k)
            == (if Next(c, plan[0], s).buffer < 2.0 then 1 else 0)
               + LowBuffers(c, plan[1..], Next(c, plan[0], s), k - 1)
    decreases k
  {
    hide Next;
    FinalBufferUnfolds(c, plan, s, k);
    if k == 1 {
      assert plan[1..][..0] == [];
      assert LowBuffers(c, plan, s, 0) == 0;
    } else {
      LowBuffersShift(c, plan, s, k - 1);
    }
  }

  // ---------------------------------------------------------------- the score

  /** What a plan scores, in its four parts. */
  function Net(c: Controller, quality: real, stall: real, variation: real, low: nat): real {
    Product(c.alpha, quality) - Product(c.beta, stall) - Product(c.gamma, variation) - Product(c.risk, low as real)
  }

  lemma NetAdds(c: Controller, q: real, w: real, v: real, low: nat, q1: real, w1: real, v1: real, low1: nat)
    ensures Net(c, q + q1, w + w1, v + v1, low + low1) == Net(c, q, w, v, low) + Net(c, q1, w1, v1, low1)
  {
    Distribute(c.alpha, q, q1);
    Distribute(c.beta, w, w1);
    Distribute(c.gamma, v, v1);
    Distribute(c.risk, low as real, low1 as real);
    assert (low + low1) as real == low as real + low1 as real;
  }

  lemma StageNet(c: Controller, idx: nat, s: Situation)
    requires Valid(c, s) && idx < |c.ladder|
    ensures StageScore(c, idx, s)
            == Net(c, Quality(c.ladder, idx), Stall(DownloadTime(c, idx, s.throughput), s.buffer),
                   Change(c, idx, s.current), if Next(c, idx, s).buffer < 2.0 then 1 else 0)
  {
    hide DownloadTime, Quality, Stall, Change;
    StageParts(c, idx, s);
    assert 1 as real * c.risk == c.risk && 0 as real * c.risk == 0.0;
  }

  lemma {:induction false} ScoreIsNet(c: Controller, plan: Plan, s: Situation)
    requires Valid(c, s) && IsPlan(c, plan)
    ensures Score(c, plan, s)
            == Net(c, TotalQuality(c, plan), TotalStall(c, plan, s), Variation(c, plan, s.current),
                   LowBuffers(c, plan, s, |plan|))
    decreases |plan|
  {
    if plan != [] {
      hide DownloadTime, Quality, Stall, Change, StageScore, Next, Net, LowBuffers;
      var rest, next := plan[1..], Next(c, plan[0], s);
      ScoreIsNet(c, rest, next);
      StageNet(c, plan[0], s);
      NextCurrent(c, plan[0], s);
      LowBuffersShift(c, plan, s, |plan|);
      NetAdds(c, Quality(c.ladder, plan[0]), Stall(DownloadTime(c, plan[0], s.throughput), s.buffer),
              Change(c, plan[0], s.current), if next.buffer < 2.0 then 1 else 0,
              TotalQuality(c, rest), TotalStall(c, rest, next), Variation(c, rest, plan[0]),
              LowBuffers(c, rest, next, |rest|));
    }
  }

  /**
   A plan scores alpha times its qualities, minus beta times the stall foreseen, gamma times its
   changes of quality, and the risk cost of each download after which less than two seconds are buffered.
   */
  lemma ScoreExactly(c: Controller, plan: Plan, s: Situation)
    requires Valid(c, s) && IsPlan(c, plan)
    ensures Score(c, plan, s)
            == c.alpha * TotalQuality(c, plan) - c.beta * TotalStall(c, plan, s)
               - c.gamma * Variation(c, plan, s.current) - LowBuffers(c, plan, s, |plan|) as real * c.risk
  {
    hide Score, TotalQuality, TotalStall, Variation, LowBuffers;
    ScoreIsNet(c, plan, s);
  }

  // ---------------------------------------------------------------- what follows on any network

  lemma SlowerTakesLonger(c: Controller, idx: nat, throughput: real)
    requires Rising(c.ladder) && idx < |c.ladder| && 0.0 <= c.duration
    ensures DownloadTime(c, 0, throughput) <= DownloadTime(c, idx, throughput)
  {
    MaxPositive(throughput);
    hide Max;
    MulKeepsOrder(c.ladder[0], c.ladder[idx], c.duration);
    DivideKeepsOrder(c.ladder[0] * c.duration, c.ladder[idx] * c.duration, Max(throughput, 1.0));
  }

  /** No plan stalls less than staying on the lowest level. */
  lemma {:induction false} LowestStallsLeast(c: Controller, plan: Plan, s: Situation, r: Situation)
    requires Rising(c.ladder) && Valid(c, s) && Valid(c, r) && IsPlan(c, plan) && 0.0 <= c.duration
    requires s.buffer <= r.buffer && s.throughput == r.throughput
    ensures IsPlan(c, Steady(0, |plan|)) && TotalStall(c, Steady(0, |plan|), r) <= TotalStall(c, plan, s)
    decreases |plan|
  {
    if plan != [] {
      hide DownloadTime;
      SteadyTail(0, |plan|);
      SlowerTakesLonger(c, plan[0], s.throughput);
      LowestStallsLeast(c, plan[1..], Next(c, plan[0], s), Next(c, 0, r));
    }
  }

  /** The quality of a number of segments on the lowest level. */
  function LeastQuality(c: Controller, length: nat): real
    requires c.Usable()
  {
    length as real * Quality(c.ladder, 0)
  }

  lemma {:induction false} SteadyParts(c: Controller, length: nat, prev: nat)
    requires Sane(c) && c.Usable() && prev < |c.ladder|
    ensures IsPlan(c, Steady(0, length))
    ensures TotalQuality(c, Steady(0, length)) == LeastQuality(c, length)
    ensures Variation(c, Steady(0, length), prev) <= Quality(c.ladder, prev) - Quality(c.ladder, 0)
    decreases length
  {
    AbsUp(c, prev, 0);
    QualityRises(c.ladder, 0, prev);
    hide Quality, Change;
    if length != 0 {
      SteadyTail(0, length);
      SteadyParts(c, length - 1, 0);
      var q := Quality(c.ladder, 0);
      assert length as real * q == (length - 1) as real * q + q;
    }
  }

  lemma {:induction false} LowBuffersBound(c: Controller, plan: Plan, s: Situation, k: nat)
    requires Valid(c, s) && IsPlan(c, plan) && k <= |plan|
    ensures LowBuffers(c, plan, s, k) <= k
    decreases k
  {
    if k != 0 {
      LowBuffersBound(c, plan, s, k - 1);
    }
  }

  /** The seconds of stall that the quality, the switch down and the risk cost of a horizon can outweigh. */
  function ExcessLimit(c: Controller, now: nat): real
    requires c.Usable() && now < |c.ladder| && 0.0 < c.beta
  {
    (Product(c.alpha, c.Horizon() as real - LeastQuality(c, c.Horizon()))
     + Product(c.gamma, Quality(c.ladder, now) - Quality(c.ladder, 0)) + Product(c.risk, c.Horizon() as real)) / c.beta
  }

  lemma ProductGrows(k: real, a: real, b: real)
    requires 0.0 <= k
    ensures a <= b ==> Product(k, a) <= Product(k, b)
    ensures Product(k, b - a) == Product(k, b) - Product(k, a) && Product(k, 0.0) == 0.0
  {
    Distribute(k, b, a);
    if a <= b {
      MulKeepsOrder(a, b, k);
    }
  }

  lemma Divided(beta: real, stall: real, stall0: real, bound: real)
    requires 0.0 < beta && Product(beta, stall) - Product(beta, stall0) <= bound
    ensures stall <= stall0 + bound / beta
  {
    Distribute(beta, stall, stall0);
    DivideKeepsOrder(beta * (stall - stall0), bound, beta);
    assert beta * (stall - stall0) / beta == stall - stall0;
  }

  lemma ExcessArithmetic(c: Controller, now: nat, total: real, v: real, stall: real, low: nat,
                         v0: real, stall0: real, low0: nat)
    requires c.Usable() && now < |c.ladder| && Penalising(c) && 0.0 < c.beta
    requires total <= c.Horizon() as real && 0.0 <= v && low0 <= c.Horizon()
    requires v0 <= Quality(c.ladder, now) - Quality(c.ladder, 0)
    requires Net(c, LeastQuality(c, c.Horizon()), stall0, v0, low0) <= Net(c, total, stall, v, low)
    ensures stall <= stall0 + ExcessLimit(c, now)
  {
    hide Quality, LeastQuality, Product;
    var h, least := c.Horizon() as real, LeastQuality(c, c.Horizon());
    var climb := Quality(c.ladder, now) - Quality(c.ladder, 0);
    ProductGrows(c.alpha, total, h);
    ProductGrows(c.alpha, least, h);
    ProductGrows(c.gamma, 0.0, v);
    ProductGrows(c.gamma, v0, climb);
    ProductGrows(c.risk, 0.0, low as real);
    ProductGrows(c.risk, low0 as real, h);
    Divided(c.beta, stall, stall0, Product(c.alpha, h - least) + Product(c.gamma, climb) + Product(c.risk, h));
  }

  /** On any network an optimal plan stalls at most for the least possible stall and what the weights outweigh. */
  lemma {:induction false} ExcessStall(c: Controller, s: Situation, plan: Plan)
    requires Sane(c) && Valid(c, s) && 0.0 < c.beta && Optimal(c, s, plan)
    ensures IsPlan(c, Steady(0, c.Horizon()))
    ensures TotalStall(c, plan, s) <= TotalStall(c, Steady(0, c.Horizon()), s) + ExcessLimit(c, s.current)
  {
    SteadyIsCandidate(c, 0);
    var stay := Steady(0, c.Horizon());
    assert Score(c, stay, s) <= Score(c, plan, s);
    hide Score, TotalQuality, TotalStall, Variation, Steady, LowBuffers, ExcessLimit, Quality, LeastQuality, Net;
    SteadyParts(c, c.Horizon(), s.current);
    AllAtMostOne(c, plan);
    VariationReaches(c, plan, s.current, 0);
    LowBuffersBound(c, stay, s, |stay|);
    ScoreIsNet(c, plan, s);
    ScoreIsNet(c, stay, s);
    ExcessArithmetic(c, s.current, TotalQuality(c, plan), Variation(c, plan, s.current),
                     TotalStall(c, plan, s), LowBuffers(c, plan, s, |plan|), Variation(c, stay, s.current),
                     TotalStall(c, stay, s), LowBuffers(c, stay, s, |stay|));
  }

  /** So its first segment arrives within the buffered time, that least stall and that limit. */
  lemma {:induction false} FirstArrives(c: Controller, s: Situation, plan: Plan)
    requires Sane(c) && Valid(c, s) && 0.0 < c.beta && Optimal(c, s, plan)
    ensures IsPlan(c, Steady(0, c.Horizon()))
    ensures c.ladder[plan[0]] * c.duration
            <= Moved(s.buffer + (TotalStall(c, Steady(0, c.Horizon()), s) + ExcessLimit(c, s.current)), s.throughput)
  {
    ExcessStall(c, s, plan);
    hide Moved, ExcessLimit, TotalStall, Steady, Score;
    FirstStall(c, plan, s);
    MovedLess(s.buffer + TotalStall(c, plan, s),
              s.buffer + (TotalStall(c, Steady(0, c.Horizon()), s) + ExcessLimit(c, s.current)), s.throughput);
  }
}
