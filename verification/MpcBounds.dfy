/** What predictive control guarantees in numbers: stalls in closed form, monotonicity, and the level it picks. */
module MpcBounds {
  import opened Arithmetic
  import opened Ladder
  import opened Mpc

  // ---------------------------------------------------------------- stalls in closed form

  function TotalTime(c: Controller, plan: Plan, throughput: real): real
    requires IsPlan(c, plan)
  {
    if plan == [] then 0.0 else DownloadTime(c, plan[0], throughput) + TotalTime(c, plan[1..], throughput)
  }

  /** Stall time accumulated while simulating a plan. */
  function TotalStall(c: Controller, plan: Plan, s: Situation): real
    requires Valid(c, s) && IsPlan(c, plan)
  {
    if plan == [] then 0.0
    else Stall(DownloadTime(c, plan[0], s.throughput), s.buffer) + TotalStall(c, plan[1..], Next(c, plan[0], s))
  }

  function FinalBuffer(c: Controller, plan: Plan, s: Situation): real
    requires Valid(c, s) && IsPlan(c, plan)
  {
    if plan == [] then s.buffer else FinalBuffer(c, plan[1..], Next(c, plan[0], s))
  }

  /** By how much the first k downloads outrun the starting buffer and the k - 1 segments gained before the last. */
  function Deficit(c: Controller, plan: Plan, s: Situation, k: nat): real
    requires IsPlan(c, plan) && 1 <= k <= |plan|
  {
    TotalTime(c, plan[..k], s.throughput) - s.buffer - Video(c, k - 1)
  }

  /** Seconds of video in a number of segments. */
  function Video(c: Controller, segments: int): real { segments as real * c.duration }

  lemma VideoOneMore(c: Controller, segments: int)
    ensures Video(c, segments) == Video(c, segments - 1) + c.duration
    ensures Video(c, 0) == 0.0
  {
    assert segments as real == (segments - 1) as real + 1.0;
    Distribute(c.duration, (segments - 1) as real, 1.0);
  }

  lemma DeficitShift(c: Controller, plan: Plan, s: Situation, k: nat)
    requires Valid(c, s) && IsPlan(c, plan) && 1 <= k < |plan|
    ensures Deficit(c, plan, s, k + 1)
            == Deficit(c, plan[1..], Next(c, plan[0], s), k) + Stall(DownloadTime(c, plan[0], s.throughput), s.buffer)
  {
    hide DownloadTime, Video;
    assert plan[..k + 1][1..] == plan[1..][..k] && plan[..k + 1][0] == plan[0];
    assert TotalTime(c, plan[..k + 1], s.throughput)
           == DownloadTime(c, plan[0], s.throughput) + TotalTime(c, plan[1..][..k], s.throughput);
    VideoOneMore(c, k);
  }

  lemma DeficitFirst(c: Controller, plan: Plan, s: Situation)
    requires IsPlan(c, plan) && plan != []
    ensures Deficit(c, plan, s, 1) == DownloadTime(c, plan[0], s.throughput) - s.buffer
  {
    hide DownloadTime, Video;
    VideoOneMore(c, 0);
    assert plan[..1][1..] == [];
    assert TotalTime(c, plan[..1][1..], s.throughput) == 0.0;
    assert plan[..1][0] == plan[0];
  }

  /** The reflected walk: total stall is the largest deficit, or nothing when no deficit is positive. */
  lemma {:induction false} StallClosedForm(c: Controller, plan: Plan, s: Situation)
    requires Valid(c, s) && IsPlan(c, plan)
    ensures 0.0 <= TotalStall(c, plan, s)
    ensures forall k :: 1 <= k <= |plan| ==> Deficit(c, plan, s, k) <= TotalStall(c, plan, s)
    ensures TotalStall(c, plan, s) == 0.0
            || exists k :: 1 <= k <= |plan| && Deficit(c, plan, s, k) == TotalStall(c, plan, s)
    decreases |plan|
  {
    hide DownloadTime, Deficit, Next;
    if plan != [] {
      var rest, next := plan[1..], Next(c, plan[0], s);
      StallClosedForm(c, rest, next);
      DeficitFirst(c, plan, s);
      forall k | 1 <= k <= |plan| ensures Deficit(c, plan, s, k) <= TotalStall(c, plan, s) {
        if 1 < k {
          DeficitShift(c, plan, s, k - 1);
        }
      }
      if TotalStall(c, rest, next) != 0.0 {
        var k :| 1 <= k <= |rest| && Deficit(c, rest, next, k) == TotalStall(c, rest, next);
        DeficitShift(c, plan, s, k);
        assert Deficit(c, plan, s, k + 1) == TotalStall(c, plan, s);
      } else if TotalStall(c, plan, s) != 0.0 {
        assert Deficit(c, plan, s, 1) == TotalStall(c, plan, s);
      }
    }
  }

  // ---------------------------------------------------------------- in bits and seconds

  /** The bits a plan downloads. */
  function Bits(c: Controller, plan: Plan): real
    requires IsPlan(c, plan)
  {
    if plan == [] then 0.0 else c.ladder[plan[0]] * c.duration + Bits(c, plan[1..])
  }

  /** The bits that move in some seconds; the controller reckons with one bit a second at least. */
  function Moved(seconds: real, throughput: real): real { seconds * Max(throughput, 1.0) }

  lemma DownloadBits(c: Controller, idx: nat, throughput: real)
    requires idx < |c.ladder|
    ensures Moved(DownloadTime(c, idx, throughput), throughput) == c.ladder[idx] * c.duration
  {
    hide Max;
    assert 0.0 < Max(throughput, 1.0) by {
      MaxPositive(throughput);
    }
  }

  lemma MaxPositive(throughput: real)
    ensures 1.0 <= Max(throughput, 1.0)
  {
  }

  /** Downloads move their bits at the throughput, or at one bit per second if it is less. */
  lemma {:induction false} TimeIsBits(c: Controller, plan: Plan, throughput: real)
    requires IsPlan(c, plan)
    ensures Moved(TotalTime(c, plan, throughput), throughput) == Bits(c, plan)
    decreases |plan|
  {
    hide Max, DownloadTime;
    if plan == [] {
      assert 0.0 * Max(throughput, 1.0) == 0.0;
    } else {
      DownloadBits(c, plan[0], throughput);
      TimeIsBits(c, plan[1..], throughput);
      Distribute(Max(throughput, 1.0), DownloadTime(c, plan[0], throughput), TotalTime(c, plan[1..], throughput));
    }
  }

  /** A level downloads within its own duration exactly when its bitrate is at most the throughput. */
  lemma KeepsUpExactly(c: Controller, idx: nat, throughput: real)
    requires idx < |c.ladder| && 1.0 <= throughput && 0.0 < c.duration
    ensures DownloadTime(c, idx, throughput) <= c.duration <==> c.ladder[idx] <= throughput
  {
    hide DownloadTime;
    DownloadBits(c, idx, throughput);
    SameOrder(DownloadTime(c, idx, throughput), c.duration, throughput);
    SameOrder(c.ladder[idx], throughput, c.duration);
  }

  lemma SameOrder(a: real, b: real, k: real)
    requires 0.0 < k
    ensures a <= b <==> a * k <= b * k
  {
    if a <= b {
      MulKeepsOrder(a, b, k);
    } else {
      MulStrict(k, b, a);
    }
  }

  /** The bits by which the first k downloads exceed what moves in the buffered time and the k - 1 segments gained. */
  function Excess(c: Controller, plan: Plan, s: Situation, k: nat): real
    requires IsPlan(c, plan) && 1 <= k <= |plan|
  {
    Bits(c, plan[..k]) - Moved(s.buffer + (k - 1) as real * c.duration, s.throughput)
  }

  lemma MovedLess(a: real, b: real, throughput: real)
    ensures Moved(a - b, throughput) == Moved(a, throughput) - Moved(b, throughput)
    ensures a <= b ==> Moved(a, throughput) <= Moved(b, throughput)
  {
    MaxPositive(throughput);
    hide Max;
    Distribute(Max(throughput, 1.0), a, b);
    if a <= b {
      MulKeepsOrder(a, b, Max(throughput, 1.0));
    }
  }

  lemma ExcessIsDeficit(c: Controller, plan: Plan, s: Situation, k: nat)
    requires IsPlan(c, plan) && 1 <= k <= |plan|
    ensures Excess(c, plan, s, k) == Moved(Deficit(c, plan, s, k), s.throughput)
  {
    TimeIsBits(c, plan[..k], s.throughput);
    hide Moved, TotalTime;
    MovedLess(TotalTime(c, plan[..k], s.throughput), s.buffer + (k - 1) as real * c.duration, s.throughput);
  }

  /** The stall foreseen is the time to move the largest excess of bits over any prefix, or nothing. */
  lemma StallInBits(c: Controller, plan: Plan, s: Situation)
    requires Valid(c, s) && IsPlan(c, plan)
    ensures 0.0 <= TotalStall(c, plan, s)
    ensures forall k :: 1 <= k <= |plan| ==> Excess(c, plan, s, k) <= Moved(TotalStall(c, plan, s), s.throughput)
    ensures TotalStall(c, plan, s) == 0.0
            || exists k :: 1 <= k <= |plan| && Excess(c, plan, s, k) == Moved(TotalStall(c, plan, s), s.throughput)
  {
    StallClosedForm(c, plan, s);
    hide TotalStall, Deficit, Excess, Moved;
    forall k | 1 <= k <= |plan| ensures Excess(c, plan, s, k) <= Moved(TotalStall(c, plan, s), s.throughput) {
      ExcessIsDeficit(c, plan, s, k);
      MovedLess(Deficit(c, plan, s, k), TotalStall(c, plan, s), s.throughput);
    }
    if TotalStall(c, plan, s) != 0.0 {
      var k :| 1 <= k <= |plan| && Deficit(c, plan, s, k) == TotalStall(c, plan, s);
      ExcessIsDeficit(c, plan, s, k);
    }
  }

  /** Conservation: the buffer gains every segment and every stalled second, and loses every download second. */
  lemma {:induction false} BufferConservation(c: Controller, plan: Plan, s: Situation)
    requires Valid(c, s) && IsPlan(c, plan)
    ensures FinalBuffer(c, plan, s)
            == s.buffer + Video(c, |plan|) - TotalTime(c, plan, s.throughput) + TotalStall(c, plan, s)
    decreases |plan|
  {
    hide DownloadTime, Video;
    VideoOneMore(c, |plan|);
    if plan != [] {
      BufferConservation(c, plan[1..], Next(c, plan[0], s));
    }
  }

  // ---------------------------------------------------------------- monotonicity

  predicate Better(s: Situation, r: Situation) {
    s.buffer <= r.buffer && s.throughput <= r.throughput && s.current == r.current
  }

  predicate Penalising(c: Controller) {
    0.0 <= c.alpha && 0.0 <= c.beta && 0.0 <= c.gamma && 0.0 <= c.risk
  }

  predicate Positive(c: Controller) { 0.0 <= c.duration && forall i :: 0 <= i < |c.ladder| ==> 0.0 <= c.ladder[i] }

  lemma FasterIsShorter(c: Controller, idx: nat, slow: real, fast: real)
    requires Positive(c) && idx < |c.ladder| && slow <= fast
    ensures DownloadTime(c, idx, fast) <= DownloadTime(c, idx, slow)
    ensures 0.0 <= DownloadTime(c, idx, fast)
  {
    assert 0.0 < Max(slow, 1.0) <= Max(fast, 1.0);
    hide Max;
    NonNegative(c.ladder[idx], c.duration);
    QuotientFalls(c.ladder[idx] * c.duration, Max(slow, 1.0), Max(fast, 1.0));
  }

  lemma NextBetter(c: Controller, idx: nat, s: Situation, r: Situation)
    requires Valid(c, s) && Valid(c, r) && idx < |c.ladder| && Better(s, r) && Positive(c)
    ensures Better(Next(c, idx, s), Next(c, idx, r))
    ensures Stall(DownloadTime(c, idx, r.throughput), r.buffer) <= Stall(DownloadTime(c, idx, s.throughput), s.buffer)
  {
    FasterIsShorter(c, idx, s.throughput, r.throughput);
    hide DownloadTime;
  }

  /** A stage score as its four parts. */
  lemma StageParts(c: Controller, idx: nat, s: Situation)
    requires Valid(c, s) && idx < |c.ladder|
    ensures StageScore(c, idx, s)
            == c.alpha * Quality(c.ladder, idx) - c.beta * Stall(DownloadTime(c, idx, s.throughput), s.buffer)
               - c.gamma * Change(c, idx, s.current) - RiskCost(c, Next(c, idx, s).buffer)
  {
  }

  lemma RiskFalls(c: Controller, low: real, high: real)
    requires Penalising(c) && low <= high
    ensures RiskCost(c, high) <= RiskCost(c, low)
  {
  }

  lemma StageMonotone(c: Controller, idx: nat, s: Situation, r: Situation)
    requires Valid(c, s) && Valid(c, r) && idx < |c.ladder| && Better(s, r) && Positive(c) && Penalising(c)
    ensures StageScore(c, idx, s) <= StageScore(c, idx, r)
  {
    hide StageScore, DownloadTime, Change, Quality, Next, Stall, RiskCost;
    NextBetter(c, idx, s, r);
    StageParts(c, idx, s);
    StageParts(c, idx, r);
    var less := Stall(DownloadTime(c, idx, r.throughput), r.buffer);
    var more := Stall(DownloadTime(c, idx, s.throughput), s.buffer);
    MulKeepsOrder(less, more, c.beta);
    RiskFalls(c, Next(c, idx, s).buffer, Next(c, idx, r).buffer);
  }

  /** A fuller buffer and a faster network never lower a plan's score, nor lengthen its stalls. */
  lemma {:induction false} ScoreMonotone(c: Controller, plan: Plan, s: Situation, r: Situation)
    requires Valid(c, s) && Valid(c, r) && IsPlan(c, plan) && Better(s, r) && Positive(c) && Penalising(c)
    ensures Score(c, plan, s) <= Score(c, plan, r)
    ensures TotalStall(c, plan, r) <= TotalStall(c, plan, s)
    decreases |plan|
  {
    hide DownloadTime, StageScore, Next;
    if plan != [] {
      StageMonotone(c, plan[0], s, r);
      NextBetter(c, plan[0], s, r);
      ScoreMonotone(c, plan[1..], Next(c, plan[0], s), Next(c, plan[0], r));
    }
  }

  lemma ValueMonotone(c: Controller, horizon: nat, s: Situation, r: Situation)
    requires Valid(c, s) && Valid(c, r) && Better(s, r) && Positive(c) && Penalising(c)
    ensures Value(c, horizon, s) <= Value(c, horizon, r)
  {
    var plan := ValueReached(c, horizon, s);
    ScoreMonotone(c, plan, s, r);
    NoPlanBeatsValue(c, plan, r);
  }

  // ---------------------------------------------------------------- quality and its variation

  function TotalQuality(c: Controller, plan: Plan): real
    requires c.Usable() && IsPlan(c, plan)
  {
    if plan == [] then 0.0 else Quality(c.ladder, plan[0]) + TotalQuality(c, plan[1..])
  }

  function Variation(c: Controller, plan: Plan, prev: nat): real
    requires c.Usable() && IsPlan(c, plan) && prev < |c.ladder|
  {
    if plan == [] then 0.0 else Change(c, plan[0], prev) + Variation(c, plan[1..], plan[0])
  }

  lemma {:induction false} ScoreUpper(c: Controller, plan: Plan, s: Situation)
    requires Valid(c, s) && IsPlan(c, plan) && Penalising(c)
    ensures Score(c, plan, s)
            <= c.alpha * TotalQuality(c, plan) - c.beta * TotalStall(c, plan, s)
               - c.gamma * Variation(c, plan, s.current)
    decreases |plan|
  {
    hide DownloadTime, Quality, Change, StageScore, Stall, Next;
    if plan != [] {
      var rest, next := plan[1..], Next(c, plan[0], s);
      ScoreUpper(c, rest, next);
      StageParts(c, plan[0], s);
      NextCurrent(c, plan[0], s);
      Distribute(c.alpha, Quality(c.ladder, plan[0]), TotalQuality(c, rest));
      Distribute(c.beta, Stall(DownloadTime(c, plan[0], s.throughput), s.buffer), TotalStall(c, rest, next));
      Distribute(c.gamma, Change(c, plan[0], s.current), Variation(c, rest, plan[0]));
      var q, w, v := TotalQuality(c, plan), TotalStall(c, plan, s), Variation(c, plan, s.current);
      assert q == Quality(c.ladder, plan[0]) + TotalQuality(c, rest);
      assert w == Stall(DownloadTime(c, plan[0], s.throughput), s.buffer) + TotalStall(c, rest, next);
      assert v == Change(c, plan[0], s.current) + Variation(c, rest, plan[0]);
      assert 0.0 <= RiskCost(c, next.buffer);
    }
  }

  lemma NextCurrent(c: Controller, idx: nat, s: Situation)
    requires Valid(c, s) && idx < |c.ladder|
    ensures Next(c, idx, s).current == idx && Next(c, idx, s).throughput == s.throughput
  {
  }

  /** Whatever level a plan visits, its variation covers the climb from the current one. */
  lemma {:induction false} VariationReaches(c: Controller, plan: Plan, prev: nat, i: nat)
    requires c.Usable() && IsPlan(c, plan) && prev < |c.ladder| && i < |plan|
    ensures Quality(c.ladder, plan[i]) - Quality(c.ladder, prev) <= Variation(c, plan, prev)
    ensures 0.0 <= Variation(c, plan, prev)
    decreases |plan|
  {
    hide Quality;
    if 1 < |plan| {
      VariationReaches(c, plan[1..], plan[0], if i == 0 then 0 else i - 1);
    }
  }

  lemma {:induction false} TotalQualityBound(c: Controller, plan: Plan, m: real)
    requires c.Usable() && IsPlan(c, plan)
    requires forall i :: 0 <= i < |plan| ==> Quality(c.ladder, plan[i]) <= m
    ensures TotalQuality(c, plan) <= |plan| as real * m
    decreases |plan|
  {
    hide Quality;
    if plan != [] {
      TotalQualityBound(c, plan[1..], m);
      assert |plan| as real * m == |plan[1..]| as real * m + m;
    }
  }

  // ---------------------------------------------------------------- staying on one level

  function Steady(level: nat, length: nat): Plan { seq(length, _ => level) }

  lemma SteadyTail(level: nat, length: nat)
    requires 0 < length
    ensures Steady(level, length)[1..] == Steady(level, length - 1) && Steady(level, length)[0] == level
  {
  }

  /** A level whose segments arrive no slower than they play, from a buffer that covers one download. */
  predicate Sustainable(c: Controller, level: nat, s: Situation)
    requires level < |c.ladder|
  {
    && 2.0 <= c.duration && c.ladder[level] * c.duration <= Moved(s.buffer, s.throughput)
    && c.ladder[level] * c.duration <= Moved(c.duration, s.throughput)
  }

  lemma ArrivesWithin(c: Controller, level: nat, throughput: real, seconds: real)
    requires level < |c.ladder|
    ensures c.ladder[level] * c.duration <= Moved(seconds, throughput)
            <==> DownloadTime(c, level, throughput) <= seconds
  {
    DownloadBits(c, level, throughput);
    MaxPositive(throughput);
    hide Max, DownloadTime;
    SameOrder(DownloadTime(c, level, throughput), seconds, Max(throughput, 1.0));
  }

  /** What staying on a level brings when nothing stalls: its quality each time, less one change. */
  function SteadyNet(c: Controller, level: nat, length: nat, prev: nat): real
    requires c.Usable() && level < |c.ladder| && prev < |c.ladder|
  {
    c.alpha * (length as real * Quality(c.ladder, level))
    - if length == 0 then 0.0 else c.gamma * Change(c, level, prev)
  }

  lemma {:induction false} SteadyScore(c: Controller, level: nat, length: nat, s: Situation)
    requires Valid(c, s) && level < |c.ladder| && Sustainable(c, level, s)
    ensures IsPlan(c, Steady(level, length))
    ensures Score(c, Steady(level, length), s) == SteadyNet(c, level, length, s.current)
    decreases length
  {
    hide DownloadTime, Quality, Moved;
    if length != 0 {
      SteadyTail(level, length);
      ArrivesWithin(c, level, s.throughput, s.buffer);
      ArrivesWithin(c, level, s.throughput, c.duration);
      var next := Next(c, level, s);
      ArrivesWithin(c, level, s.throughput, next.buffer);
      SteadyScore(c, level, length - 1, next);
      var q := Quality(c.ladder, level);
      assert Change(c, level, level) == 0.0;
      assert length as real * q == (length - 1) as real * q + q;
      assert c.alpha * (length as real * q) == c.alpha * ((length - 1) as real * q) + c.alpha * q;
    }
  }
}
