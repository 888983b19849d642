/** Model-predictive control: plans over a short horizon, their simulated score, and the exhaustive search. */
module Mpc {
  import opened Wrappers
  import opened Arithmetic
  import opened Ladder

  datatype Controller = Controller(ladder: Ladder, lookahead: int, alpha: real, beta: real, gamma: real,
                                   risk: real, duration: real)
  {
    predicate Usable() { ladder != [] && ladder[|ladder| - 1] != 0.0 }

    function Horizon(): (h: nat)
      ensures 1 <= h
    {
      if lookahead < 1 then 1 else lookahead
    }
  }

  /** What a decision is based on: buffered seconds, throughput estimate and the level in force. */
  datatype Situation = Situation(buffer: real, throughput: real, current: nat)

  predicate Valid(c: Controller, s: Situation) { c.Usable() && s.current < |c.ladder| }

  type Plan = seq<nat>

  predicate IsPlan(c: Controller, plan: Plan) { forall i :: 0 <= i < |plan| ==> plan[i] < |c.ladder| }

  // ---------------------------------------------------------------- one segment ahead

  function DownloadTime(c: Controller, idx: nat, throughput: real): real
    requires idx < |c.ladder|
  {
    c.ladder[idx] * c.duration / Max(throughput, 1.0)
  }

  function Stall(time: real, buffer: real): real { Max(0.0, time - buffer) }

  function NextBuffer(c: Controller, time: real, buffer: real): real { Max(0.0, buffer - time) + c.duration }

  function Change(c: Controller, idx: nat, prev: nat): real
    requires c.Usable() && idx < |c.ladder| && prev < |c.ladder|
  {
    Abs(Quality(c.ladder, idx) - Quality(c.ladder, prev))
  }

  function Gain(c: Controller, idx: nat): real
    requires c.Usable() && idx < |c.ladder|
  {
    c.alpha * Quality(c.ladder, idx)
  }

  function StallCost(c: Controller, stall: real): real { c.beta * stall }

  function SwitchCost(c: Controller, idx: nat, prev: nat): real
    requires c.Usable() && idx < |c.ladder| && prev < |c.ladder|
  {
    c.gamma * Change(c, idx, prev)
  }

  function RiskCost(c: Controller, buffer: real): real { if buffer < 2.0 then c.risk else 0.0 }

  function StageScore(c: Controller, idx: nat, s: Situation): real
    requires Valid(c, s) && idx < |c.ladder|
  {
    var time := DownloadTime(c, idx, s.throughput);
    Gain(c, idx) - StallCost(c, Stall(time, s.buffer)) - SwitchCost(c, idx, s.current)
    - RiskCost(c, NextBuffer(c, time, s.buffer))
  }

  /** The situation after downloading one segment at a level. */
  function Next(c: Controller, idx: nat, s: Situation): (n: Situation)
    requires Valid(c, s) && idx < |c.ladder|
    ensures Valid(c, n)
  {
    Situation(NextBuffer(c, DownloadTime(c, idx, s.throughput), s.buffer), s.throughput, idx)
  }

  function Score(c: Controller, plan: Plan, s: Situation): real
    requires Valid(c, s) && IsPlan(c, plan)
  {
    if plan == [] then 0.0
    else StageScore(c, plan[0], s) + Score(c, plan[1..], Next(c, plan[0], s))
  }

  lemma ScoreFrom(c: Controller, plan: Plan, i: nat, s: Situation)
    requires Valid(c, s) && IsPlan(c, plan) && i < |plan|
    ensures Score(c, plan[i..], s) == StageScore(c, plan[i], s) + Score(c, plan[i + 1..], Next(c, plan[i], s))
  {
    assert plan[i..][1..] == plan[i + 1..];
  }

  lemma ScoreEnds(c: Controller, plan: Plan, s: Situation)
    requires Valid(c, s) && IsPlan(c, plan)
    ensures Score(c, plan[0..], s) == Score(c, plan, s) && Score(c, plan[|plan|..], s) == 0.0
  {
    assert plan[0..] == plan;
  }

  method Simulate(c: Controller, plan: Plan, s: Situation) returns (score: real)
    requires Valid(c, s) && IsPlan(c, plan)
    ensures score == Score(c, plan, s)
  {
    hide Gain, StallCost, SwitchCost, DownloadTime, Stall, Max, Score;
    var b := s.buffer;
    var prev: nat := s.current;
    score := 0.0;
    ScoreEnds(c, plan, s);
    var i := 0;
    while i < |plan|
      invariant 0 <= i <= |plan| && prev < |c.ladder|
      invariant Score(c, plan, s) == score + Score(c, plan[i..], Situation(b, s.throughput, prev))
    {
      var idx := plan[i];
      var time := DownloadTime(c, idx, s.throughput);
      var rebuffer := Stall(time, b);
      ghost var now := Situation(b, s.throughput, prev);
      ScoreFrom(c, plan, i, now);
      b := Max(0.0, b - time) + c.duration;
      score := score + Gain(c, idx);
      score := score - StallCost(c, rebuffer);
      score := score - SwitchCost(c, idx, prev);
      if b < 2.0 {
        score := score - c.risk;
      }
      prev := idx;
      i := i + 1;
    }
    ScoreEnds(c, plan, Situation(b, s.throughput, prev));
  }

  // ---------------------------------------------------------------- all plans, in lexicographic order

  function Prefixed(first: nat, tails: seq<Plan>): (r: seq<Plan>)
    ensures |r| == |tails| && forall k :: 0 <= k < |r| ==> r[k] == [first] + tails[k]
  {
    seq(|tails|, k requires 0 <= k < |tails| => [first] + tails[k])
  }

  function Plans(levels: nat, horizon: nat): seq<Plan>
    decreases horizon, levels + 1
  {
    if horizon == 0 then [[]] else PlansFrom(levels, horizon, 0)
  }

  /** Plans whose first level is `first` or higher. */
  function PlansFrom(levels: nat, horizon: nat, first: nat): seq<Plan>
    requires 0 < horizon
    decreases horizon, levels - first
  {
    if levels <= first then [] else Prefixed(first, Plans(levels, horizon - 1)) + PlansFrom(levels, horizon, first + 1)
  }

  ghost predicate InRange(plan: Plan, levels: nat) { forall i :: 0 <= i < |plan| ==> plan[i] < levels }

  lemma {:induction false} PlansSound(levels: nat, horizon: nat, k: nat)
    requires k < |Plans(levels, horizon)|
    ensures |Plans(levels, horizon)[k]| == horizon && InRange(Plans(levels, horizon)[k], levels)
    decreases horizon, levels + 1
  {
    if 0 < horizon {
      PlansFromSound(levels, horizon, 0, k);
    }
  }

  lemma {:induction false} PlansFromSound(levels: nat, horizon: nat, first: nat, k: nat)
    requires 0 < horizon && k < |PlansFrom(levels, horizon, first)|
    ensures var plan := PlansFrom(levels, horizon, first)[k];
            |plan| == horizon && InRange(plan, levels) && first <= plan[0]
    decreases horizon, levels - first
  {
    var block := Plans(levels, horizon - 1);
    if k < |block| {
      PlansSound(levels, horizon - 1, k);
    } else {
      PlansFromSound(levels, horizon, first + 1, k - |block|);
    }
  }

  lemma {:induction false} PlansComplete(levels: nat, horizon: nat, plan: Plan) returns (k: nat)
    requires |plan| == horizon && InRange(plan, levels)
    ensures k < |Plans(levels, horizon)| && Plans(levels, horizon)[k] == plan
    decreases horizon, levels + 1
  {
    if horizon == 0 {
      k := 0;
    } else {
      k := PlansFromComplete(levels, horizon, 0, plan);
    }
  }

  lemma {:induction false} PlansFromComplete(levels: nat, horizon: nat, first: nat, plan: Plan) returns (k: nat)
    requires 0 < horizon == |plan| && InRange(plan, levels) && first <= plan[0]
    ensures k < |PlansFrom(levels, horizon, first)| && PlansFrom(levels, horizon, first)[k] == plan
    decreases horizon, levels - first
  {
    var block := Plans(levels, horizon - 1);
    if plan[0] == first {
      k := PlansComplete(levels, horizon - 1, plan[1..]);
      assert [first] + plan[1..] == plan;
    } else {
      k := PlansFromComplete(levels, horizon, first + 1, plan);
      k := k + |block|;
    }
  }

  /** First levels never go down along the enumeration. */
  lemma {:induction false} FirstsRise(levels: nat, horizon: nat, first: nat, j: nat, k: nat)
    requires 0 < horizon && j <= k < |PlansFrom(levels, horizon, first)|
    requires |PlansFrom(levels, horizon, first)[j]| == |PlansFrom(levels, horizon, first)[k]| == horizon
    ensures PlansFrom(levels, horizon, first)[j][0] <= PlansFrom(levels, horizon, first)[k][0]
    decreases levels - first
  {
    var block := Plans(levels, horizon - 1);
    if j < |block| {
      PlansFromSound(levels, horizon, first, k);
    } else {
      FirstsRise(levels, horizon, first + 1, j - |block|, k - |block|);
    }
  }

  // ---------------------------------------------------------------- the search

  /** The plans searched: one level for each segment of the horizon, which is never shorter than one. */
  ghost predicate Candidate(c: Controller, plan: Plan) { |plan| == c.Horizon() && IsPlan(c, plan) }

  ghost predicate Optimal(c: Controller, s: Situation, plan: Plan)
    requires Valid(c, s)
  {
    && Candidate(c, plan)
    && forall p: Plan :: Candidate(c, p) ==> Score(c, p, s) <= Score(c, plan, s)
  }

  /** The lowest level from which some best plan starts. */
  ghost predicate IsChoice(c: Controller, s: Situation, level: nat)
    requires Valid(c, s)
  {
    && (exists plan :: Optimal(c, s, plan) && plan[0] == level)
    && (forall plan :: Optimal(c, s, plan) ==> level <= plan[0])
  }

  method Select(c: Controller, s: Situation) returns (bestFirst: nat)
    requires Valid(c, s)
    ensures var e := s.(throughput := if s.throughput == 0.0 then c.ladder[0] else s.throughput);
            && IsChoice(c, e, bestFirst)
            && exists plan :: Optimal(c, e, plan) && plan[0] == bestFirst
                              && |plan| == if c.lookahead < 1 then 1 else c.lookahead
  {
    var e := s.(throughput := if s.throughput == 0.0 then c.ladder[0] else s.throughput);
    var plans := Plans(|c.ladder|, c.Horizon());
    bestFirst := Clamp(c.ladder, s.current);
    var bestScore: Option<real> := None;
    ghost var best := 0;
    SomePlan(c);
    forall i | 0 <= i < |plans| ensures Candidate(c, plans[i]) {
      PlansSound(|c.ladder|, c.Horizon(), i);
    }
    assert AllCandidates(c, plans);
    var k := 0;
    while k < |plans|
      invariant 0 <= k <= |plans|
      invariant bestScore.None? <==> k == 0
      invariant bestScore.Some? ==> && 0 <= best < k && bestFirst == plans[best][0]
                                    && bestScore.value == Score(c, plans[best], e)
      invariant bestScore.Some? ==> forall i :: 0 <= i < k ==> Score(c, plans[i], e) <= bestScore.value
      invariant bestScore.Some? ==> forall i :: 0 <= i < best ==> Score(c, plans[i], e) < bestScore.value
    {
      var score := Simulate(c, plans[k], e);
      if bestScore.None? || score > bestScore.value {
        bestScore := Some(score);
        bestFirst := plans[k][0];
        best := k;
      }
      k := k + 1;
    }
    FirstMaximumIsChoice(c, e, plans, best);
  }

  lemma SomePlan(c: Controller)
    requires c.Usable()
    ensures Plans(|c.ladder|, c.Horizon()) != []
  {
    var plan: Plan := seq(c.Horizon(), _ => 0);
    var k := PlansComplete(|c.ladder|, c.Horizon(), plan);
  }

  ghost predicate AllCandidates(c: Controller, plans: seq<Plan>) {
    forall i :: 0 <= i < |plans| ==> Candidate(c, plans[i])
  }

  /** The first plan with the best score starts at the lowest level any best plan starts at. */
  lemma {:induction false} FirstMaximumIsChoice(c: Controller, s: Situation, plans: seq<Plan>, best: nat)
    requires Valid(c, s) && plans == Plans(|c.ladder|, c.Horizon()) && AllCandidates(c, plans)
    requires best < |plans|
    requires forall i :: 0 <= i < |plans| ==> Score(c, plans[i], s) <= Score(c, plans[best], s)
    requires forall i :: 0 <= i < best ==> Score(c, plans[i], s) < Score(c, plans[best], s)
    ensures IsChoice(c, s, plans[best][0])
  {
    var n, h := |c.ladder|, c.Horizon();
    forall p: Plan | Candidate(c, p) ensures Score(c, p, s) <= Score(c, plans[best], s) {
      var k := PlansComplete(n, h, p);
    }
    assert Optimal(c, s, plans[best]);
    forall p | Optimal(c, s, p) ensures plans[best][0] <= p[0] {
      var k := PlansComplete(n, h, p);
      assert best <= k;
      FirstsRise(n, h, 0, best, k);
    }
  }

  // ---------------------------------------------------------------- the Bellman form

  /** The best score obtainable from here on with `horizon` segments to go. */
  function Value(c: Controller, horizon: nat, s: Situation): real
    requires Valid(c, s)
    decreases horizon, |c.ladder| + 1
  {
    if horizon == 0 then 0.0 else BestFrom(c, horizon, 0, s)
  }

  function StageValue(c: Controller, horizon: nat, idx: nat, s: Situation): real
    requires Valid(c, s) && idx < |c.ladder| && 0 < horizon
    decreases horizon, 0
  {
    StageScore(c, idx, s) + Value(c, horizon - 1, Next(c, idx, s))
  }

  function BestFrom(c: Controller, horizon: nat, first: nat, s: Situation): real
    requires Valid(c, s) && first < |c.ladder| && 0 < horizon
    decreases horizon, |c.ladder| - first
  {
    var here := StageValue(c, horizon, first, s);
    if first == |c.ladder| - 1 then here else Max(here, BestFrom(c, horizon, first + 1, s))
  }

  lemma {:induction false} BestFromBounds(c: Controller, horizon: nat, first: nat, idx: nat, s: Situation)
    requires Valid(c, s) && first <= idx < |c.ladder| && 0 < horizon
    ensures StageValue(c, horizon, idx, s) <= BestFrom(c, horizon, first, s)
    decreases idx - first
  {
    if first < idx {
      BestFromBounds(c, horizon, first + 1, idx, s);
    }
  }

  lemma {:induction false} BestFromReached(c: Controller, horizon: nat, first: nat, s: Situation) returns (idx: nat)
    requires Valid(c, s) && first < |c.ladder| && 0 < horizon
    ensures first <= idx < |c.ladder| && StageValue(c, horizon, idx, s) == BestFrom(c, horizon, first, s)
    decreases |c.ladder| - first
  {
    idx := first;
    if first < |c.ladder| - 1 && StageValue(c, horizon, first, s) < BestFrom(c, horizon, first + 1, s) {
      idx := BestFromReached(c, horizon, first + 1, s);
    }
  }

  lemma {:induction false} NoPlanBeatsValue(c: Controller, plan: Plan, s: Situation)
    requires Valid(c, s) && IsPlan(c, plan)
    ensures Score(c, plan, s) <= Value(c, |plan|, s)
    decreases |plan|
  {
    if plan != [] {
      NoPlanBeatsValue(c, plan[1..], Next(c, plan[0], s));
      BestFromBounds(c, |plan|, 0, plan[0], s);
    }
  }

  lemma {:induction false} ValueReached(c: Controller, horizon: nat, s: Situation) returns (plan: Plan)
    requires Valid(c, s)
    ensures |plan| == horizon && IsPlan(c, plan) && Score(c, plan, s) == Value(c, horizon, s)
    decreases horizon
  {
    if horizon == 0 {
      plan := [];
    } else {
      var idx := BestFromReached(c, horizon, 0, s);
      plan := PlanThrough(c, horizon, idx, s);
    }
  }

  /** A plan that starts at a level and is as good as that start allows. */
  lemma {:induction false} PlanThrough(c: Controller, horizon: nat, idx: nat, s: Situation) returns (plan: Plan)
    requires Valid(c, s) && 0 < horizon && idx < |c.ladder|
    ensures |plan| == horizon && IsPlan(c, plan) && plan[0] == idx
    ensures Score(c, plan, s) == StageValue(c, horizon, idx, s)
    decreases horizon, 0
  {
    var rest := ValueReached(c, horizon - 1, Next(c, idx, s));
    plan := [idx] + rest;
    assert plan[1..] == rest;
  }

  /** The optimal plans are those whose score is the Bellman value. */
  lemma OptimalMeetsValue(c: Controller, s: Situation, plan: Plan)
    requires Valid(c, s) && Candidate(c, plan)
    ensures Optimal(c, s, plan) <==> Score(c, plan, s) == Value(c, c.Horizon(), s)
  {
    var best := ValueReached(c, c.Horizon(), s);
    NoPlanBeatsValue(c, plan, s);
    if Score(c, plan, s) == Value(c, c.Horizon(), s) {
      forall p: Plan | Candidate(c, p) ensures Score(c, p, s) <= Score(c, plan, s) {
        NoPlanBeatsValue(c, p, s);
      }
    }
  }

  lemma {:induction false} OptimalStart(c: Controller, s: Situation, plan: Plan)
    requires Valid(c, s) && Optimal(c, s, plan)
    ensures StageValue(c, c.Horizon(), plan[0], s) == Value(c, c.Horizon(), s)
  {
    OptimalMeetsValue(c, s, plan);
    NoPlanBeatsValue(c, plan[1..], Next(c, plan[0], s));
    BestFromBounds(c, c.Horizon(), 0, plan[0], s);
  }

  lemma OptimalFrom(c: Controller, s: Situation, level: nat) returns (plan: Plan)
    requires Valid(c, s) && level < |c.ladder|
    requires StageValue(c, c.Horizon(), level, s) == Value(c, c.Horizon(), s)
    ensures Optimal(c, s, plan) && plan[0] == level
  {
    plan := PlanThrough(c, c.Horizon(), level, s);
    OptimalMeetsValue(c, s, plan);
  }

  /** The lowest level whose stage value is the overall optimum. */
  ghost predicate IsBellmanChoice(c: Controller, s: Situation, level: nat)
    requires Valid(c, s) && level < |c.ladder|
  {
    && StageValue(c, c.Horizon(), level, s) == Value(c, c.Horizon(), s)
    && forall i: nat :: i < level ==> StageValue(c, c.Horizon(), i, s) < Value(c, c.Horizon(), s)
  }

  /** The exhaustive search and the recursive optimum agree on the level to select. */
  lemma ChoiceIsBellman(c: Controller, s: Situation, level: nat)
    requires Valid(c, s) && level < |c.ladder|
    ensures IsChoice(c, s, level) <==> IsBellmanChoice(c, s, level)
  {
    hide Score, StageValue, Value;
    if IsChoice(c, s, level) {
      var plan :| Optimal(c, s, plan) && plan[0] == level;
      OptimalStart(c, s, plan);
      forall i: nat | i < level ensures StageValue(c, c.Horizon(), i, s) < Value(c, c.Horizon(), s) {
        StartBounded(c, s, i);
        if StageValue(c, c.Horizon(), i, s) == Value(c, c.Horizon(), s) {
          var lower := OptimalFrom(c, s, i);
        }
      }
    }
    if IsBellmanChoice(c, s, level) {
      var plan := OptimalFrom(c, s, level);
      forall p | Optimal(c, s, p) ensures level <= p[0] {
        OptimalStart(c, s, p);
      }
    }
  }

  lemma StartBounded(c: Controller, s: Situation, i: nat)
    requires Valid(c, s) && i < |c.ladder|
    ensures StageValue(c, c.Horizon(), i, s) <= Value(c, c.Horizon(), s)
  {
    BestFromBounds(c, c.Horizon(), 0, i, s);
  }
}
