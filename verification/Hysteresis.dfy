/** The switch stabiliser around any controller: down at once, up only after repeated identical requests. */
module Hysteresis {
  import opened Wrappers
  import opened Ladder
  import opened Decisions

  datatype Tuning = Tuning(ladder: Ladder, upRatio: real, stableSetting: int, minBufferForUp: real, deepBuffer: real)
  {
    function Stable(): (n: nat)
      ensures 1 <= n
    {
      if stableSetting < 1 then 1 else stableSetting
    }
  }

  /** A proposal by the wrapped controller, the level in force and the buffer, as one call sees them. */
  datatype Call = Call(proposal: int, current: int, buffer: real)

  datatype Hold = Hold(candidate: Option<int>, count: nat)

  const NO_HOLD := Hold(None, 0)

  function Wanted(t: Tuning, c: Call): int { Clamp(t.ladder, c.proposal) }

  function InForce(t: Tuning, c: Call): int { Clamp(t.ladder, c.current) }

  /** An up-switch request the buffer allows. */
  predicate AllowedUp(t: Tuning, c: Call)
    requires t.ladder != []
  {
    && InForce(t, c) < Wanted(t, c)
    && (|| t.deepBuffer <= c.buffer
        || (&& t.minBufferForUp <= c.buffer
            && t.ladder[InForce(t, c)] * t.upRatio <= t.ladder[Wanted(t, c)]))
  }

  /** One decision: the new hold state and the level chosen. */
  function Decide(t: Tuning, h: Hold, c: Call): (Hold, int)
    requires t.ladder != []
  {
    if Wanted(t, c) <= InForce(t, c) then (NO_HOLD, Wanted(t, c))
    else if !AllowedUp(t, c) then (NO_HOLD, InForce(t, c))
    else
      var count := if h.candidate == Some(Wanted(t, c)) then h.count + 1 else 1;
      if t.Stable() <= count then (NO_HOLD, Wanted(t, c)) else (Hold(Some(Wanted(t, c)), count), InForce(t, c))
  }

  class HysteresisABR {
    const t: Tuning
    var candidate: Option<int>
    var holdCount: nat

    ghost function View(): Hold
      reads this
    {
      Hold(candidate, holdCount)
    }

    constructor (t: Tuning)
      ensures this.t == t && View() == NO_HOLD
    {
      this.t, candidate, holdCount := t, None, 0;
    }

    method Select(c: Call) returns (level: int)
      requires t.ladder != []
      modifies this
      ensures (View(), level) == Decide(t, old(View()), c)
    {
      var wanted, current := Clamp(t.ladder, c.proposal), Clamp(t.ladder, c.current);
      if wanted <= current {
        candidate, holdCount := None, 0;
        return wanted;
      }
      var upAllowed := t.deepBuffer <= c.buffer
                       || (t.minBufferForUp <= c.buffer && t.ladder[wanted] >= t.ladder[current] * t.upRatio);
      if !upAllowed {
        candidate, holdCount := None, 0;
        return current;
      }
      if candidate == Some(wanted) {
        holdCount := holdCount + 1;
      } else {
        candidate, holdCount := Some(wanted), 1;
      }
      if holdCount >= t.Stable() {
        candidate, holdCount := None, 0;
        return wanted;
      }
      return current;
    }
  }

  // ---------------------------------------------------------------- runs of arbitrary calls

  /** The hold state after some calls, starting fresh. */
  function After(t: Tuning, calls: seq<Call>): Hold
    requires t.ladder != []
  {
    if calls == [] then NO_HOLD else Decide(t, After(t, calls[..|calls| - 1]), calls[|calls| - 1]).0
  }

  /** The level returned by the last of some calls. */
  function Returned(t: Tuning, calls: seq<Call>): int
    requires t.ladder != [] && calls != []
  {
    Decide(t, After(t, calls[..|calls| - 1]), calls[|calls| - 1]).1
  }

  /** The last `n` calls were all allowed requests for this level. */
  ghost predicate Requested(t: Tuning, calls: seq<Call>, level: int, n: nat)
    requires t.ladder != []
  {
    && n <= |calls|
    && forall i :: |calls| - n <= i < |calls| ==> AllowedUp(t, calls[i]) && Wanted(t, calls[i]) == level
  }

  /** The last `n` calls all kept the level in force. */
  ghost predicate Kept(t: Tuning, calls: seq<Call>, n: nat)
    requires t.ladder != []
  {
    && n <= |calls|
    && forall i :: |calls| - n < i <= |calls| ==> Returned(t, calls[..i]) == InForce(t, calls[i - 1])
  }

  /** The hold state is exactly the memory of the calls since the request became stable. */
  lemma {:induction false} HoldIsHistory(t: Tuning, calls: seq<Call>)
    requires t.ladder != []
    ensures var h := After(t, calls);
            && h.count < t.Stable()
            && (0 < h.count <==> h.candidate.Some?)
            && (h.candidate.Some? ==> Requested(t, calls, h.candidate.value, h.count) && Kept(t, calls, h.count))
    decreases |calls|
  {
    if calls != [] {
      var before, c := calls[..|calls| - 1], calls[|calls| - 1];
      HoldIsHistory(t, before);
      var g, h := After(t, before), After(t, calls);
      if h.candidate.Some? {
        forall i | |calls| - h.count <= i < |calls|
          ensures AllowedUp(t, calls[i]) && Wanted(t, calls[i]) == h.candidate.value
        {
          if i < |before| { assert calls[i] == before[i]; }
        }
        forall i | |calls| - h.count < i <= |calls| ensures Returned(t, calls[..i]) == InForce(t, calls[i - 1]) {
          if i < |calls| {
            assert calls[..i] == before[..i];
          } else {
            assert calls[..i] == calls;
          }
        }
      }
    }
  }

  /** The level goes up only to end a series of `stable` consecutive allowed requests for that very level. */
  lemma UpOnlyWhenStable(t: Tuning, calls: seq<Call>)
    requires t.ladder != [] && calls != []
    ensures InForce(t, calls[|calls| - 1]) < Returned(t, calls) ==>
              Requested(t, calls, Returned(t, calls), t.Stable())
    ensures Returned(t, calls) == Wanted(t, calls[|calls| - 1]) || Returned(t, calls) == InForce(t, calls[|calls| - 1])
    ensures Returned(t, calls) <= Wanted(t, calls[|calls| - 1])
    ensures Wanted(t, calls[|calls| - 1]) <= InForce(t, calls[|calls| - 1]) ==>
              Returned(t, calls) == Wanted(t, calls[|calls| - 1])
  {
    var before, c := calls[..|calls| - 1], calls[|calls| - 1];
    HoldIsHistory(t, before);
    if InForce(t, c) < Returned(t, calls) {
      var g := After(t, before);
      forall i | |calls| - t.Stable() <= i < |calls|
        ensures AllowedUp(t, calls[i]) && Wanted(t, calls[i]) == Returned(t, calls)
      {
        if i < |before| { assert calls[i] == before[i]; }
      }
    }
  }

  /** Allowed requests for one level that have all been held are counted. */
  lemma {:induction false} HeldSeriesCounts(t: Tuning, calls: seq<Call>, level: int, n: nat)
    requires t.ladder != [] && 0 < n && Requested(t, calls, level, n) && Kept(t, calls, n)
    ensures After(t, calls).candidate == Some(level) && n <= After(t, calls).count
    decreases n
  {
    var before, c := calls[..|calls| - 1], calls[|calls| - 1];
    assert calls[..|calls|] == calls;
    assert AllowedUp(t, c) && Wanted(t, c) == level && Returned(t, calls) == InForce(t, c);
    if 1 < n {
      assert forall i :: 0 <= i < |before| ==> before[i] == calls[i];
      assert forall i :: 0 <= i <= |before| ==> before[..i] == calls[..i];
      HeldSeriesCounts(t, before, level, n - 1);
    }
  }

  /** A call switches up exactly when it ends a stable series of allowed requests, all of them held but this one. */
  lemma {:induction false} UpExactlyWhenStable(t: Tuning, calls: seq<Call>, level: int)
    requires t.ladder != [] && calls != []
    ensures var before, c := calls[..|calls| - 1], calls[|calls| - 1];
            InForce(t, c) < Returned(t, calls) == level
            <==> Requested(t, calls, level, t.Stable()) && Kept(t, before, t.Stable() - 1)
  {
    var before, c := calls[..|calls| - 1], calls[|calls| - 1];
    HoldIsHistory(t, before);
    if InForce(t, c) < Returned(t, calls) == level {
      UpOnlyWhenStable(t, calls);
    } else if Requested(t, calls, level, t.Stable()) && Kept(t, before, t.Stable() - 1) {
      assert AllowedUp(t, c) && Wanted(t, c) == level;
      if 1 < t.Stable() {
        assert forall i :: 0 <= i < |before| ==> before[i] == calls[i];
        HeldSeriesCounts(t, before, level, t.Stable() - 1);
      }
    }
  }

  /** So no stable series of allowed requests goes by without an up-switch to that level. */
  lemma {:induction false} StableSeriesSwitches(t: Tuning, calls: seq<Call>, level: int)
    requires t.ladder != [] && Requested(t, calls, level, t.Stable())
    ensures exists i :: && |calls| - t.Stable() < i <= |calls|
                        && InForce(t, calls[i - 1]) < Returned(t, calls[..i]) == level
  {
    if forall i :: |calls| - t.Stable() < i <= |calls| ==> Returned(t, calls[..i]) != level {
      forall i | |calls| - t.Stable() < i <= |calls| ensures Returned(t, calls[..i]) == InForce(t, calls[i - 1]) {
        assert calls[..i][i - 1] == calls[i - 1] && Wanted(t, calls[i - 1]) == level;
        UpOnlyWhenStable(t, calls[..i]);
      }
      HeldSeriesCounts(t, calls, level, t.Stable());
      HoldIsHistory(t, calls);
      assert false;
    }
    var i :| |calls| - t.Stable() < i <= |calls| && Returned(t, calls[..i]) == level;
    assert AllowedUp(t, calls[i - 1]);
  }

  // ---------------------------------------------------------------- in bitrates and seconds

  /**
   An up-switch means that the last calls, as many as the setting and one at least, all proposed that
   level, each over a deep buffer, or over a healthy one with the bitrate at least the ratio times the
   one in force.
   */
  lemma UpNeedsRatio(t: Tuning, calls: seq<Call>)
    requires t.ladder != [] && calls != []
    ensures var n := if t.stableSetting < 1 then 1 else t.stableSetting;
            var level := Returned(t, calls);
            Clamp(t.ladder, calls[|calls| - 1].current) < level < |t.ladder| ==>
              && n <= |calls|
              && forall i :: |calls| - n <= i < |calls| ==>
                   var c, from := calls[i], Clamp(t.ladder, calls[i].current);
                   && from < level == Clamp(t.ladder, c.proposal)
                   && (|| t.deepBuffer <= c.buffer
                       || (t.minBufferForUp <= c.buffer && t.upRatio * t.ladder[from] <= t.ladder[level]))
    ensures 0 <= Returned(t, calls) < |t.ladder|
  {
    UpOnlyWhenStable(t, calls);
  }

  /** As many such calls in a row contain the up-switch to their level. */
  lemma RatioSeriesSwitches(t: Tuning, calls: seq<Call>, level: nat)
    requires level < |t.ladder|
    requires var n := if t.stableSetting < 1 then 1 else t.stableSetting;
             && n <= |calls|
             && forall i :: |calls| - n <= i < |calls| ==>
                  var c, from := calls[i], Clamp(t.ladder, calls[i].current);
                  && from < level == Clamp(t.ladder, c.proposal)
                  && (|| t.deepBuffer <= c.buffer
                      || (t.minBufferForUp <= c.buffer && t.upRatio * t.ladder[from] <= t.ladder[level]))
    ensures var n := if t.stableSetting < 1 then 1 else t.stableSetting;
            exists i :: && |calls| - n < i <= |calls|
                        && Clamp(t.ladder, calls[i - 1].current) < Returned(t, calls[..i]) == level
  {
    assert Requested(t, calls, level, t.Stable());
    StableSeriesSwitches(t, calls, level);
  }

  // ---------------------------------------------------------------- the closed loop

  /** What the wrapped controller proposes and what the buffer holds, decision by decision. */
  datatype Input = Input(proposal: int, buffer: real)

  /** Hold state and decisions of a session in which each decision becomes the level in force. */
  function Loop(t: Tuning, inputs: seq<Input>): (Hold, seq<int>)
    requires t.ladder != []
  {
    if inputs == [] then (NO_HOLD, [])
    else
      var (h, decisions) := Loop(t, inputs[..|inputs| - 1]);
      var last := inputs[|inputs| - 1];
      var (next, level) := Decide(t, h, Call(last.proposal, Current(decisions), last.buffer));
      (next, decisions + [level])
  }

  function Ups(decisions: seq<int>): nat {
    if decisions == [] then 0
    else
      var before := decisions[..|decisions| - 1];
      Ups(before) + if Current(before) < decisions[|decisions| - 1] then 1 else 0
  }

  function Downs(decisions: seq<int>): nat {
    if decisions == [] then 0
    else
      var before := decisions[..|decisions| - 1];
      Downs(before) + if decisions[|decisions| - 1] < Current(before) then 1 else 0
  }

  lemma {:induction false} SwitchesAreUpsAndDowns(decisions: seq<int>)
    ensures Switches(decisions) == Ups(decisions) + Downs(decisions)
    decreases |decisions|
  {
    if decisions != [] {
      SwitchesAreUpsAndDowns(decisions[..|decisions| - 1]);
    }
  }

  lemma CountsAppend(decisions: seq<int>, level: int)
    ensures Ups(decisions + [level]) == Ups(decisions) + if Current(decisions) < level then 1 else 0
    ensures Downs(decisions + [level]) == Downs(decisions) + if level < Current(decisions) then 1 else 0
  {
    assert (decisions + [level])[..|decisions|] == decisions;
  }

  /** Decisions cover the ups, stability decisions each, the downs and the current hold; ups pay for downs. */
  predicate Covered(ups: nat, downs: nat, count: nat, decisions: nat, level: int, levels: nat, stable: nat) {
    ups * stable + downs + count <= decisions && level + downs <= ups * (levels - 1)
  }

  lemma CoverOneMore(ups: nat, downs: nat, count: nat, decisions: nat, from: int, to: int, next: nat,
                     levels: nat, stable: nat)
    requires Covered(ups, downs, count, decisions, from, levels, stable) && 0 <= from && 0 <= to < levels
    requires next <= if from == to then count + 1 else 0
    requires from < to ==> stable <= count + 1
    ensures Covered(ups + if from < to then 1 else 0, downs + if to < from then 1 else 0, next, decisions + 1,
                    to, levels, stable)
  {
    Spend(ups, stable);
    Spend(ups, levels - 1);
  }

  /** What one decision does to the hold count, by the direction it takes. */
  lemma DecisionCost(t: Tuning, h: Hold, c: Call)
    requires t.ladder != [] && 0 <= c.current < |t.ladder| && h.count < t.Stable()
    ensures var (next, level) := Decide(t, h, c);
            && 0 <= level < |t.ladder| && next.count < t.Stable()
            && next.count <= (if c.current == level then h.count + 1 else 0)
            && (c.current < level ==> t.Stable() <= h.count + 1)
  {
  }

  /** Every decision is spent on a hold, a switch up, a switch down, or nothing; climbing pays for falling. */
  lemma {:induction false} LoopBudget(t: Tuning, inputs: seq<Input>)
    requires t.ladder != []
    ensures var (h, d) := Loop(t, inputs);
            && |d| == |inputs|
            && 0 <= Current(d) < |t.ladder|
            && h.count < t.Stable()
            && Ups(d) * t.Stable() + Downs(d) + h.count <= |inputs|
            && Current(d) + Downs(d) <= Ups(d) * (|t.ladder| - 1)
  {
    LoopCovered(t, inputs);
  }

  lemma CoveredAtFirst(levels: nat, stable: nat)
    ensures Covered(0, 0, 0, 0, 0, levels, stable)
  {
  }

  lemma {:induction false} LoopCovered(t: Tuning, inputs: seq<Input>)
    requires t.ladder != []
    ensures var (h, d) := Loop(t, inputs);
            && |d| == |inputs|
            && 0 <= Current(d) < |t.ladder|
            && h.count < t.Stable()
            && Covered(Ups(d), Downs(d), h.count, |inputs|, Current(d), |t.ladder|, t.Stable())
    decreases |inputs|
  {
    if inputs == [] {
      CoveredAtFirst(|t.ladder|, t.Stable());
    } else {
      hide Covered, Decide, Ups, Downs, Loop, Switches;
      var before, last := inputs[..|inputs| - 1], inputs[|inputs| - 1];
      assert inputs == before + [last];
      LoopCovered(t, before);
      LoopAppend(t, before, last);
      var (h, d) := Loop(t, before);
      var call := Call(last.proposal, Current(d), last.buffer);
      DecisionCost(t, h, call);
      var (next, level) := Decide(t, h, call);
      CountsAppend(d, level);
      assert Current(d + [level]) == level;
      hide Current;
      CoverOneMore(Ups(d), Downs(d), h.count, |before|, Current(d), level, next.count, |t.ladder|, t.Stable());
    }
  }

  lemma Spend(ups: nat, each: nat)
    ensures (ups + 1) * each == ups * each + each
  {
  }

  /**
   Switch rate: with n levels and a stability of s, any N decisions of any wrapped controller contain
   at most N n / (n + s - 1) switches.
   */
  lemma {:induction false} SwitchRate(t: Tuning, inputs: seq<Input>)
    requires t.ladder != []
    ensures var d := Loop(t, inputs).1;
            Switches(d) * (|t.ladder| + t.Stable() - 1) <= |inputs| * |t.ladder|
  {
    LoopBudget(t, inputs);
    var d := Loop(t, inputs).1;
    SwitchesAreUpsAndDowns(d);
    RateArithmetic(Ups(d), Downs(d), |t.ladder|, t.Stable(), |inputs|);
  }

  lemma RateArithmetic(u: nat, d: nat, n: nat, s: nat, decisions: nat)
    requires 1 <= n && 1 <= s && u * s + d <= decisions && d <= u * (n - 1)
    ensures (u + d) * (n + s - 1) <= decisions * n
  {
    MulLe(u * s + d, decisions, n);
    MulLe(d, u * (n - 1), s - 1);
    assert (u + d) * (n + s - 1) == (u * s + d) * n - (u * (n - 1) - d) * (s - 1);
  }

  lemma MulLe(a: int, b: int, k: nat)
    requires a <= b
    ensures a * k <= b * k
  {
  }

  // ---------------------------------------------------------------- the rate is attained

  lemma LoopAppend(t: Tuning, inputs: seq<Input>, x: Input)
    requires t.ladder != []
    ensures var (h, d) := Loop(t, inputs);
            var (next, level) := Decide(t, h, Call(x.proposal, Current(d), x.buffer));
            && Loop(t, inputs + [x]) == (next, d + [level])
            && Switches(d + [level]) == Switches(d) + if level != Current(d) then 1 else 0
  {
    assert (inputs + [x])[..|inputs|] == inputs;
    var (h, d) := Loop(t, inputs);
    SwitchesAppend(d, Decide(t, h, Call(x.proposal, Current(d), x.buffer)).1);
  }

  /** j requests for the top from the bottom, with a deep buffer, after a run that ended at the bottom. */
  lemma {:induction false} Climbing(t: Tuning, inputs: seq<Input>, j: nat) returns (more: seq<Input>)
    requires 1 < |t.ladder| && j < t.Stable()
    requires Loop(t, inputs).0 == NO_HOLD && Current(Loop(t, inputs).1) == 0
    ensures |more| == |inputs| + j
    ensures Loop(t, more).0 == if j == 0 then NO_HOLD else Hold(Some(|t.ladder| - 1), j)
    ensures Current(Loop(t, more).1) == 0 && Switches(Loop(t, more).1) == Switches(Loop(t, inputs).1)
    decreases j
  {
    if j == 0 {
      more := inputs;
    } else {
      var before := Climbing(t, inputs, j - 1);
      var x := Input(|t.ladder| - 1, t.deepBuffer);
      LoopAppend(t, before, x);
      more := before + [x];
    }
  }

  /** From a level down to the bottom one step at a time. */
  lemma {:induction false} Falling(t: Tuning, inputs: seq<Input>, level: nat) returns (more: seq<Input>)
    requires level < |t.ladder|
    requires Loop(t, inputs).0 == NO_HOLD && Current(Loop(t, inputs).1) == level
    ensures |more| == |inputs| + level
    ensures Loop(t, more).0 == NO_HOLD && Current(Loop(t, more).1) == 0
    ensures Switches(Loop(t, more).1) == Switches(Loop(t, inputs).1) + level
    decreases level
  {
    if level == 0 {
      more := inputs;
    } else {
      var x := Input(level - 1, 0.0);
      LoopAppend(t, inputs, x);
      more := Falling(t, inputs + [x], level - 1);
    }
  }

  /** The request that completes a stable series switches from the bottom to the top. */
  lemma FinalRequest(t: Tuning, inputs: seq<Input>, x: Input)
    requires 1 < |t.ladder| && x == Input(|t.ladder| - 1, t.deepBuffer)
    requires Loop(t, inputs).0 == if t.Stable() == 1 then NO_HOLD else Hold(Some(|t.ladder| - 1), t.Stable() - 1)
    requires Current(Loop(t, inputs).1) == 0
    ensures Loop(t, inputs + [x]).0 == NO_HOLD && Current(Loop(t, inputs + [x]).1) == |t.ladder| - 1
    ensures Switches(Loop(t, inputs + [x]).1) == Switches(Loop(t, inputs).1) + 1
  {
    LoopAppend(t, inputs, x);
  }

  /** One climb straight to the top and a descent level by level. */
  lemma OneCycle(t: Tuning, before: seq<Input>) returns (inputs: seq<Input>)
    requires 1 < |t.ladder| && Loop(t, before).0 == NO_HOLD && Current(Loop(t, before).1) == 0
    ensures |inputs| == |before| + (|t.ladder| + t.Stable() - 1)
    ensures Loop(t, inputs).0 == NO_HOLD && Current(Loop(t, inputs).1) == 0
    ensures Switches(Loop(t, inputs).1) == Switches(Loop(t, before).1) + |t.ladder|
  {
    hide Loop, Switches, Current, Decide;
    var waiting := Climbing(t, before, t.Stable() - 1);
    var x := Input(|t.ladder| - 1, t.deepBuffer);
    FinalRequest(t, waiting, x);
    inputs := Falling(t, waiting + [x], |t.ladder| - 1);
  }

  /** The bound of SwitchRate is exact: some controller reaches it over any number of cycles. */
  lemma {:induction false} SwitchRateAttained(t: Tuning, cycles: nat) returns (inputs: seq<Input>)
    requires 1 < |t.ladder|
    ensures |inputs| == cycles * (|t.ladder| + t.Stable() - 1)
    ensures Loop(t, inputs).0 == NO_HOLD && Current(Loop(t, inputs).1) == 0
    ensures Switches(Loop(t, inputs).1) == cycles * |t.ladder|
    decreases cycles
  {
    if cycles == 0 {
      inputs := [];
    } else {
      hide Loop, Switches, Current;
      var before := SwitchRateAttained(t, cycles - 1);
      inputs := OneCycle(t, before);
      Spend(cycles - 1, |t.ladder| + t.Stable() - 1);
      Spend(cycles - 1, |t.ladder|);
    }
  }
}
