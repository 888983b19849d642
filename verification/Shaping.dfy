/**
 The shaped download path: a bandwidth cap replayed from a timeline, the throughput measured through
 it, the smoothed estimate, and the rate-based choice made from that estimate.
 */
module Shaping {
  import opened Wrappers
  import opened Arithmetic
  import opened Ladder
  import opened Rate

  /** From `t` seconds into the session the cap is `bps` bits per second. */
  datatype Step = Step(t: real, bps: real)
  type Timeline = seq<Step>

  predicate Sorted(timeline: Timeline) {
    forall i, j :: 0 <= i < j < |timeline| ==> timeline[i].t <= timeline[j].t
  }

  /** The number of leading steps already reached. */
  function Reached(timeline: Timeline, elapsed: real): (n: nat)
    ensures n <= |timeline|
    ensures forall i :: 0 <= i < n ==> timeline[i].t <= elapsed
    ensures n < |timeline| ==> elapsed < timeline[n].t
  {
    if timeline == [] || elapsed < timeline[0].t then 0 else 1 + Reached(timeline[1..], elapsed)
  }

  function StepAt(timeline: Timeline, elapsed: real): (k: nat)
    requires timeline != []
    ensures k < |timeline|
  {
    if Reached(timeline, elapsed) == 0 then 0 else Reached(timeline, elapsed) - 1
  }

  function CapAt(timeline: Timeline, elapsed: real): real
    requires timeline != []
  {
    timeline[StepAt(timeline, elapsed)].bps
  }

  /** On a sorted timeline the scan stops at the last step not after the elapsed time, else at the first. */
  lemma StepAtIsLastReached(timeline: Timeline, elapsed: real, k: nat)
    requires timeline != [] && Sorted(timeline) && k < |timeline|
    ensures k == StepAt(timeline, elapsed) <==>
            && (forall j :: k < j < |timeline| ==> elapsed < timeline[j].t)
            && (timeline[k].t <= elapsed || k == 0)
  {
    var n, at := Reached(timeline, elapsed), StepAt(timeline, elapsed);
    assert forall j :: n <= j < |timeline| ==> timeline[n].t <= timeline[j].t;
    if k < at {
      assert timeline[at].t <= elapsed;
    }
  }

  /** The extra sleep that holds a transfer down to the cap. */
  function Extra(cap: real, bytes: nat, elapsed: real): real {
    if cap <= 0.0 then 0.0
    else
      var required := (bytes * 8) as real / cap;
      if elapsed < required then required - elapsed else 0.0
  }

  function Throughput(bytes: nat, elapsed: real): real {
    if 0.0 < elapsed then (bytes * 8) as real / elapsed else 0.0
  }

  class NetworkShaper {
    const timeline: Timeline
    const latency: real
    var start: Option<real>
    /** The session clock; sleeping advances it. */
    var now: real

    constructor (timeline: Timeline, latency: real, now: real)
      ensures this.timeline == timeline && this.latency == latency && this.now == now && start == None
    {
      this.timeline, this.latency, this.now, start := timeline, latency, now, None;
    }

    function Origin(): real
      reads this
    {
      if start.Some? then start.value else now
    }

    method Start()
      modifies this`start
      ensures start == Some(old(Origin()))
    {
      if start.None? {
        start := Some(now);
      }
    }

    method Sleep(seconds: real)
      modifies this`now
      ensures now == old(now) + seconds
    {
      now := now + seconds;
    }

    method CurrentCap() returns (cap: real)
      requires timeline != []
      modifies this`start
      ensures start == Some(old(Origin())) && cap == CapAt(timeline, now - old(Origin()))
    {
      if start.None? {
        Start();
      }
      var elapsed := now - start.value;
      cap := timeline[0].bps;
      var i := 0;
      while i < |timeline|
        invariant 0 <= i <= |timeline|
        invariant Reached(timeline, elapsed) == i + Reached(timeline[i..], elapsed)
        invariant cap == timeline[if i == 0 then 0 else i - 1].bps
      {
        if elapsed < timeline[i].t {
          break;
        }
        cap := timeline[i].bps;
        assert timeline[i..][1..] == timeline[i + 1..];
        i := i + 1;
      }
    }

    method ApplyRequestLatency()
      modifies this`now
      ensures now == old(now) + Max(latency, 0.0)
    {
      if 0.0 < latency {
        Sleep(latency);
      }
    }

    method ApplyDownloadDelay(bytes: nat, elapsed: real) returns (extra: real)
      requires timeline != []
      modifies this`start, this`now
      ensures start == Some(old(Origin())) && now == old(now) + extra
      ensures extra == Extra(CapAt(timeline, old(now - Origin())), bytes, elapsed)
    {
      var cap := CurrentCap();
      if cap <= 0.0 {
        return 0.0;
      }
      var required := (bytes * 8) as real / cap;
      if elapsed < required {
        extra := required - elapsed;
        Sleep(extra);
      } else {
        extra := 0.0;
      }
    }
  }

  /** One transfer: it takes `elapsed` seconds on the wire and brings `bytes` bytes with the given status. */
  datatype Transfer = Transfer(elapsed: real, bytes: nat, ok: bool)

  method Download(shaper: NetworkShaper?, transfer: Transfer) returns (time: real, throughput: real)
    requires shaper != null ==> shaper.timeline != []
    modifies shaper
    ensures shaper == null ==> time == transfer.elapsed
    ensures shaper != null ==>
            var issued := old(shaper.now) + Max(shaper.latency, 0.0) + transfer.elapsed;
            && shaper.start == Some(old(shaper.Origin()))
            && time == transfer.elapsed + (if transfer.ok
                 then Extra(CapAt(shaper.timeline, issued - old(shaper.Origin())), transfer.bytes, transfer.elapsed)
                 else 0.0)
            && shaper.now == issued + (time - transfer.elapsed)
    ensures throughput == Throughput(transfer.bytes, time)
  {
    if shaper != null {
      shaper.Start();
      shaper.ApplyRequestLatency();
      shaper.Sleep(transfer.elapsed);
    }
    time := transfer.elapsed;
    if shaper != null && transfer.ok {
      var extra := shaper.ApplyDownloadDelay(transfer.bytes, time);
      time := time + extra;
    }
    throughput := if 0.0 < time then (transfer.bytes * 8) as real / time else 0.0;
  }

  // ---------------------------------------------------------------- what is measured

  lemma DivideBack(a: real, b: real)
    requires a != 0.0 && b != 0.0
    ensures a / (a / b) == b && (0.0 < a && 0.0 < b ==> 0.0 < a / b)
  {
    var q := a / b;
    assert q * b == a;
    assert q != 0.0;
    assert a / q * q == a;
    assert (a / q - b) * q == 0.0;
    if 0.0 < a && 0.0 < b && q <= 0.0 {
      MulKeepsOrder(q, 0.0, b);
      assert false;
    }
  }

  /** The measured throughput is the slower of the wire and the cap, when the cap is positive. */
  lemma MeasuredIsSlowest(cap: real, bytes: nat, elapsed: real)
    requires 0 < bytes && 0.0 < cap
    ensures var seen := Throughput(bytes, elapsed + Extra(cap, bytes, elapsed));
            seen == if 0.0 < elapsed && Throughput(bytes, elapsed) < cap then Throughput(bytes, elapsed) else cap
  {
    var bits := (bytes * 8) as real;
    DivideBack(bits, cap);
    if elapsed < bits / cap {
      if 0.0 < elapsed {
        QuotientFalls(bits, elapsed, bits / cap);
      }
    } else {
      QuotientFalls(bits, bits / cap, elapsed);
    }
  }

  lemma ThroughputSign(bytes: nat, elapsed: real)
    ensures 0.0 <= Throughput(bytes, elapsed)
    ensures Throughput(bytes, elapsed) == 0.0 <==> bytes == 0 || elapsed <= 0.0
  {
    if 0.0 < elapsed {
      DivideKeepsOrder(0.0, (bytes * 8) as real, elapsed);
      assert 0.0 / elapsed == 0.0;
    }
  }

  lemma EmptyTransfer(cap: real, elapsed: real)
    requires 0.0 < cap
    ensures Throughput(0, elapsed + Extra(cap, 0, elapsed)) == 0.0
  {
    hide Extra;
    ThroughputSign(0, elapsed + Extra(cap, 0, elapsed));
  }

  lemma MeasuredWithin(cap: real, bytes: nat, elapsed: real)
    requires 0.0 < cap
    ensures 0.0 <= Throughput(bytes, elapsed + Extra(cap, bytes, elapsed)) <= cap
  {
    hide Throughput, Extra;
    ThroughputSign(bytes, elapsed + Extra(cap, bytes, elapsed));
    if bytes == 0 {
      EmptyTransfer(cap, elapsed);
    } else {
      MeasuredIsSlowest(cap, bytes, elapsed);
    }
  }

  /** The measurement respects the cap exactly when the cap is positive, or is zero and nothing was measured. */
  lemma WithinCapExactly(cap: real, bytes: nat, elapsed: real)
    ensures Throughput(bytes, elapsed + Extra(cap, bytes, elapsed)) <= cap
            <==> 0.0 < cap || (cap == 0.0 && (bytes == 0 || elapsed <= 0.0))
  {
    if 0.0 < cap {
      MeasuredWithin(cap, bytes, elapsed);
    } else {
      ThroughputSign(bytes, elapsed);
    }
  }

  // ---------------------------------------------------------------- whole sessions

  datatype Setup = Setup(timeline: Timeline, latency: real, ladder: Ladder, safety: real, alpha: real)

  /** Time spent before the round's download starts, then the download itself. */
  datatype Round = Round(wait: real, elapsed: real, bytes: nat)

  datatype Feed = Feed(now: real, start: Option<real>, estimate: Option<real>)

  predicate Usual(s: Setup) {
    Sorted(s.timeline) && s.timeline != [] && Rising(s.ladder) && GoodAlpha(s.alpha) && 0.0 <= s.safety
  }

  function Advance(s: Setup, feed: Feed, round: Round): Feed
    requires s.timeline != []
  {
    var begin := feed.now + round.wait;
    var start := if feed.start.Some? then feed.start.value else begin;
    var issued := begin + Max(s.latency, 0.0) + round.elapsed;
    var extra := Extra(CapAt(s.timeline, issued - start), round.bytes, round.elapsed);
    Feed(issued + extra, Some(start),
         Some(Smoothed(s.alpha, feed.estimate, Throughput(round.bytes, round.elapsed + extra))))
  }

  /** The levels chosen over a run of successful downloads. */
  function Levels(s: Setup, feed: Feed, rounds: seq<Round>): (levels: seq<nat>)
    requires s.timeline != [] && s.ladder != []
    ensures |levels| == |rounds|
    decreases |rounds|
  {
    if rounds == [] then []
    else [RateLevel(s.ladder, s.safety, feed.estimate)] + Levels(s, Advance(s, feed, rounds[0]), rounds[1..])
  }

  /** The session loop with the rate-based controller. */
  method Adapt(s: Setup, shaper: NetworkShaper, ewma: EWMA, rounds: seq<Round>) returns (levels: seq<nat>)
    requires s.timeline != [] && s.ladder != []
    requires shaper.timeline == s.timeline && shaper.latency == s.latency && ewma.alpha == s.alpha
    modifies shaper, ewma
    ensures levels == Levels(s, old(Feed(shaper.now, shaper.start, ewma.value)), rounds)
  {
    hide RateLevel, Smoothed, Throughput, Extra, CapAt, Max;
    levels := [];
    ghost var first := Feed(shaper.now, shaper.start, ewma.value);
    for i := 0 to |rounds|
      invariant Levels(s, first, rounds)
             == levels + Levels(s, Feed(shaper.now, shaper.start, ewma.value), rounds[i..])
    {
      ghost var feed, todo := Feed(shaper.now, shaper.start, ewma.value), rounds[i..];
      var level := SelectByRate(s.ladder, s.safety, ewma.value);
      shaper.Sleep(rounds[i].wait);
      var time, throughput := Download(shaper, Transfer(rounds[i].elapsed, rounds[i].bytes, true));
      var estimate := ewma.Update(throughput);
      assert todo[1..] == rounds[i + 1..];
      assert Advance(s, feed, todo[0]) == Feed(shaper.now, shaper.start, ewma.value);
      levels := levels + [level];
    }
  }

  ghost predicate CapsAtMost(timeline: Timeline, peak: real) {
    forall k :: 0 <= k < |timeline| ==> timeline[k].bps <= peak
  }

  /** The step is in force at some time after the first request's latency. */
  predicate Applied(s: Setup, k: nat)
    requires k < |s.timeline|
  {
    k + 1 == |s.timeline|
    || (Max(s.latency, 0.0) < s.timeline[k + 1].t && (k == 0 || s.timeline[k].t < s.timeline[k + 1].t))
  }

  /** Every step in force while something can be downloaded has a positive cap. */
  ghost predicate Capped(s: Setup) {
    forall k :: 0 <= k < |s.timeline| && Applied(s, k) ==> 0.0 < s.timeline[k].bps
  }

  /** The steps applied are those in force at some time after the latency. */
  lemma AppliedLater(s: Setup, elapsed: real)
    requires Usual(s) && Max(s.latency, 0.0) < elapsed
    ensures Applied(s, StepAt(s.timeline, elapsed))
  {
    var k := StepAt(s.timeline, elapsed);
    StepAtIsLastReached(s.timeline, elapsed, k);
    assert k + 1 < |s.timeline| ==> elapsed < s.timeline[k + 1].t;
  }

  lemma AppliedSometime(s: Setup, k: nat) returns (elapsed: real)
    requires Usual(s) && k < |s.timeline| && Applied(s, k)
    ensures Max(s.latency, 0.0) < elapsed && StepAt(s.timeline, elapsed) == k
  {
    var from := if k == 0 then Max(s.latency, 0.0) else Max(s.timeline[k].t, Max(s.latency, 0.0));
    if k + 1 == |s.timeline| {
      elapsed := from + 1.0;
    } else {
      elapsed := (from + s.timeline[k + 1].t) / 2.0;
      assert forall j :: k < j < |s.timeline| ==> s.timeline[k + 1].t <= s.timeline[j].t;
    }
    StepAtIsLastReached(s.timeline, elapsed, k);
  }

  /** Time does not run backwards. */
  predicate Physical(round: Round) { 0.0 <= round.wait && 0.0 <= round.elapsed }

  ghost predicate AllPhysical(rounds: seq<Round>) { forall i :: 0 <= i < |rounds| ==> Physical(rounds[i]) }

  ghost predicate EstimateBelow(estimate: Option<real>, peak: real) {
    estimate.Some? ==> 0.0 <= estimate.value <= peak
  }

  predicate Started(feed: Feed) { feed.start.Some? ==> feed.start.value <= feed.now }

  lemma MeasuredBelow(s: Setup, x: real, round: Round, peak: real)
    requires Usual(s) && CapsAtMost(s.timeline, peak) && Capped(s) && Physical(round)
    requires Max(s.latency, 0.0) + round.elapsed <= x
    ensures var extra := Extra(CapAt(s.timeline, x), round.bytes, round.elapsed);
            0.0 <= Throughput(round.bytes, round.elapsed + extra) <= peak
  {
    var cap, last := CapAt(s.timeline, x), |s.timeline| - 1;
    assert Applied(s, last) && 0.0 < s.timeline[last].bps <= peak;
    assert cap <= peak;
    if 0.0 < cap {
      MeasuredWithin(cap, round.bytes, round.elapsed);
    } else if 0.0 < round.elapsed {
      AppliedLater(s, x);
      assert false;
    }
  }

  lemma ExtraNonNegative(cap: real, bytes: nat, elapsed: real)
    ensures 0.0 <= Extra(cap, bytes, elapsed)
  {
  }

  lemma AdvanceKeepsBelow(s: Setup, feed: Feed, round: Round, peak: real)
    requires Usual(s) && CapsAtMost(s.timeline, peak) && Capped(s)
    requires EstimateBelow(feed.estimate, peak) && Started(feed) && Physical(round)
    ensures EstimateBelow(Advance(s, feed, round).estimate, peak) && Started(Advance(s, feed, round))
  {
    hide StepAt, Extra, Throughput, CapAt, Capped, CapsAtMost;
    var begin := feed.now + round.wait;
    var start := if feed.start.Some? then feed.start.value else begin;
    var x := begin + Max(s.latency, 0.0) + round.elapsed - start;
    MeasuredBelow(s, x, round, peak);
    ExtraNonNegative(CapAt(s.timeline, x), round.bytes, round.elapsed);
    if feed.estimate.Some? {
      var seen := Throughput(round.bytes, round.elapsed + Extra(CapAt(s.timeline, x), round.bytes, round.elapsed));
      Mix(s.alpha, seen, feed.estimate.value, 0.0, peak);
    }
  }

  /** What the lowest bitrate would justify in the absence of an estimate, the largest cap justifies too. */
  ghost predicate FallbackCovered(ladder: Ladder, safety: real, peak: real) {
    forall i :: 1 <= i < |ladder| && ladder[i] <= safety * ladder[0] ==> ladder[i] <= safety * peak
  }

  ghost predicate Affordable(ladder: Ladder, safety: real, peak: real, level: nat) {
    level < |ladder| && (level == 0 || ladder[level] <= safety * peak)
  }

  lemma LevelAffordable(ladder: Ladder, safety: real, estimate: Option<real>, peak: real)
    requires Rising(ladder) && 0.0 <= safety && EstimateBelow(estimate, peak) && FallbackCovered(ladder, safety, peak)
    ensures Affordable(ladder, safety, peak, RateLevel(ladder, safety, estimate))
  {
    hide LastFitting, Limit;
    var u := Usable(ladder, estimate);
    HighestFits(ladder, Limit(u, safety));
    if estimate.Some? && estimate.value != 0.0 {
      LimitWithin(u, peak, safety);
    } else {
      LimitWithin(u, u, safety);
    }
  }

  lemma LimitWithin(u: real, peak: real, safety: real)
    requires u <= peak && 0.0 <= safety
    ensures Limit(u, safety) <= safety * peak
  {
    MulKeepsOrder(u, peak, safety);
  }

  ghost predicate RunAffordable(s: Setup, feed: Feed, rounds: seq<Round>, peak: real)
    requires s.timeline != [] && s.ladder != []
  {
    forall i :: 0 <= i < |rounds| ==> Affordable(s.ladder, s.safety, peak, Levels(s, feed, rounds)[i])
  }

  /** In every run every choice is the lowest level, or a bitrate within safety times the largest cap. */
  lemma {:induction false} ChoicesAffordable(s: Setup, feed: Feed, rounds: seq<Round>, peak: real)
    requires Usual(s) && CapsAtMost(s.timeline, peak) && Capped(s) && AllPhysical(rounds)
    requires EstimateBelow(feed.estimate, peak) && Started(feed) && FallbackCovered(s.ladder, s.safety, peak)
    ensures RunAffordable(s, feed, rounds, peak)
    decreases |rounds|
  {
    if rounds != [] {
      assert AllPhysical(rounds[1..]);
      hide Advance, RateLevel, Affordable, EstimateBelow, CapsAtMost, Capped, FallbackCovered, Started;
      LevelAffordable(s.ladder, s.safety, feed.estimate, peak);
      AdvanceKeepsBelow(s, feed, rounds[0], peak);
      ChoicesAffordable(s, Advance(s, feed, rounds[0]), rounds[1..], peak);
      var all, later := Levels(s, feed, rounds), Levels(s, Advance(s, feed, rounds[0]), rounds[1..]);
      assert forall i :: 1 <= i < |rounds| ==> all[i] == later[i - 1];
    }
  }

  /** Without the condition on the fallback the very first choice exceeds that. */
  lemma FallbackOvershoots(s: Setup, now: real, round: Round, peak: real)
    requires Usual(s) && !FallbackCovered(s.ladder, s.safety, peak)
    ensures !RunAffordable(s, Feed(now, None, None), [round], peak)
  {
    hide RateLevel, FallbackCovered, Affordable, Advance;
    FallbackTooHigh(s.ladder, s.safety, peak);
    assert Levels(s, Feed(now, None, None), [round])[0] == RateLevel(s.ladder, s.safety, None);
  }

  lemma FallbackTooHigh(ladder: Ladder, safety: real, peak: real)
    requires Rising(ladder) && !FallbackCovered(ladder, safety, peak)
    ensures !Affordable(ladder, safety, peak, RateLevel(ladder, safety, None))
  {
    var i :| 1 <= i < |ladder| && ladder[i] <= safety * ladder[0] && safety * peak < ladder[i];
    hide RateLevel, Affordable, FallbackCovered;
    FallbackReaches(ladder, safety, i);
    BeyondPeak(ladder, safety, peak, i, RateLevel(ladder, safety, None));
  }

  lemma BeyondPeak(ladder: Ladder, safety: real, peak: real, i: nat, r: nat)
    requires Rising(ladder) && 1 <= i <= r < |ladder| && safety * peak < ladder[i]
    ensures !Affordable(ladder, safety, peak, r)
  {
    assert ladder[i] <= ladder[r];
  }

  lemma FallbackReaches(ladder: Ladder, safety: real, i: nat)
    requires Rising(ladder) && i < |ladder| && ladder[i] <= safety * ladder[0]
    ensures i <= RateLevel(ladder, safety, None) < |ladder|
  {
    assert Limit(ladder[0], safety) == safety * ladder[0];
    hide LastFitting, Limit;
    AtLeast(ladder, Limit(ladder[0], safety), i);
  }

  /** Every level a choice could take is within the bound, or safety rules all but the lowest out. */
  ghost predicate TopCovered(ladder: Ladder, safety: real, peak: real) {
    safety == 0.0 || forall i :: 1 <= i < |ladder| ==> ladder[i] <= safety * peak
  }

  lemma {:induction false} CoveredTop(s: Setup, feed: Feed, rounds: seq<Round>, peak: real)
    requires Usual(s) && TopCovered(s.ladder, s.safety, peak)
    ensures RunAffordable(s, feed, rounds, peak)
    decreases |rounds|
  {
    if rounds != [] {
      hide Advance;
      CoveredChoice(s, feed.estimate, peak);
      hide RateLevel, Affordable, TopCovered;
      CoveredTop(s, Advance(s, feed, rounds[0]), rounds[1..], peak);
      var all, later := Levels(s, feed, rounds), Levels(s, Advance(s, feed, rounds[0]), rounds[1..]);
      assert forall i :: 1 <= i < |rounds| ==> all[i] == later[i - 1];
    }
  }

  lemma CoveredChoice(s: Setup, estimate: Option<real>, peak: real)
    requires Usual(s) && TopCovered(s.ladder, s.safety, peak)
    ensures Affordable(s.ladder, s.safety, peak, RateLevel(s.ladder, s.safety, estimate))
  {
    hide LastFitting;
    var u := Usable(s.ladder, estimate);
    HighestFits(s.ladder, Limit(u, s.safety));
    if s.safety == 0.0 {
      assert Limit(u, s.safety) == 0.0;
    }
  }

  /** Enough bytes in some time exceed any throughput. */
  lemma FastTransfer(target: real, time: real) returns (bytes: nat)
    requires 0.0 < target && 0.0 < time
    ensures target < Throughput(bytes, time)
  {
    PositiveProduct(target, time);
    var bits := target * time;
    bytes := (bits / 8.0).Floor + 1;
    assert bits < (bytes * 8) as real;
    DivideKeepsOrder(bits, (bytes * 8) as real, time);
    assert bits / time == target;
  }

  lemma FastRound(s: Setup, k: nat, i: nat, x: real) returns (fast: Round)
    requires Usual(s) && 0.0 < s.safety && k < |s.timeline| && s.timeline[k].bps <= 0.0 && i < |s.ladder|
    requires Max(s.latency, 0.0) < x && StepAt(s.timeline, x) == k
    ensures Physical(fast)
    ensures i <= RateLevel(s.ladder, s.safety, Advance(s, Feed(0.0, None, None), fast).estimate) < |s.ladder|
  {
    hide StepAt, Throughput, RateLevel, Advance, Rising;
    var time := x - Max(s.latency, 0.0);
    var target := TargetFor(s.ladder, s.safety, i);
    var bytes := FastTransfer(target, time);
    fast := Round(0.0, time, bytes);
    UncappedMeasured(s, k, x, fast);
    FastChoice(s.ladder, s.safety, Throughput(bytes, time), target, i);
  }

  lemma TargetFor(ladder: Ladder, safety: real, i: nat) returns (target: real)
    requires Rising(ladder) && 0.0 < safety && i < |ladder|
    ensures 0.0 < target && target * safety == ladder[i]
  {
    assert 0.0 < ladder[i] by {
      assert i == 0 || ladder[0] < ladder[i];
    }
    target := ladder[i] / safety;
    DivideKeepsOrder(0.0, ladder[i], safety);
    assert 0.0 / safety == 0.0;
  }

  /** An uncapped step lets one fast download push the next choice to any level. */
  lemma UncappedOvershoots(s: Setup, k: nat, i: nat, peak: real) returns (rounds: seq<Round>)
    requires Usual(s) && 0.0 < s.safety && k < |s.timeline| && Applied(s, k) && s.timeline[k].bps <= 0.0
    requires 1 <= i < |s.ladder| && s.safety * peak < s.ladder[i]
    ensures AllPhysical(rounds) && !RunAffordable(s, Feed(0.0, None, None), rounds, peak)
  {
    hide StepAt, Applied, Advance, RateLevel;
    var x := AppliedSometime(s, k);
    var fast := FastRound(s, k, i, x);
    rounds := [fast, fast];
    RunOfTwo(s, Feed(0.0, None, None), fast);
    hide Levels;
    var level := Levels(s, Feed(0.0, None, None), rounds)[1];
    assert s.ladder[i] <= s.ladder[level];
  }

  lemma UncappedMeasured(s: Setup, k: nat, x: real, fast: Round)
    requires Usual(s) && k < |s.timeline| && StepAt(s.timeline, x) == k && s.timeline[k].bps <= 0.0
    requires fast.wait == 0.0 && fast.elapsed == x - Max(s.latency, 0.0)
    ensures Advance(s, Feed(0.0, None, None), fast).estimate == Some(Throughput(fast.bytes, fast.elapsed))
  {
    hide StepAt, Throughput;
    assert 0.0 + fast.wait + Max(s.latency, 0.0) + fast.elapsed - 0.0 == x;
    assert fast.elapsed + 0.0 == fast.elapsed;
  }

  lemma AtLeast(ladder: Ladder, limit: real, i: nat)
    requires Rising(ladder) && i < |ladder| && ladder[i] <= limit
    ensures i <= LastFitting(ladder, limit)
  {
    hide LastFitting;
    HighestFits(ladder, limit);
  }

  lemma FastChoice(ladder: Ladder, safety: real, estimate: real, target: real, i: nat)
    requires Rising(ladder) && 0.0 < safety && 0.0 < target < estimate && i < |ladder| && target * safety == ladder[i]
    ensures i <= RateLevel(ladder, safety, Some(estimate)) < |ladder|
  {
    hide LastFitting, Rising;
    MulKeepsOrder(target, estimate, safety);
    AtLeast(ladder, Limit(estimate, safety), i);
  }

  lemma RunOfTwo(s: Setup, feed: Feed, round: Round)
    requires Usual(s)
    ensures Levels(s, feed, [round, round])[1] == RateLevel(s.ladder, s.safety, Advance(s, feed, round).estimate)
  {
    hide Advance, RateLevel;
    var rounds := [round, round];
    assert rounds[1..] == [round] && [round][0] == round;
    assert Levels(s, feed, rounds)
        == [RateLevel(s.ladder, s.safety, feed.estimate)] + Levels(s, Advance(s, feed, round), [round]);
  }

  /**
   All runs from an empty estimate stay within the largest cap exactly when the fallback does, and
   either every step in force is capped or no level could exceed it anyway.
   */
  lemma {:induction false} AffordableExactly(s: Setup, peak: real)
    requires Usual(s) && CapsAtMost(s.timeline, peak)
    ensures (forall now: real, rounds: seq<Round> :: AllPhysical(rounds) ==>
               RunAffordable(s, Feed(now, None, None), rounds, peak))
            <==> FallbackCovered(s.ladder, s.safety, peak) && (Capped(s) || TopCovered(s.ladder, s.safety, peak))
  {
    hide RunAffordable, CapsAtMost, AllPhysical;
    if !FallbackCovered(s.ladder, s.safety, peak) {
      OnePhysical(Round(0.0, 1.0, 1));
      FallbackOvershoots(s, 0.0, Round(0.0, 1.0, 1), peak);
    } else if TopCovered(s.ladder, s.safety, peak) {
      forall now: real, rounds: seq<Round> ensures RunAffordable(s, Feed(now, None, None), rounds, peak) {
        CoveredTop(s, Feed(now, None, None), rounds, peak);
      }
    } else if Capped(s) {
      hide Capped, FallbackCovered;
      forall now: real, rounds: seq<Round> | AllPhysical(rounds)
        ensures RunAffordable(s, Feed(now, None, None), rounds, peak)
      {
        ChoicesAffordable(s, Feed(now, None, None), rounds, peak);
      }
    } else {
      var k :| 0 <= k < |s.timeline| && Applied(s, k) && s.timeline[k].bps <= 0.0;
      var i :| 1 <= i < |s.ladder| && s.safety * peak < s.ladder[i];
      var rounds := UncappedOvershoots(s, k, i, peak);
    }
  }

  lemma OnePhysical(round: Round)
    requires Physical(round)
    ensures AllPhysical([round])
  {
  }
}
