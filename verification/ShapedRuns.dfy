/** A run of shaped downloads told in bits, seconds and caps: what each one took, what it measured, what was chosen. */
module ShapedRuns {
  import opened Wrappers
  import opened Arithmetic
  import opened Ladder
  import opened Rate
  import opened Shaping

  /** Seconds each download took, caps included. */
  function Times(s: Setup, feed: Feed, rounds: seq<Round>): (times: seq<real>)
    requires s.timeline != []
    ensures |times| == |rounds|
    decreases |rounds|
  {
    if rounds == [] then []
    else [TimeOf(s, feed, rounds[0])] + Times(s, Advance(s, feed, rounds[0]), rounds[1..])
  }

  function TimeOf(s: Setup, feed: Feed, round: Round): real
    requires s.timeline != []
  {
    Advance(s, feed, round).now - feed.now - round.wait - Max(s.latency, 0.0)
  }

  /** When the timeline began: with the first download. */
  function Anchor(feed: Feed, rounds: seq<Round>): real
    requires rounds != []
  {
    if feed.start.Some? then feed.start.value else feed.now + rounds[0].wait
  }

  /** Seconds from the start of a run to the end of its first k downloads. */
  function Spent(s: Setup, rounds: seq<Round>, times: seq<real>, k: nat): real
    requires k <= |rounds| == |times|
  {
    if k == 0 then 0.0
    else rounds[0].wait + Max(s.latency, 0.0) + times[0] + Spent(s, rounds[1..], times[1..], k - 1)
  }

  /** The time into the timeline at which the last byte of download k is on hand. */
  function ReadAt(s: Setup, feed: Feed, rounds: seq<Round>, times: seq<real>, k: nat): real
    requires k < |rounds| == |times|
  {
    feed.now + Spent(s, rounds, times, k) + rounds[k].wait + Max(s.latency, 0.0) + rounds[k].elapsed
    - Anchor(feed, rounds)
  }

  /** A throughput is the bits moved for each second, or zero if that took no time. */
  predicate Measures(sample: real, bytes: nat, time: real) {
    if 0.0 < time then sample * time == (8 * bytes) as real else sample == 0.0
  }

  /** A download takes its time on the wire, or what its bits take at the cap when that is longer. */
  predicate Takes(time: real, round: Round, cap: real) {
    if cap <= 0.0 then time == round.elapsed
    else round.elapsed <= time && (8 * round.bytes) as real <= time * cap
         && (time == round.elapsed || time * cap == (8 * round.bytes) as real)
  }

  lemma ThroughputMeasures(bytes: nat, time: real)
    ensures Measures(Throughput(bytes, time), bytes, time)
  {
  }

  lemma ExtraTakes(cap: real, round: Round)
    ensures Takes(round.elapsed + Extra(cap, round.bytes, round.elapsed), round, cap)
  {
    if 0.0 < cap {
      var bits := (8 * round.bytes) as real;
      var required := bits / cap;
      assert required * cap == bits;
      if required <= round.elapsed {
        MulKeepsOrder(required, round.elapsed, cap);
      }
    }
  }

  lemma OneDownload(s: Setup, feed: Feed, round: Round)
    requires s.timeline != []
    ensures var next, time := Advance(s, feed, round), TimeOf(s, feed, round);
            var start := if feed.start.Some? then feed.start.value else feed.now + round.wait;
            && next.start == Some(start)
            && next.now == feed.now + round.wait + Max(s.latency, 0.0) + time
            && next.estimate == Some(Smoothed(s.alpha, feed.estimate, Throughput(round.bytes, time)))
            && Takes(time, round,
                     CapAt(s.timeline, feed.now + round.wait + Max(s.latency, 0.0) + round.elapsed - start))
  {
    hide CapAt, Throughput, Smoothed, Takes, Extra, Max;
    var start := if feed.start.Some? then feed.start.value else feed.now + round.wait;
    var cap := CapAt(s.timeline, feed.now + round.wait + Max(s.latency, 0.0) + round.elapsed - start);
    ExtraTakes(cap, round);
    assert TimeOf(s, feed, round) == round.elapsed + Extra(cap, round.bytes, round.elapsed);
  }

  /** What each download measured. */
  function Samples(rounds: seq<Round>, times: seq<real>): (samples: seq<real>)
    requires |rounds| == |times|
    ensures |samples| == |rounds|
    ensures forall k :: 0 <= k < |rounds| ==> Measures(samples[k], rounds[k].bytes, times[k])
  {
    seq(|rounds|, k requires 0 <= k < |rounds| =>
      ThroughputMeasures(rounds[k].bytes, times[k]); Throughput(rounds[k].bytes, times[k]))
  }

  lemma {:induction false} DownloadTakes(s: Setup, feed: Feed, rounds: seq<Round>, k: nat)
    requires s.timeline != [] && k < |rounds|
    ensures var times := Times(s, feed, rounds);
            Takes(times[k], rounds[k], CapAt(s.timeline, ReadAt(s, feed, rounds, times, k)))
    decreases k
  {
    hide CapAt, Advance, TimeOf, Takes;
    var times, next := Times(s, feed, rounds), Advance(s, feed, rounds[0]);
    OneDownload(s, feed, rounds[0]);
    if k == 0 {
      assert Spent(s, rounds, times, 0) == 0.0;
    } else {
      DownloadTakes(s, next, rounds[1..], k - 1);
      assert times[1..] == Times(s, next, rounds[1..]);
      assert ReadAt(s, feed, rounds, times, k) == ReadAt(s, next, rounds[1..], times[1..], k - 1);
    }
  }

  /** The choice before download k is made on the smoothed measurements of the downloads before it. */
  lemma {:induction false} LevelOnSamples(s: Setup, feed: Feed, rounds: seq<Round>, k: nat)
    requires s.timeline != [] && s.ladder != [] && k < |rounds|
    ensures var samples := Samples(rounds, Times(s, feed, rounds));
            Levels(s, feed, rounds)[k] == RateLevel(s.ladder, s.safety, Estimate(s.alpha, feed.estimate, samples[..k]))
    decreases k
  {
    hide CapAt, Advance, TimeOf, Takes, RateLevel, Estimate, Throughput;
    var times, next := Times(s, feed, rounds), Advance(s, feed, rounds[0]);
    var samples := Samples(rounds, times);
    if k == 0 {
      assert samples[..0] == [];
      NoSamples(s.alpha, feed.estimate);
    } else {
      OneDownload(s, feed, rounds[0]);
      LevelOnSamples(s, next, rounds[1..], k - 1);
      assert times[1..] == Times(s, next, rounds[1..]);
      var later := Samples(rounds[1..], times[1..]);
      assert samples[..k] == [samples[0]] + later[..k - 1];
      FirstSample(s.alpha, feed.estimate, samples[0], later[..k - 1]);
    }
  }

  lemma NoSamples(alpha: real, initial: Option<real>)
    ensures Estimate(alpha, initial, []) == initial
  {
  }

  lemma FirstSample(alpha: real, initial: Option<real>, sample: real, later: seq<real>)
    ensures Estimate(alpha, initial, [sample] + later)
         == Estimate(alpha, Some(Smoothed(alpha, initial, sample)), later)
  {
    hide Smoothed;
    EstimateAppend(alpha, initial, [sample], later);
    assert [sample][..0] == [];
    assert Estimate(alpha, initial, []) == initial;
  }

  /** The level is the highest that fits safety times the estimate, or times the lowest bitrate if there is none. */
  predicate Chooses(s: Setup, estimate: Option<real>, level: nat)
    requires s.ladder != []
  {
    var usable := if estimate.None? || estimate.value == 0.0 then s.ladder[0] else estimate.value;
    level == LastFitting(s.ladder, s.safety * usable)
  }

  lemma LimitIs(ladder: Ladder, usable: real, safety: real)
    ensures LastFitting(ladder, Limit(usable, safety)) == LastFitting(ladder, safety * usable)
  {
    assert Limit(usable, safety) == safety * usable;
  }

  lemma RateLevelChooses(s: Setup, estimate: Option<real>)
    requires s.ladder != []
    ensures Chooses(s, estimate, RateLevel(s.ladder, s.safety, estimate))
  {
    hide Limit, Climb;
    LimitIs(s.ladder, if estimate.None? || estimate.value == 0.0 then s.ladder[0] else estimate.value, s.safety);
  }

  /**
   Told without the shaper: a download takes its wire time, or what its bits take at the cap in force when
   its last byte is on hand; what it measures is its bits a second; and the level before it is chosen on
   the smoothed measurements so far.
   */
  lemma {:induction false} RunInBits(s: Setup, feed: Feed, rounds: seq<Round>)
      returns (times: seq<real>, samples: seq<real>)
    requires s.timeline != [] && s.ladder != []
    ensures |times| == |samples| == |rounds|
    ensures forall k :: 0 <= k < |rounds| ==>
              && Takes(times[k], rounds[k], CapAt(s.timeline, ReadAt(s, feed, rounds, times, k)))
              && Measures(samples[k], rounds[k].bytes, times[k])
              && Chooses(s, Estimate(s.alpha, feed.estimate, samples[..k]), Levels(s, feed, rounds)[k])
  {
    times := Times(s, feed, rounds);
    samples := Samples(rounds, times);
    hide Takes, Measures, Chooses, CapAt, Levels, Estimate, Times, RateLevel, ReadAt;
    forall k | 0 <= k < |rounds|
      ensures Takes(times[k], rounds[k], CapAt(s.timeline, ReadAt(s, feed, rounds, times, k)))
      ensures Chooses(s, Estimate(s.alpha, feed.estimate, samples[..k]), Levels(s, feed, rounds)[k])
    {
      DownloadTakes(s, feed, rounds, k);
      LevelOnSamples(s, feed, rounds, k);
      RateLevelChooses(s, Estimate(s.alpha, feed.estimate, samples[..k]));
    }
  }
}
