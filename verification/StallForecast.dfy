/**
 Actual stalls predicted: the playback thread idles for the largest lag of a segment behind the video
 shown before it, and that is what predictive control foresees when the downloads take the time it assumes.
 */
module StallForecast {
  import opened Arithmetic
  import opened Wrappers
  import opened Buffer
  import opened Playback
  import Mpc
  import MpcBounds
  import SessionReport

  /** Every turn takes its segment, at once if it is ready and otherwise when it gets ready. */
  ghost predicate TakenWhenReady(at: real, turns: seq<Turn>, ready: seq<real>, speed: real)
    requires 0.0 < speed
    decreases |turns|
  {
    && |turns| == |ready|
    && (turns != [] ==>
          && TurnPrompt(at, turns[0], speed) && turns[0].Delivered().Some?
          && turns[0].Arrival() == Max(at, ready[0])
          && TakenWhenReady(turns[0].resumed, turns[1..], ready[1..], speed))
  }

  /** Seconds between the end of one segment and the start of the next, in all. */
  function IdleTime(at: real, turns: seq<Turn>): real
    decreases |turns|
  {
    if turns == [] then 0.0 else (turns[0].Arrival() - at) + IdleTime(turns[0].resumed, turns[1..])
  }

  /** The time it takes to show the first k segments. */
  function ShowTime(turns: seq<Turn>, k: nat, speed: real): real
    requires k <= |turns| && 0.0 < speed && forall i :: 0 <= i < |turns| ==> turns[i].Delivered().Some?
  {
    if k == 0 then 0.0 else turns[0].Delivered().value.duration / speed + ShowTime(turns[1..], k - 1, speed)
  }

  lemma {:induction false} AllDelivered(at: real, turns: seq<Turn>, ready: seq<real>, speed: real)
    requires 0.0 < speed && TakenWhenReady(at, turns, ready, speed)
    ensures forall i :: 0 <= i < |turns| ==> turns[i].Delivered().Some?
    ensures Prompt(at, turns, speed)
    decreases |turns|
  {
    if turns != [] {
      AllDelivered(turns[0].resumed, turns[1..], ready[1..], speed);
      assert forall i :: 1 <= i < |turns| ==> turns[i] == turns[1..][i - 1];
    }
  }

  /** How late segment k would be if no earlier segment had been. */
  function Lag(at: real, turns: seq<Turn>, ready: seq<real>, k: nat, speed: real): real
    requires k < |turns| == |ready| && 0.0 < speed && forall i :: 0 <= i < |turns| ==> turns[i].Delivered().Some?
  {
    ready[k] - at - ShowTime(turns, k, speed)
  }

  /** Idle time is the largest lag of any segment, or nothing. */
  lemma {:induction false} IdleClosedForm(at: real, turns: seq<Turn>, ready: seq<real>, speed: real)
    requires 0.0 < speed && TakenWhenReady(at, turns, ready, speed)
    ensures |turns| == |ready| && forall i :: 0 <= i < |turns| ==> turns[i].Delivered().Some?
    ensures 0.0 <= IdleTime(at, turns)
    ensures forall k :: 0 <= k < |turns| ==> Lag(at, turns, ready, k, speed) <= IdleTime(at, turns)
    ensures IdleTime(at, turns) == 0.0
            || exists k :: 0 <= k < |turns| && Lag(at, turns, ready, k, speed) == IdleTime(at, turns)
    decreases |turns|
  {
    AllDelivered(at, turns, ready, speed);
    if turns != [] {
      var next, rest, later := turns[0].resumed, turns[1..], ready[1..];
      IdleClosedForm(next, rest, later, speed);
      forall k | 1 <= k < |turns|
        ensures Lag(at, turns, ready, k, speed) == Lag(next, rest, later, k - 1, speed) + (turns[0].Arrival() - at)
      {
        LagShifts(at, turns, ready, k, speed);
      }
      hide TurnPrompt;
      if IdleTime(next, rest) == 0.0 {
        assert Lag(at, turns, ready, 0, speed) == ready[0] - at;
      } else {
        var k :| 0 <= k < |rest| && Lag(next, rest, later, k, speed) == IdleTime(next, rest);
        assert Lag(at, turns, ready, k + 1, speed) == IdleTime(at, turns);
      }
    }
  }

  lemma LagShifts(at: real, turns: seq<Turn>, ready: seq<real>, k: nat, speed: real)
    requires 1 <= k < |turns| == |ready| && 0.0 < speed && TurnPrompt(at, turns[0], speed)
    requires forall i :: 0 <= i < |turns| ==> turns[i].Delivered().Some?
    ensures Lag(at, turns, ready, k, speed)
         == Lag(turns[0].resumed, turns[1..], ready[1..], k - 1, speed) + (turns[0].Arrival() - at)
  {
    assert ready[k] == ready[1..][k - 1];
  }

  /** The time passed is idle time and showing time. */
  lemma {:induction false} IdleAndShown(at: real, turns: seq<Turn>, ready: seq<real>, segments: seq<Segment>,
                                        speed: real)
    requires 0.0 < speed && TakenWhenReady(at, turns, ready, speed) && SessionReport.Takes(turns, segments)
    ensures SessionReport.LastReading(at, turns) - at - Total(segments) / speed == IdleTime(at, turns)
    decreases |turns|
  {
    if turns == [] {
      assert 0.0 / speed == 0.0;
    } else {
      assert turns[0].Delivered() == Some(segments[0]);
      assert SessionReport.Takes(turns[1..], segments[1..]);
      IdleAndShown(turns[0].resumed, turns[1..], ready[1..], segments[1..], speed);
      AddTimes(segments[0].duration, Total(segments[1..]), speed);
    }
  }

  // ---------------------------------------------------------------- what predictive control foresees

  /** The segments of a plan, downloaded one after the other from `now` on: their bits move by then, and no sooner. */
  ghost predicate Downloaded(c: Mpc.Controller, plan: Mpc.Plan, throughput: real, now: real, ready: seq<real>)
    requires Mpc.IsPlan(c, plan)
  {
    && |ready| == |plan|
    && forall k :: 0 <= k < |plan| ==> MpcBounds.Moved(ready[k] - now, throughput) == MpcBounds.Bits(c, plan[..k + 1])
  }

  ghost predicate EqualLength(c: Mpc.Controller, turns: seq<Turn>) {
    forall i :: 0 <= i < |turns| ==> turns[i].Delivered().Some? && turns[i].Delivered().value.duration == c.duration
  }

  lemma {:induction false} ShowTimeOfEqual(c: Mpc.Controller, turns: seq<Turn>, k: nat)
    requires k <= |turns| && EqualLength(c, turns)
    ensures ShowTime(turns, k, 1.0) == MpcBounds.Video(c, k)
    decreases k
  {
    MpcBounds.VideoOneMore(c, k);
    if k != 0 {
      assert EqualLength(c, turns[1..]);
      ShowTimeOfEqual(c, turns[1..], k - 1);
    }
  }

  lemma ReadyAt(c: Mpc.Controller, plan: Mpc.Plan, throughput: real, now: real, ready: seq<real>, k: nat)
    requires Mpc.IsPlan(c, plan) && k < |plan| && Downloaded(c, plan, throughput, now, ready)
    ensures ready[k] == now + MpcBounds.TotalTime(c, plan[..k + 1], throughput)
  {
    var seconds, time := ready[k] - now, MpcBounds.TotalTime(c, plan[..k + 1], throughput);
    MpcBounds.TimeIsBits(c, plan[..k + 1], throughput);
    MpcBounds.MaxPositive(throughput);
    MpcBounds.SameOrder(seconds, time, Max(throughput, 1.0));
    MpcBounds.SameOrder(time, seconds, Max(throughput, 1.0));
  }

  lemma LagIsDeficit(c: Mpc.Controller, plan: Mpc.Plan, s: Mpc.Situation, now: real, turns: seq<Turn>,
                     ready: seq<real>, k: nat)
    requires Mpc.IsPlan(c, plan) && Downloaded(c, plan, s.throughput, now, ready)
    requires k < |plan| == |turns| && EqualLength(c, turns)
    ensures Lag(now + s.buffer, turns, ready, k, 1.0) == MpcBounds.Deficit(c, plan, s, k + 1)
  {
    ReadyAt(c, plan, s.throughput, now, ready, k);
    ShowTimeOfEqual(c, turns, k);
  }

  /**
   The stall predicted for a plan is the time playback idles when the buffer holds what the controller
   was told, the downloads follow each other at the throughput assumed, and playback runs at speed one.
   */
  lemma ForecastIsIdle(c: Mpc.Controller, plan: Mpc.Plan, s: Mpc.Situation, now: real, turns: seq<Turn>,
                       ready: seq<real>)
    requires Mpc.Valid(c, s) && Mpc.IsPlan(c, plan) && |turns| == |plan| && EqualLength(c, turns)
    requires Downloaded(c, plan, s.throughput, now, ready)
    requires TakenWhenReady(now + s.buffer, turns, ready, 1.0)
    ensures IdleTime(now + s.buffer, turns) == MpcBounds.TotalStall(c, plan, s)
  {
    hide TakenWhenReady, Downloaded, EqualLength, IdleTime, MpcBounds.TotalStall, MpcBounds.Deficit;
    var at := now + s.buffer;
    IdleClosedForm(at, turns, ready, 1.0);
    MpcBounds.StallClosedForm(c, plan, s);
    forall k | 0 <= k < |plan| ensures Lag(at, turns, ready, k, 1.0) == MpcBounds.Deficit(c, plan, s, k + 1) {
      LagIsDeficit(c, plan, s, now, turns, ready, k);
    }
    if MpcBounds.TotalStall(c, plan, s) != 0.0 {
      var k :| 1 <= k <= |plan| && MpcBounds.Deficit(c, plan, s, k) == MpcBounds.TotalStall(c, plan, s);
      assert Lag(at, turns, ready, k - 1, 1.0) == MpcBounds.TotalStall(c, plan, s);
    }
  }

  /** So the stalls the report adds for those segments are the predicted ones, up to 0.07 s a segment. */
  lemma ForecastIsReported(c: Mpc.Controller, plan: Mpc.Plan, s: Mpc.Situation, now: real, turns: seq<Turn>,
                           ready: seq<real>, segments: seq<Segment>, r: Report, total: int, sessionStart: real)
    requires Mpc.Valid(c, s) && Mpc.IsPlan(c, plan) && |turns| == |plan| && EqualLength(c, turns)
    requires Downloaded(c, plan, s.throughput, now, ready)
    requires TakenWhenReady(now + s.buffer, turns, ready, 1.0)
    requires SessionReport.Takes(turns, segments) && r.segmentsPlayed + |turns| <= total
    ensures var stalled := Play(r, total, sessionStart, turns).rebufferSeconds - r.rebufferSeconds;
            stalled <= MpcBounds.TotalStall(c, plan, s) <= stalled + 0.07 * |plan| as real
  {
    var at := now + s.buffer;
    ForecastIsIdle(c, plan, s, now, turns, ready);
    AllDelivered(at, turns, ready, 1.0);
    IdleAndShown(at, turns, ready, segments, 1.0);
    hide TakenWhenReady, Downloaded, EqualLength, IdleTime, MpcBounds.TotalStall, Prompt, Play;
    UnreportedIdle(r, total, sessionStart, at, turns, 1.0);
    SessionReport.PlayedThrough(r, total, sessionStart, at, turns, segments);
  }
}
