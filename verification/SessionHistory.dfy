/**
 What a run of the session leaves behind, told from its steps alone: the lengths of the segments
 stored, the levels chosen, and the rounds the scheduler went through.
 */
module SessionHistory {
  import opened Buffer
  import opened Decisions
  import opened Session
  import opened SessionProofs
  import PendingTasks
  import Scheduler
  import Tasks

  /** The durations the replies reported, download by download. */
  function Reported(steps: seq<Step>): seq<real> {
    if steps == [] then [] else (if steps[0].Download? then [steps[0].reported] else []) + Reported(steps[1..])
  }

  /** The levels downloaded. */
  function Picked(steps: seq<Step>): seq<int> {
    if steps == [] then [] else (if steps[0].Download? then [steps[0].index] else []) + Picked(steps[1..])
  }

  /** Seconds of segments whose replies reported these durations; a report of zero stands for two seconds. */
  function Seconds(reported: seq<real>): real {
    if reported == [] then 0.0 else (if reported[0] == 0.0 then 2.0 else reported[0]) + Seconds(reported[1..])
  }

  /** The segments stored, and the one on its way, have the lengths reported. */
  ghost predicate Tracked(s: State, reported: seq<real>) {
    && |reported| == |s.stored| + (if s.producer.Putting? then 1 else 0)
    && (forall i :: 0 <= i < |s.stored| ==> s.stored[i].duration == if reported[i] == 0.0 then 2.0 else reported[i])
    && (s.producer.Putting? ==>
          s.producer.segment.duration
          == if reported[|s.stored|] == 0.0 then 2.0 else reported[|s.stored|])
  }

  lemma TrackedStep(cfg: Setup, s: State, reported: seq<real>, step: Step)
    requires Enabled(cfg, s, step) && Tracked(s, reported)
    ensures Tracked(Apply(cfg, s, step), reported + if step.Download? then [step.reported] else [])
  {
    hide Scheduler.NextId, Scheduler.AfterRound;
    var more := reported + if step.Download? then [step.reported] else [];
    assert forall i :: 0 <= i < |reported| ==> more[i] == reported[i];
  }

  lemma {:induction false} TrackedRun(cfg: Setup, s: State, reported: seq<real>, steps: seq<Step>)
    requires Feasible(cfg, s, steps) && Tracked(s, reported)
    ensures Tracked(End(cfg, s, steps), reported + Reported(steps))
    decreases |steps|
  {
    hide Tracked, Apply, Enabled;
    if steps == [] {
      assert reported + [] == reported;
    } else {
      var now := if steps[0].Download? then [steps[0].reported] else [];
      TrackedStep(cfg, s, reported, steps[0]);
      TrackedRun(cfg, Apply(cfg, s, steps[0]), reported + now, steps[1..]);
      assert (reported + now) + Reported(steps[1..]) == reported + Reported(steps);
    }
  }

  lemma {:induction false} SecondsOf(segments: seq<Segment>, reported: seq<real>)
    requires |segments| == |reported|
    requires forall i :: 0 <= i < |segments| ==> segments[i].duration == if reported[i] == 0.0 then 2.0 else reported[i]
    ensures Total(segments) == Seconds(reported)
    decreases |segments|
  {
    if segments != [] {
      assert forall i :: 0 <= i < |segments| - 1 ==>
                           segments[1..][i] == segments[i + 1] && reported[1..][i] == reported[i + 1];
      SecondsOf(segments[1..], reported[1..]);
    }
  }

  /**
   In every run the i-th segment stored lasts as long as the i-th reply reported, or two seconds if
   that was zero; so the buffer level and the video already taken out add up to what was reported.
   */
  lemma {:induction false} StoredAsReported(cfg: Setup, steps: seq<Step>)
    requires Playable(cfg) && Feasible(cfg, START, steps)
    ensures var e, reported := End(cfg, START, steps), Reported(steps);
            && |e.stored| <= |reported| <= |e.stored| + 1
            && (forall i :: 0 <= i < |e.stored| ==>
                  e.stored[i].duration == if reported[i] == 0.0 then 2.0 else reported[i])
            && e.monitor.level + Total(e.played) == Seconds(reported[..|e.stored|])
  {
    var e, reported := End(cfg, START, steps), Reported(steps);
    TrackedRun(cfg, START, [], steps);
    assert [] + reported == reported;
    SessionSafety(cfg, steps);
    LevelIsBufferedTime(cfg, steps);
    SecondsOf(e.stored, reported[..|e.stored|]);
    TotalJoined(e.played, e.monitor.queue);
  }

  // ---------------------------------------------------------------- levels

  lemma {:induction false} ChosenArePicked(cfg: Setup, s: State, steps: seq<Step>)
    requires Feasible(cfg, s, steps)
    ensures End(cfg, s, steps).chosen == s.chosen + Picked(steps)
    decreases |steps|
  {
    hide Apply, Enabled;
    if steps == [] {
      assert s.chosen + [] == s.chosen;
    } else {
      var next, now := Apply(cfg, s, steps[0]), if steps[0].Download? then [steps[0].index] else [];
      ChosenStep(cfg, s, steps[0]);
      ChosenArePicked(cfg, next, steps[1..]);
      Regroup(s.chosen, now, Picked(steps[1..]));
    }
  }

  lemma Regroup(a: seq<int>, b: seq<int>, c: seq<int>)
    ensures (a + b) + c == a + (b + c)
  {
  }

  lemma ChosenStep(cfg: Setup, s: State, step: Step)
    requires Enabled(cfg, s, step)
    ensures Apply(cfg, s, step).chosen == s.chosen + if step.Download? then [step.index] else []
  {
    hide Scheduler.NextId, Scheduler.AfterRound;
    assert s.chosen + [] == s.chosen;
  }

  /** The switch counter is the number of downloads at another level than the one before. */
  lemma SwitchesOfRun(cfg: Setup, steps: seq<Step>)
    requires Playable(cfg) && Feasible(cfg, START, steps)
    ensures End(cfg, START, steps).switches == |SwitchedAt(Picked(steps))|
  {
    ChosenArePicked(cfg, START, steps);
    assert [] + Picked(steps) == Picked(steps);
    SessionSafety(cfg, steps);
    SwitchesCounted(Picked(steps));
  }

  // ---------------------------------------------------------------- the scheduler's rounds

  /**
   The rounds of the scheduler in a run: the next segment, three ahead, at the level that is the
   buffered time at that moment.
   */
  ghost function Rounds(cfg: Setup, s: State, steps: seq<Step>): seq<Scheduler.Round>
    requires Feasible(cfg, s, steps)
    decreases |steps|
  {
    if steps == [] then []
    else
      (if steps[0].Schedule? then [Scheduler.Round(|s.requested| + 1, 3, Total(s.monitor.queue), steps[0].now)] else [])
      + Rounds(cfg, Apply(cfg, s, steps[0]), steps[1..])
  }

  lemma ScheduleIsRound(cfg: Setup, s: State, now: real)
    requires Inv(cfg, s) && Enabled(cfg, s, Schedule(now))
    ensures var r := Scheduler.Round(|s.requested| + 1, 3, Total(s.monitor.queue), now);
            var e := Apply(cfg, s, Schedule(now));
            && e.pending == Scheduler.AfterRound(cfg.scheduler, s.pending, r)
            && e.requested == s.requested + [Scheduler.NextId(cfg.scheduler, s.pending, r)]
  {
    hide Scheduler.NextId, Scheduler.AfterRound, Scheduler.Gapless;
  }

  lemma OtherSteps(cfg: Setup, s: State, step: Step)
    requires Enabled(cfg, s, step) && !step.Schedule?
    ensures Apply(cfg, s, step).pending == s.pending && Apply(cfg, s, step).requested == s.requested
  {
  }

  lemma RoundThenRest(cfg: Scheduler.Config, p: Scheduler.Pending, r: Scheduler.Round, rest: seq<Scheduler.Round>,
                      before: seq<int>)
    ensures var (ids, left) := Scheduler.Run(cfg, p, [r] + rest);
            var (later, end) := Scheduler.Run(cfg, Scheduler.AfterRound(cfg, p, r), rest);
            before + ids == (before + [Scheduler.NextId(cfg, p, r)]) + later && left == end
  {
    hide Scheduler.NextId, Scheduler.AfterRound, Scheduler.Run;
    assert ([r] + rest)[1..] == rest;
    Scheduler.RunUnfolds(cfg, p, [r] + rest);
  }

  /** A session's scheduler state and requests are those of the scheduler run through these rounds. */
  lemma {:induction false} SchedulerOfRun(cfg: Setup, s: State, steps: seq<Step>)
    requires Playable(cfg) && Inv(cfg, s) && Feasible(cfg, s, steps)
    ensures var e := End(cfg, s, steps);
            var (ids, left) := Scheduler.Run(cfg.scheduler, s.pending, Rounds(cfg, s, steps));
            e.requested == s.requested + ids && e.pending == left
    decreases |steps|
  {
    hide Apply, Enabled, Inv, Scheduler.NextId, Scheduler.AfterRound;
    if steps == [] {
      assert s.requested + [] == s.requested;
    } else {
      StepInv(cfg, s, steps[0]);
      var next, rest := Apply(cfg, s, steps[0]), Rounds(cfg, Apply(cfg, s, steps[0]), steps[1..]);
      SchedulerOfRun(cfg, next, steps[1..]);
      if steps[0].Schedule? {
        ScheduleIsRound(cfg, s, steps[0].now);
        var r := Scheduler.Round(|s.requested| + 1, 3, Total(s.monitor.queue), steps[0].now);
        assert Rounds(cfg, s, steps) == [r] + rest;
        RoundThenRest(cfg.scheduler, s.pending, r, rest, s.requested);
      } else {
        OtherSteps(cfg, s, steps[0]);
        assert Rounds(cfg, s, steps) == [] + rest && [] + rest == rest;
      }
    }
  }

  lemma {:induction false} RoundsConsecutive(cfg: Setup, s: State, steps: seq<Step>)
    requires Feasible(cfg, s, steps)
    ensures forall i :: 0 <= i < |Rounds(cfg, s, steps)| ==> Rounds(cfg, s, steps)[i].from == |s.requested| + 1 + i
    ensures |End(cfg, s, steps).requested| == |s.requested| + |Rounds(cfg, s, steps)|
    decreases |steps|
  {
    hide Apply, Enabled;
    if steps != [] {
      RequestedStep(cfg, s, steps[0]);
      RoundsConsecutive(cfg, Apply(cfg, s, steps[0]), steps[1..]);
    }
  }

  lemma RequestedStep(cfg: Setup, s: State, step: Step)
    requires Enabled(cfg, s, step)
    ensures |Apply(cfg, s, step).requested| == |s.requested| + if step.Schedule? then 1 else 0
  {
    hide Scheduler.NextId, Scheduler.AfterRound;
  }

  /** Of the tasks for segments not yet requested, the scheduler of a session holds exactly those its rounds pushed. */
  lemma {:induction false} HeapOfSession(cfg: Setup, steps: seq<Step>, t: Tasks.ScheduledTask)
    requires Playable(cfg) && Feasible(cfg, START, steps)
    ensures var e, rounds := End(cfg, START, steps), Rounds(cfg, START, steps);
            && (e.pending.tasks[t] <= if PendingTasks.Pushed(cfg.scheduler, rounds, 0, t) then 1 else 0)
            && (|e.requested| < t.segmentId ==>
                  e.pending.tasks[t] == if PendingTasks.Pushed(cfg.scheduler, rounds, 0, t) then 1 else 0)
  {
    var rounds := Rounds(cfg, START, steps);
    StartInv(cfg);
    SchedulerOfRun(cfg, START, steps);
    RoundsConsecutive(cfg, START, steps);
    hide Feasible, End, Rounds, Scheduler.Run, PendingTasks.Pushed;
    PendingTasks.LeftPending(cfg.scheduler, rounds, t);
    if rounds == [] {
      NothingPending(cfg.scheduler, t);
    }
  }

  lemma NothingPending(cfg: Scheduler.Config, t: Tasks.ScheduledTask)
    ensures Scheduler.Run(cfg, Scheduler.NOTHING_PENDING, []).1.tasks[t] == 0
    ensures !PendingTasks.Pushed(cfg, [], 0, t)
  {
  }
}
