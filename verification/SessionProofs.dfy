/** What holds in every interleaving of the download loop and the playback thread. */
module SessionProofs {
  import opened Buffer
  import opened Decisions
  import opened Session
  import Scheduler

  /** A session the two threads can complete: something to play, room for it, sane scheduling. */
  predicate Playable(cfg: Setup) {
    1 <= cfg.count && 0.0 < cfg.maxSeconds && 1 <= cfg.levels && Scheduler.Sane(cfg.scheduler)
  }

  ghost predicate CountsUp(ids: seq<int>) {
    forall i :: 0 <= i < |ids| ==> ids[i] == i + 1
  }

  ghost predicate Numbered(segments: seq<Segment>) {
    forall i :: 0 <= i < |segments| ==> segments[i].id == i + 1
  }

  ghost predicate Sized(cfg: Setup, segments: seq<Segment>) {
    forall i :: 0 <= i < |segments| ==> 0.0 < segments[i].duration <= cfg.maxSeconds
  }

  /** Requests are numbered 1, 2, 3, ... and the buffer holds what was stored and not yet played. */
  ghost predicate InOrder(cfg: Setup, s: State) {
    && Scheduler.Gapless(s.pending.tasks, |s.requested|)
    && CountsUp(s.requested) && |s.requested| <= cfg.count
    && Numbered(s.stored) && Sized(cfg, s.stored) && |s.stored| == s.round
    && s.stored == s.played + s.monitor.queue
    && s.segmentsPlayed == s.lastSegment == |s.played|
    && s.switches == Switches(s.chosen) && s.currentIndex == Current(s.chosen)
    && Consistent(cfg.maxSeconds, s.monitor)
  }

  /** The producer's place in its round; parked on the full condition only while it cannot proceed. */
  ghost predicate ProducerInv(cfg: Setup, s: State) {
    && s.round <= cfg.count
    && (s.producer.Choosing? ==> |s.requested| == s.round)
    && (s.producer.Finished? ==> |s.requested| == s.round == cfg.count)
    && (s.producer.Downloading? ==> |s.requested| == s.round + 1 && s.producer.id == s.round + 1)
    && (s.producer.Putting? ==> && |s.requested| == s.round + 1
                                && s.producer.segment.id == s.round + 1
                                && 0.0 < s.producer.segment.duration <= cfg.maxSeconds)
    && (!s.producer.Putting? ==> s.monitor.notFull.Absent?)
    && (s.monitor.notFull.Parked? ==> && s.monitor.queue != []
                                      && !Fits(cfg.maxSeconds, s.monitor, s.producer.segment.duration))
  }

  /** The consumer's place in its loop; parked on the empty condition only while nothing is buffered. */
  ghost predicate ConsumerInv(cfg: Setup, s: State) {
    && s.segmentsPlayed <= cfg.count
    && (s.consumer.Starting? ==> s.segmentsPlayed == 0)
    && (s.consumer.Steady? || s.consumer.Stalled? ==> 0 < s.segmentsPlayed < cfg.count)
    && (s.consumer.Playing? ==> 0 < s.segmentsPlayed)
    && (s.consumer.Stopped? ==> s.segmentsPlayed == cfg.count)
    && (!s.consumer.Fetching() ==> s.monitor.notEmpty.Absent?)
    && (s.monitor.notEmpty.Parked? ==> s.monitor.queue == [])
    && (s.monitor.notEmpty.Notified? ==> s.monitor.queue != [])
  }

  ghost predicate Inv(cfg: Setup, s: State) {
    InOrder(cfg, s) && ProducerInv(cfg, s) && ConsumerInv(cfg, s)
  }

  lemma StartInv(cfg: Setup)
    requires Playable(cfg)
    ensures Inv(cfg, START)
  {
  }

  /** The scheduler answers round i of the download loop with segment i + 1. */
  lemma ScheduleEffect(cfg: Setup, s: State, now: real)
    requires Playable(cfg) && Inv(cfg, s) && Enabled(cfg, s, Schedule(now))
    ensures var e := Apply(cfg, s, Schedule(now));
            && e == s.(pending := e.pending, producer := Downloading(s.round + 1),
                       requested := s.requested + [s.round + 1])
            && Scheduler.Gapless(e.pending.tasks, s.round + 1)
  {
    hide Scheduler.NextId, Scheduler.AfterRound, Scheduler.Picked, Scheduler.Scheduled, Scheduler.Gapless;
    hide ConsumerInv;
    var r := Scheduler.Round(s.round + 1, LOOKAHEAD, s.monitor.level, now);
    Scheduler.RoundInOrder(cfg.scheduler, s.pending, r, s.round);
  }

  lemma ScheduleStep(cfg: Setup, s: State, now: real)
    requires Playable(cfg) && Inv(cfg, s) && Enabled(cfg, s, Schedule(now))
    ensures Inv(cfg, Apply(cfg, s, Schedule(now)))
  {
    ScheduleEffect(cfg, s, now);
    var e := Apply(cfg, s, Schedule(now));
    var pending := e.pending;
    ScheduledInv(cfg, s, pending, e);
  }

  lemma ScheduledInv(cfg: Setup, s: State, pending: Scheduler.Pending, e: State)
    requires Inv(cfg, s) && s.producer.Choosing? && s.round < cfg.count
    requires e == s.(pending := pending, producer := Downloading(s.round + 1), requested := s.requested + [s.round + 1])
    requires Scheduler.Gapless(pending.tasks, s.round + 1)
    ensures Inv(cfg, e)
  {
  }

  lemma DownloadStep(cfg: Setup, s: State, index: int, reported: real)
    requires Playable(cfg) && Inv(cfg, s) && Enabled(cfg, s, Download(index, reported))
    ensures Inv(cfg, Apply(cfg, s, Download(index, reported)))
  {
    SwitchesAppend(s.chosen, index);
  }

  lemma PutStep(cfg: Setup, s: State)
    requires Playable(cfg) && Inv(cfg, s) && Enabled(cfg, s, Put)
    ensures Inv(cfg, Apply(cfg, s, Put))
  {
    var segment := s.producer.segment;
    PutKeepsConsistent(cfg.maxSeconds, s.monitor, segment, false);
    assert s.played + (s.monitor.queue + [segment]) == s.stored + [segment];
    if s.monitor.queue == [] {
      assert Fits(cfg.maxSeconds, s.monitor, segment.duration);
    }
  }

  lemma ConsumeStep(cfg: Setup, s: State, waited: bool)
    requires Playable(cfg) && Inv(cfg, s) && s.consumer.Fetching()
    requires waited || s.monitor.notEmpty.Absent?
    ensures Inv(cfg, Consume(s, GetSection(s.monitor, waited)))
  {
    GetKeepsConsistent(cfg.maxSeconds, s.monitor, waited);
    if s.monitor.queue != [] {
      var e := Consume(s, GetSection(s.monitor, waited));
      assert s.monitor.queue == [s.monitor.queue[0]] + s.monitor.queue[1..];
      assert e.played + e.monitor.queue == s.stored;
      assert s.monitor.queue[0] == s.stored[|s.played|];
    }
  }

  lemma StepInv(cfg: Setup, s: State, step: Step)
    requires Playable(cfg) && Inv(cfg, s) && Enabled(cfg, s, step)
    ensures Inv(cfg, Apply(cfg, s, step))
  {
    match step
    case Schedule(now) => ScheduleStep(cfg, s, now);
    case Download(index, reported) => DownloadStep(cfg, s, index, reported);
    case Put => PutStep(cfg, s);
    case EndLoop =>
    case Fetch => ConsumeStep(cfg, s, false);
    case Woken => ConsumeStep(cfg, s, true);
    case TimeOut => ConsumeStep(cfg, s, true);
    case EndSegment =>
  }

  lemma CountersAgree(cfg: Setup, s: State)
    requires Inv(cfg, s)
    ensures s.lastSegment == s.segmentsPlayed == |s.played|
  {
  }

  lemma AllStored(cfg: Setup, s: State)
    requires Inv(cfg, s)
    ensures |s.stored| == s.round
  {
  }

  lemma {:induction false} RunInv(cfg: Setup, s: State, steps: seq<Step>)
    requires Playable(cfg) && Inv(cfg, s) && Feasible(cfg, s, steps)
    ensures Inv(cfg, End(cfg, s, steps))
    decreases |steps|
  {
    if steps != [] {
      StepInv(cfg, s, steps[0]);
      RunInv(cfg, Apply(cfg, s, steps[0]), steps[1..]);
    }
  }

  // ---------------------------------------------------------------- safety over whole runs

  ghost predicate IsOver(s: State) { s.producer.Finished? && s.consumer.Stopped? }

  /**
   Whatever the interleaving, the buffer levels seen by the scheduler and the decisions taken:
   requests are 1, 2, 3, ... within the video; segments are stored and played in that order and each
   once; nothing stored is lost; and a finished session has played the whole video.
   */
  lemma {:induction false} SessionSafety(cfg: Setup, steps: seq<Step>)
    requires Playable(cfg) && Feasible(cfg, START, steps)
    ensures var e := End(cfg, START, steps);
            && CountsUp(e.requested) && |e.requested| <= cfg.count
            && Numbered(e.stored) && |e.stored| <= |e.requested|
            && e.stored == e.played + e.monitor.queue
            && e.segmentsPlayed == e.lastSegment == |e.played| <= cfg.count
            && e.switches == Switches(e.chosen)
            && (IsOver(e) ==> e.played == e.stored && |e.played| == cfg.count)
  {
    StartInv(cfg);
    RunInv(cfg, START, steps);
  }

  /** The level reported by the buffer is the playable time it holds, always within its bound. */
  lemma {:induction false} LevelIsBufferedTime(cfg: Setup, steps: seq<Step>)
    requires Playable(cfg) && Feasible(cfg, START, steps)
    ensures var m := End(cfg, START, steps).monitor;
            0.0 <= m.level == Total(m.queue) <= cfg.maxSeconds
  {
    StartInv(cfg);
    RunInv(cfg, START, steps);
    TotalNonNegative(End(cfg, START, steps).monitor.queue);
  }

  /** No lost wake-up: a thread still asleep without a notification could not proceed if it woke. */
  lemma {:induction false} NoLostWakeup(cfg: Setup, steps: seq<Step>)
    requires Playable(cfg) && Feasible(cfg, START, steps)
    ensures var e := End(cfg, START, steps);
            && (e.monitor.notFull.Parked? ==>
                  && e.producer.Putting? && e.monitor.queue != []
                  && PutSection(cfg.maxSeconds, e.monitor, e.producer.segment, false).1 == PutWaits)
            && (e.monitor.notEmpty.Parked? ==> GetSection(e.monitor, true).1 == Nothing)
  {
    StartInv(cfg);
    RunInv(cfg, START, steps);
  }

  // ---------------------------------------------------------------- progress

  /** Steps of the playback thread that find the buffer empty: they change no counter. */
  predicate Idle(s: State, step: Step) {
    (step.Fetch? || step.Woken? || step.TimeOut?) && s.monitor.queue == []
  }

  function ProducerWork(cfg: Setup, s: State): int {
    match s.producer
    case Choosing => 4 * (cfg.count - s.round) + 1
    case Downloading(_) => 4 * (cfg.count - s.round)
    case Putting(_) => 4 * (cfg.count - s.round) - if s.monitor.notFull.Parked? then 2 else 1
    case Finished => 0
  }

  function ConsumerWork(cfg: Setup, s: State): int {
    3 * (cfg.count - s.segmentsPlayed) + if s.consumer.Playing? then 1 else 0
  }

  function Work(cfg: Setup, s: State): int { ProducerWork(cfg, s) + ConsumerWork(cfg, s) }

  lemma StepWork(cfg: Setup, s: State, step: Step)
    requires Playable(cfg) && Inv(cfg, s) && Enabled(cfg, s, step)
    ensures if Idle(s, step) then Work(cfg, Apply(cfg, s, step)) == Work(cfg, s)
            else Work(cfg, Apply(cfg, s, step)) < Work(cfg, s)
  {
  }

  lemma WorkNonNegative(cfg: Setup, s: State)
    requires Inv(cfg, s)
    ensures 0 <= Work(cfg, s)
  {
    assert s.producer.Putting? ==> s.round + 1 <= cfg.count;
  }

  /** Until the session is over some thread can take a step that is real progress. */
  lemma Progress(cfg: Setup, s: State)
    requires Playable(cfg) && Inv(cfg, s) && !IsOver(s)
    ensures exists step :: Enabled(cfg, s, step) && !Idle(s, step)
                           && Work(cfg, Apply(cfg, s, step)) < Work(cfg, s)
  {
    var step :=
      if s.consumer.Playing? then EndSegment
      else if s.consumer.Fetching() && s.monitor.queue != [] then
        (if s.monitor.notEmpty.Notified? then Woken else Fetch)
      else if s.producer.Downloading? then Download(0, cfg.maxSeconds)
      else if s.producer.Putting? then Put
      else if s.round < cfg.count then Schedule(0.0)
      else EndLoop;
    assert Enabled(cfg, s, step) && !Idle(s, step);
    StepWork(cfg, s, step);
  }

  function UsefulSteps(s: State, step: Step): nat { if Idle(s, step) then 0 else 1 }

  ghost function Useful(cfg: Setup, s: State, steps: seq<Step>): nat
    requires Feasible(cfg, s, steps)
    decreases |steps|
  {
    if steps == [] then 0
    else UsefulSteps(s, steps[0]) + Useful(cfg, Apply(cfg, s, steps[0]), steps[1..])
  }

  lemma {:induction false} UsefulBound(cfg: Setup, s: State, steps: seq<Step>)
    requires Playable(cfg) && Inv(cfg, s) && Feasible(cfg, s, steps)
    ensures Useful(cfg, s, steps) <= Work(cfg, s) - Work(cfg, End(cfg, s, steps))
    decreases |steps|
  {
    if steps != [] {
      StepInv(cfg, s, steps[0]);
      StepWork(cfg, s, steps[0]);
      UsefulBound(cfg, Apply(cfg, s, steps[0]), steps[1..]);
    }
  }

  /** No session takes more than 7 N + 1 steps besides finding the buffer empty. */
  lemma SessionLength(cfg: Setup, steps: seq<Step>)
    requires Playable(cfg) && Feasible(cfg, START, steps)
    ensures Useful(cfg, START, steps) <= 7 * cfg.count + 1
  {
    StartInv(cfg);
    UsefulBound(cfg, START, steps);
    RunInv(cfg, START, steps);
    WorkNonNegative(cfg, End(cfg, START, steps));
  }
}
