/**
 A streaming session as two interleaved threads. The producer is the download loop of the client,
 the consumer is the playback thread; they share the bounded buffer. A step is whatever one of them
 does between two points where the other can run.
 */
module Session {
  import opened Buffer
  import Scheduler

  datatype Setup = Setup(count: nat, maxSeconds: real, levels: nat, scheduler: Scheduler.Config)

  const LOOKAHEAD := 3

  /** Where the download loop stands in its current round. */
  datatype Producer = Choosing | Downloading(id: int) | Putting(segment: Segment) | Finished

  /** Where the playback thread stands: waiting for the first segment, playing on, or rebuffering. */
  datatype Consumer = Starting | Steady | Stalled | Playing | Stopped {
    predicate Fetching() { Starting? || Steady? || Stalled? }
  }

  datatype State = State(
    pending: Scheduler.Pending, monitor: Monitor,
    producer: Producer, round: nat, currentIndex: int, switches: nat,
    consumer: Consumer, segmentsPlayed: nat, lastSegment: int,
    requested: seq<int>, chosen: seq<int>, stored: seq<Segment>, played: seq<Segment>)

  datatype Step =
    | Schedule(now: real)
    | Download(index: int, reported: real)
    | Put
    | EndLoop
    | Fetch
    | Woken
    | TimeOut
    | EndSegment

  const START := State(Scheduler.NOTHING_PENDING, EMPTY, Choosing, 0, 0, 0, Starting, 0, 0, [], [], [], [])

  /** A reply without a duration counts as two seconds. */
  function Duration(reported: real): real { if reported == 0.0 then 2.0 else reported }

  predicate Enabled(cfg: Setup, s: State, step: Step) {
    match step
    case Schedule(_) => s.producer.Choosing? && s.round < cfg.count
    case Download(index, reported) =>
      s.producer.Downloading? && 0 <= index < cfg.levels && 0.0 < Duration(reported) <= cfg.maxSeconds
    case Put => s.producer.Putting? && !s.monitor.notFull.Parked?
    case EndLoop => s.producer.Choosing? && s.round == cfg.count
    case Fetch => s.consumer.Fetching() && s.monitor.notEmpty.Absent?
    case Woken => s.consumer.Fetching() && s.monitor.notEmpty.Notified?
    case TimeOut => s.consumer.Fetching() && s.monitor.notEmpty.Parked?
    case EndSegment => s.consumer.Playing?
  }

  ghost function Apply(cfg: Setup, s: State, step: Step): State
    requires Enabled(cfg, s, step)
  {
    match step
    case Schedule(now) =>
      var r := Scheduler.Round(s.round + 1, LOOKAHEAD, s.monitor.level, now);
      var id := Scheduler.NextId(cfg.scheduler, s.pending, r);
      s.(pending := Scheduler.AfterRound(cfg.scheduler, s.pending, r),
         producer := Downloading(id), requested := s.requested + [id])
    case Download(index, reported) =>
      s.(producer := Putting(Segment(s.producer.id, Duration(reported))),
         switches := if index != s.currentIndex then s.switches + 1 else s.switches,
         currentIndex := index, chosen := s.chosen + [index])
    case Put =>
      var (monitor, outcome) := PutSection(cfg.maxSeconds, s.monitor, s.producer.segment, false);
      if outcome.Stored? then
        s.(monitor := monitor, producer := Choosing, round := s.round + 1,
           stored := s.stored + [s.producer.segment])
      else
        s.(monitor := monitor)
    case EndLoop => s.(producer := Finished)
    case Fetch => Consume(s, GetSection(s.monitor, false))
    case Woken => Consume(s, GetSection(s.monitor, true))
    case TimeOut => Consume(s, GetSection(s.monitor, true))
    case EndSegment => s.(consumer := if s.segmentsPlayed < cfg.count then Steady else Stopped)
  }

  function Consume(s: State, result: (Monitor, GetOutcome)): State {
    match result.1
    case Got(segment) =>
      s.(monitor := result.0, consumer := Playing, segmentsPlayed := s.segmentsPlayed + 1,
         lastSegment := segment.id, played := s.played + [segment])
    case GetWaits => s.(monitor := result.0)
    case Nothing => s.(monitor := result.0, consumer := if s.consumer.Starting? then Starting else Stalled)
  }

  ghost predicate Feasible(cfg: Setup, s: State, steps: seq<Step>)
    decreases |steps|
  {
    steps == [] || (Enabled(cfg, s, steps[0]) && Feasible(cfg, Apply(cfg, s, steps[0]), steps[1..]))
  }

  ghost function End(cfg: Setup, s: State, steps: seq<Step>): State
    requires Feasible(cfg, s, steps)
    decreases |steps|
  {
    if steps == [] then s else End(cfg, Apply(cfg, s, steps[0]), steps[1..])
  }
}
