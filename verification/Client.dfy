/**
 The session's objects: the download loop with its scheduler and counters, and the playback thread's
 progress, sharing one buffer manager. Each method is one step of its thread, and does to the objects
 exactly what the step does to the session state.
 */
module Client {
  import opened Buffer
  import opened Session
  import opened SessionProofs
  import Scheduler

  class StreamingSession {
    const cfg: Setup
    const scheduler: Scheduler.DeadlineScheduler
    const buffer: BufferManager
    var producer: Producer
    var round: nat
    var currentIndex: int
    var switches: nat
    var consumer: Consumer
    var segmentsPlayed: nat
    var lastSegment: int
    ghost var requested: seq<int>
    ghost var chosen: seq<int>
    ghost var stored: seq<Segment>
    ghost var played: seq<Segment>

    /** The parts fit together and the session invariant holds. */
    ghost predicate Valid()
      reads this, scheduler, scheduler.queue, buffer
    {
      && scheduler.Valid() && scheduler.cfg == cfg.scheduler && buffer.maxSeconds == cfg.maxSeconds
      && Playable(cfg) && Inv(cfg, View())
    }

    ghost function View(): State
      reads this, scheduler, scheduler.queue, buffer
    {
      State(scheduler.View(), buffer.View(), producer, round, currentIndex, switches,
            consumer, segmentsPlayed, lastSegment, requested, chosen, stored, played)
    }

    constructor (cfg: Setup)
      requires Playable(cfg)
      ensures Valid() && this.cfg == cfg && View() == START
      ensures fresh(scheduler) && fresh(scheduler.queue) && fresh(buffer)
    {
      this.cfg := cfg;
      scheduler := new Scheduler.DeadlineScheduler(cfg.scheduler);
      buffer := new BufferManager(cfg.maxSeconds);
      producer, round, currentIndex, switches := Choosing, 0, 0, 0;
      consumer, segmentsPlayed, lastSegment := Starting, 0, 0;
      requested, chosen, stored, played := [], [], [], [];
      new;
      StartInv(cfg);
    }

    /** Start of an iteration: ask the scheduler for the next segment. */
    method BeginRound(now: real)
      requires Valid() && Enabled(cfg, View(), Schedule(now))
      modifies this, scheduler.queue
      ensures Valid() && View() == Apply(cfg, old(View()), Schedule(now))
      ensures requested == old(requested) + [round + 1] && producer == Downloading(round + 1)
    {
      hide Scheduler.NextId, Scheduler.AfterRound, Scheduler.Scheduled, Inv;
      StepInv(cfg, View(), Schedule(now));
      ScheduleEffect(cfg, View(), now);
      var id := scheduler.NextSegment(round + 1, LOOKAHEAD, buffer.level, now);
      producer := Downloading(id);
      requested := requested + [id];
    }

    /** The chosen representation has arrived; count a switch and build the segment to buffer. */
    method FinishDownload(index: int, reported: real)
      requires Valid() && Enabled(cfg, View(), Download(index, reported))
      modifies this
      ensures Valid() && View() == Apply(cfg, old(View()), Download(index, reported))
    {
      hide Inv;
      StepInv(cfg, View(), Download(index, reported));
      if index != currentIndex {
        switches := switches + 1;
        currentIndex := index;
      }
      producer := Putting(Segment(producer.id, if reported == 0.0 then 2.0 else reported));
      chosen := chosen + [index];
    }

    /** One attempt to store the segment; the iteration ends when there was room. */
    method TryPut()
      requires Valid() && Enabled(cfg, View(), Step.Put)
      modifies this, buffer
      ensures Valid() && View() == Apply(cfg, old(View()), Step.Put)
    {
      hide Inv;
      StepInv(cfg, View(), Step.Put);
      var outcome := buffer.Put(producer.segment, false);
      if outcome.Stored? {
        stored := stored + [producer.segment];
        producer := Choosing;
        round := round + 1;
      }
    }

    /** The loop has run through all its rounds. */
    method FinishLoop()
      requires Valid() && Enabled(cfg, View(), EndLoop)
      modifies this
      ensures Valid() && View() == Apply(cfg, old(View()), EndLoop)
      ensures |stored| == cfg.count
    {
      hide Inv;
      StepInv(cfg, View(), EndLoop);
      AllStored(cfg, View());
      producer := Finished;
    }

    /** One attempt of the playback thread to take a segment, fresh or after a wait. */
    method TryGet(waited: bool)
      requires Valid() && consumer.Fetching() && (waited <==> !buffer.notEmpty.Absent?)
      modifies this, buffer
      ensures Valid() && View() == Consume(old(View()), GetSection(old(View()).monitor, waited))
      ensures lastSegment == segmentsPlayed
    {
      hide Inv;
      ConsumeStep(cfg, View(), waited);
      CountersAgree(cfg, Consume(View(), GetSection(View().monitor, waited)));
      var outcome := buffer.Get(waited);
      match outcome
      case Got(segment) =>
        segmentsPlayed := segmentsPlayed + 1;
        lastSegment := segment.id;
        consumer := Playing;
        played := played + [segment];
      case GetWaits =>
      case Nothing =>
        if !consumer.Starting? {
          consumer := Stalled;
        }
    }

    /** The segment has been played out; stop after the last one. */
    method FinishSegment()
      requires Valid() && Enabled(cfg, View(), EndSegment)
      modifies this
      ensures Valid() && View() == Apply(cfg, old(View()), EndSegment)
    {
      hide Inv;
      StepInv(cfg, View(), EndSegment);
      consumer := if segmentsPlayed < cfg.count then Steady else Stopped;
    }
  }
}
