/** Which tasks the scheduler leaves pending, with their prices in seconds. */
module PendingTasks {
  import opened Tasks
  import opened Scheduler

  /** Tasks pushed in the first i rounds. */
  function PushedBefore(rounds: seq<Round>, i: nat): nat
    requires i <= |rounds|
  {
    if i == 0 then 0
    else (if rounds[0].lookahead < 0 then 0 else rounds[0].lookahead) + PushedBefore(rounds[1..], i - 1)
  }

  /**
   The price of a task a number of seconds ahead: while the buffer covers those seconds the deadline is
   when it has drained to them and both terms count against the level; beyond it the task is due now.
   */
  predicate PricedAt(cfg: Config, t: ScheduledTask, ahead: real, level: real, now: real) {
    if ahead <= level then
      && t.deadline == now + (level - ahead)
      && t.priority == (cfg.urgencyWeight + 1.0) * ahead - (cfg.bufferBonus + 1.0) * level
    else
      && t.deadline == now
      && t.priority == cfg.urgencyWeight * ahead - cfg.bufferBonus * level
  }

  /** The task is the one pushed in round i for the segment o places after the one asked for. */
  predicate PushedAt(cfg: Config, rounds: seq<Round>, sequence: nat, i: nat, o: nat, t: ScheduledTask)
    requires i < |rounds|
  {
    var r := rounds[i];
    && o < r.lookahead
    && t.segmentId == r.from + o
    && t.sequence == sequence + PushedBefore(rounds, i) + o
    && PricedAt(cfg, t, o as real * cfg.segmentDuration, r.level, r.now)
  }

  ghost predicate Pushed(cfg: Config, rounds: seq<Round>, sequence: nat, t: ScheduledTask) {
    exists i: nat, o: nat :: i < |rounds| && PushedAt(cfg, rounds, sequence, i, o, t)
  }

  lemma PriceInSeconds(cfg: Config, from: int, o: nat, level: real, now: real, sequence: nat, t: ScheduledTask)
    ensures t == TaskFor(cfg, from, o, level, now, sequence)
            <==> && t.segmentId == from + o && t.sequence == sequence
                 && PricedAt(cfg, t, o as real * cfg.segmentDuration, level, now)
  {
    var ahead := o as real * cfg.segmentDuration;
    assert (cfg.urgencyWeight + 1.0) * ahead == cfg.urgencyWeight * ahead + ahead;
    assert (cfg.bufferBonus + 1.0) * level == cfg.bufferBonus * level + level;
  }

  lemma {:induction false} DistinctCounted(batch: seq<ScheduledTask>, t: ScheduledTask)
    requires forall i, j :: 0 <= i < j < |batch| ==> batch[i] != batch[j]
    ensures multiset(batch)[t] == if t in batch then 1 else 0
    decreases |batch|
  {
    if batch != [] {
      var cut, last := batch[..|batch| - 1], batch[|batch| - 1];
      assert batch == cut + [last];
      DistinctCounted(cut, t);
    }
  }

  lemma BatchCounted(cfg: Config, r: Round, sequence: nat, t: ScheduledTask)
    ensures var batch := Batch(cfg, r.from, r.lookahead, r.level, r.now, sequence);
            && multiset(batch)[t] == (if t in batch then 1 else 0)
            && (t in batch <==> exists o: nat :: PushedAt(cfg, [r], sequence, 0, o, t))
            && (t in batch ==> sequence <= t.sequence < sequence + |batch|)
  {
    var batch := Batch(cfg, r.from, r.lookahead, r.level, r.now, sequence);
    forall i, j | 0 <= i < j < |batch| ensures batch[i] != batch[j] {
      assert batch[i].sequence == sequence + i && batch[j].sequence == sequence + j;
    }
    DistinctCounted(batch, t);
    if t in batch {
      var o: nat :| o < |batch| && batch[o] == t;
      PriceInSeconds(cfg, r.from, o, r.level, r.now, sequence + o, t);
      assert PushedAt(cfg, [r], sequence, 0, o, t);
    }
    if o: nat :| PushedAt(cfg, [r], sequence, 0, o, t) {
      PriceInSeconds(cfg, r.from, o, r.level, r.now, sequence + o, t);
      assert batch[o] == t;
    }
  }

  lemma PushedLater(cfg: Config, rounds: seq<Round>, sequence: nat, i: nat, o: nat, t: ScheduledTask)
    requires rounds != [] && i < |rounds|
    ensures PushedAt(cfg, rounds, sequence, i, o, t)
            == if i == 0 then PushedAt(cfg, [rounds[0]], sequence, 0, o, t)
               else PushedAt(cfg, rounds[1..], sequence + PushedBefore(rounds, 1), i - 1, o, t)
  {
    hide PricedAt;
    assert PushedBefore(rounds[1..], 0) == 0;
  }

  lemma PushedSplits(cfg: Config, rounds: seq<Round>, sequence: nat, t: ScheduledTask)
    requires rounds != []
    ensures Pushed(cfg, rounds, sequence, t)
            <==> (exists o: nat :: PushedAt(cfg, [rounds[0]], sequence, 0, o, t))
                 || Pushed(cfg, rounds[1..], sequence + PushedBefore(rounds, 1), t)
  {
    hide PushedAt;
    if i: nat, o: nat :| i < |rounds| && PushedAt(cfg, rounds, sequence, i, o, t) {
      PushedLater(cfg, rounds, sequence, i, o, t);
    }
    if o: nat :| PushedAt(cfg, [rounds[0]], sequence, 0, o, t) {
      PushedLater(cfg, rounds, sequence, 0, o, t);
    }
    var later, from := rounds[1..], sequence + PushedBefore(rounds, 1);
    if i: nat, o: nat :| i < |later| && PushedAt(cfg, later, from, i, o, t) {
      PushedLater(cfg, rounds, sequence, i + 1, o, t);
    }
  }

  /** Every push counts once, and nothing else does. */
  lemma {:induction false} PushesCounted(cfg: Config, rounds: seq<Round>, sequence: nat, t: ScheduledTask)
    ensures AllPushed(cfg, sequence, rounds)[t] == if Pushed(cfg, rounds, sequence, t) then 1 else 0
    ensures Pushed(cfg, rounds, sequence, t) ==> sequence <= t.sequence
    decreases |rounds|
  {
    if rounds != [] {
      hide PushedAt, Batch;
      var r := rounds[0];
      BatchCounted(cfg, r, sequence, t);
      assert PushedBefore(rounds[1..], 0) == 0;
      PushesCounted(cfg, rounds[1..], sequence + PushedBefore(rounds, 1), t);
      PushedSplits(cfg, rounds, sequence, t);
      BatchSize(cfg, r, sequence);
    }
  }

  lemma BatchSize(cfg: Config, r: Round, sequence: nat)
    ensures |Batch(cfg, r.from, r.lookahead, r.level, r.now, sequence)| == if r.lookahead < 0 then 0 else r.lookahead
  {
  }

  /**
   After rounds that ask for rising ids, only tasks pushed in them are pending, each at most once; and
   for every segment still to come all of them are.
   */
  lemma {:induction false} LeftPending(cfg: Config, rounds: seq<Round>, t: ScheduledTask)
    requires Sane(cfg) && Increasing(rounds)
    ensures var pending := Run(cfg, NOTHING_PENDING, rounds).1.tasks;
            && pending[t] <= (if Pushed(cfg, rounds, 0, t) then 1 else 0)
            && (rounds != [] && rounds[|rounds| - 1].from < t.segmentId ==>
                  pending[t] == if Pushed(cfg, rounds, 0, t) then 1 else 0)
  {
    hide Run, Pushed;
    var done := if rounds == [] then 0 else rounds[0].from - 1;
    FutureTasksKept(cfg, NOTHING_PENDING, rounds, done, t);
    PushesCounted(cfg, rounds, 0, t);
  }
}
