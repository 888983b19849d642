/**
 Playback-deadline scheduling on top of the task heap: what a round of pushes and pops does to
 the pending tasks, and why the session always gets the segment it asks for.
 */
module Scheduler {
  import opened Arithmetic
  import opened Wrappers
  import opened Tasks

  datatype Config = Config(segmentDuration: real, urgencyWeight: real, bufferBonus: real)

  /** Priority and slack of the segment `offset` places ahead at a buffer level. */
  function Price(cfg: Config, offset: nat, level: real): (real, real) {
    var ahead := offset as real * cfg.segmentDuration;
    var slack := Max(0.0, level - ahead);
    var urgency := cfg.urgencyWeight * ahead - slack;
    (urgency - cfg.bufferBonus * level, slack)
  }

  /** The task pushed for the segment `offset` places after `from`. */
  function TaskFor(cfg: Config, from: int, offset: nat, level: real, now: real, sequence: nat): ScheduledTask {
    var (priority, slack) := Price(cfg, offset, level);
    ScheduledTask(priority, now + slack, sequence, from + offset)
  }

  /** Everything one round pushes, nearest segment first; a count below one pushes nothing. */
  function Batch(cfg: Config, from: int, count: int, level: real, now: real, sequence: nat): (b: seq<ScheduledTask>)
    ensures |b| == if count < 0 then 0 else count
    ensures forall o :: 0 <= o < |b| ==> b[o] == TaskFor(cfg, from, o, level, now, sequence + o)
  {
    seq(if count < 0 then 0 else count, (o: nat) => TaskFor(cfg, from, o, level, now, sequence + o))
  }

  // ---------------------------------------------------------------- specification on multisets

  datatype Pending = Pending(tasks: multiset<ScheduledTask>, nextSequence: nat)

  const NOTHING_PENDING := Pending(multiset{}, 0)

  datatype Round = Round(from: int, lookahead: int, level: real, now: real)

  ghost function Scheduled(cfg: Config, p: Pending, r: Round): Pending {
    var batch := Batch(cfg, r.from, r.lookahead, r.level, r.now, p.nextSequence);
    Pending(p.tasks + multiset(batch), p.nextSequence + |batch|)
  }

  /** Pop until a task for `from` or later appears; report it together with what is left. */
  ghost function Drain(tasks: multiset<ScheduledTask>, from: int): (multiset<ScheduledTask>, Option<ScheduledTask>)
    decreases |tasks|
  {
    if tasks == multiset{} then
      (tasks, None)
    else
      var t := First(tasks);
      var rest := tasks - multiset{t};
      if t.segmentId < from then Drain(rest, from) else (rest, Some(t))
  }

  ghost function Picked(cfg: Config, p: Pending, r: Round): Option<ScheduledTask> {
    Drain(Scheduled(cfg, p, r).tasks, r.from).1
  }

  ghost function AfterRound(cfg: Config, p: Pending, r: Round): Pending {
    var pushed := Scheduled(cfg, p, r);
    Pending(Drain(pushed.tasks, r.from).0, pushed.nextSequence)
  }

  ghost function NextId(cfg: Config, p: Pending, r: Round): int {
    var picked := Picked(cfg, p, r);
    if picked.None? then r.from else picked.value.segmentId
  }

  /** The ids handed out by a whole run of rounds, and the tasks left at its end. */
  ghost function Run(cfg: Config, p: Pending, rounds: seq<Round>): (seq<int>, Pending)
    decreases |rounds|
  {
    if rounds == [] then
      ([], p)
    else
      var rest := Run(cfg, AfterRound(cfg, p, rounds[0]), rounds[1..]);
      ([NextId(cfg, p, rounds[0])] + rest.0, rest.1)
  }

  /** Every task pushed during the run. */
  ghost function AllPushed(cfg: Config, sequence: nat, rounds: seq<Round>): multiset<ScheduledTask>
    decreases |rounds|
  {
    if rounds == [] then
      multiset{}
    else
      var r := rounds[0];
      var batch := Batch(cfg, r.from, r.lookahead, r.level, r.now, sequence);
      multiset(batch) + AllPushed(cfg, sequence + |batch|, rounds[1..])
  }

  // ---------------------------------------------------------------- the scheduler object

  class DeadlineScheduler {
    const cfg: Config
    const queue: SegmentScheduler

    ghost predicate Valid()
      reads queue
    {
      queue.Valid()
    }

    ghost function View(): Pending
      reads queue
    {
      Pending(multiset(queue.heap), queue.nextSequence)
    }

    constructor (cfg: Config)
      ensures Valid() && fresh(queue) && this.cfg == cfg && View() == NOTHING_PENDING
    {
      this.cfg := cfg;
      queue := new SegmentScheduler();
    }

    /** Pushes one task per upcoming segment; `level` is the buffer level read on entry. */
    method ScheduleUpcoming(from: int, count: int, level: real, now: real)
      requires Valid()
      modifies queue
      ensures Valid()
      ensures View() == Scheduled(cfg, old(View()), Round(from, count, level, now))
    {
      hide Price, TaskFor, Batch, Ordered;
      ghost var start := View();
      ghost var batch := Batch(cfg, from, count, level, now, start.nextSequence);
      var offset := 0;
      while offset < count
        invariant 0 <= offset <= |batch|
        invariant Valid()
        invariant View().tasks == start.tasks + multiset(batch[..offset])
        invariant View().nextSequence == start.nextSequence + offset
      {
        var (priority, slack) := Price(cfg, offset, level);
        Priced(cfg, from, offset, level, now, start.nextSequence + offset);
        PrefixGrows(start.tasks, batch, offset);
        ghost var before := View().tasks;
        queue.Push(from + offset, priority, now + slack);
        assert View().tasks == before + multiset{batch[offset]};
        offset := offset + 1;
      }
      assert batch[..offset] == batch;
    }

    method NextSegment(from: int, lookahead: int, level: real, now: real) returns (id: int)
      requires Valid()
      modifies queue
      ensures Valid()
      ensures id == NextId(cfg, old(View()), Round(from, lookahead, level, now))
      ensures View() == AfterRound(cfg, old(View()), Round(from, lookahead, level, now))
    {
      hide Drain, First, IsFirst, Scheduled, Ordered;
      ScheduleUpcoming(from, lookahead, level, now);
      ghost var scheduled := View();
      var task := queue.Pop();
      PopAgrees(scheduled.tasks, task, View().tasks, from);
      while task.Some? && task.value.segmentId < from
        invariant Valid() && queue.nextSequence == scheduled.nextSequence
        invariant task.None? ==> Drain(scheduled.tasks, from) == (View().tasks, None)
        invariant task.Some? ==> Drain(scheduled.tasks, from)
                                 == if task.value.segmentId < from then Drain(View().tasks, from)
                                    else (View().tasks, task)
        decreases task.Some?, |queue.heap|
      {
        ghost var before := View().tasks;
        task := queue.Pop();
        PopAgrees(before, task, View().tasks, from);
      }
      return if task.None? then from else task.value.segmentId;
    }
  }

  lemma Priced(cfg: Config, from: int, offset: nat, level: real, now: real, sequence: nat)
    ensures TaskFor(cfg, from, offset, level, now, sequence)
         == ScheduledTask(Price(cfg, offset, level).0, now + Price(cfg, offset, level).1, sequence, from + offset)
  {
  }

  lemma PrefixGrows(tasks: multiset<ScheduledTask>, batch: seq<ScheduledTask>, n: nat)
    requires n < |batch|
    ensures tasks + multiset(batch[..n + 1]) == tasks + multiset(batch[..n]) + multiset{batch[n]}
  {
    assert batch[..n + 1] == batch[..n] + [batch[n]];
  }

  /** One pop is one step of draining: whatever minimum the heap yields is the one to be looked at. */
  lemma PopAgrees(before: multiset<ScheduledTask>, task: Option<ScheduledTask>, after: multiset<ScheduledTask>,
                  from: int)
    requires task.None? ==> before == after == multiset{}
    requires task.Some? ==> IsFirst(task.value, before) && after == before - multiset{task.value}
    ensures task.None? ==> Drain(before, from) == (after, None)
    ensures task.Some? ==> Drain(before, from)
                           == if task.value.segmentId < from then Drain(after, from) else (after, task)
  {
    if task.Some? {
      FirstIsUnique(task.value, First(before), before);
    }
  }

  // ---------------------------------------------------------------- in-order delivery

  predicate Sane(cfg: Config) {
    0.0 <= cfg.segmentDuration && 0.0 <= cfg.urgencyWeight
  }

  /**
   Whenever a task for a segment after `done` is pending, every segment between `done` and it
   has a pending task that comes before it.
   */
  ghost predicate Gapless(tasks: multiset<ScheduledTask>, done: int) {
    forall t, id :: t in tasks && done < id < t.segmentId ==> Precedes(tasks, id, t)
  }

  ghost predicate Precedes(tasks: multiset<ScheduledTask>, id: int, t: ScheduledTask) {
    exists u :: u in tasks && u.segmentId == id && Before(u, t)
  }

  /** Within one round, nearer segments come first whatever the buffer level. */
  lemma NearerFirst(cfg: Config, from: int, near: nat, far: nat, level: real, now: real, sequence: nat)
    requires Sane(cfg) && near < far
    ensures Before(TaskFor(cfg, from, near, level, now, sequence + near),
                   TaskFor(cfg, from, far, level, now, sequence + far))
  {
    var a, b := near as real * cfg.segmentDuration, far as real * cfg.segmentDuration;
    MulKeepsOrder(near as real, far as real, cfg.segmentDuration);
    MulKeepsOrder(a, b, cfg.urgencyWeight);
    assert cfg.urgencyWeight * a <= cfg.urgencyWeight * b;
  }

  lemma {:induction false} BatchKeepsGapless(cfg: Config, p: Pending, r: Round, done: int)
    requires Sane(cfg) && Gapless(p.tasks, done) && done < r.from
    ensures Gapless(Scheduled(cfg, p, r).tasks, r.from - 1)
  {
    var batch := Batch(cfg, r.from, r.lookahead, r.level, r.now, p.nextSequence);
    var all := Scheduled(cfg, p, r).tasks;
    forall t, id | t in all && r.from - 1 < id < t.segmentId ensures Precedes(all, id, t) {
      if t in p.tasks {
        assert Precedes(p.tasks, id, t);
        var u :| u in p.tasks && u.segmentId == id && Before(u, t);
        assert u in all;
      } else {
        assert t in batch;
        var far :| 0 <= far < |batch| && batch[far] == t;
        var near := id - r.from;
        NearerFirst(cfg, r.from, near, far, r.level, r.now, p.nextSequence);
        assert batch[near] in batch;
        assert batch[near] in all;
      }
    }
  }

  lemma GapBlocksFirst(tasks: multiset<ScheduledTask>, from: int, t: ScheduledTask)
    requires Gapless(tasks, from - 1) && t in tasks && from < t.segmentId
    ensures !IsFirst(t, tasks)
  {
    assert Precedes(tasks, from, t);
  }

  /** Draining a gapless heap hands out `from` itself, unless nothing from there on is pending. */
  lemma {:induction false} DrainInOrder(tasks: multiset<ScheduledTask>, from: int)
    requires Gapless(tasks, from - 1)
    ensures var (rest, picked) := Drain(tasks, from);
            && (picked.Some? ==> picked.value.segmentId == from)
            && (picked.None? <==> forall t :: t in tasks ==> t.segmentId < from)
            && Gapless(rest, from)
            && rest <= tasks
            && (forall t: ScheduledTask :: from < t.segmentId ==> rest[t] == tasks[t])
    decreases |tasks|
  {
    if tasks != multiset{} {
      var t := First(tasks);
      var rest := tasks - multiset{t};
      if t.segmentId < from {
        forall v, id | v in rest && from - 1 < id < v.segmentId ensures Precedes(rest, id, v) {
          assert Precedes(tasks, id, v);
        }
        DrainInOrder(rest, from);
        assert forall u :: u in tasks ==> u in rest || u == t;
      } else {
        if from < t.segmentId {
          GapBlocksFirst(tasks, from, t);
        }
        forall v, id | v in rest && from < id < v.segmentId ensures Precedes(rest, id, v) {
          assert Precedes(tasks, id, v);
        }
      }
    }
  }

  /**
   In-order theorem for one round: whatever the level, the lookahead and the tasks left over from
   earlier rounds, a round asking for a later segment than before gets exactly that segment.
   */
  lemma {:induction false} RoundInOrder(cfg: Config, p: Pending, r: Round, done: int)
    requires Sane(cfg) && Gapless(p.tasks, done) && done < r.from
    ensures NextId(cfg, p, r) == r.from
    ensures Gapless(AfterRound(cfg, p, r).tasks, r.from)
    ensures 1 <= r.lookahead ==> Picked(cfg, p, r).Some?
    ensures AfterRound(cfg, p, r).tasks <= Scheduled(cfg, p, r).tasks
    ensures forall t: ScheduledTask :: r.from < t.segmentId ==>
              AfterRound(cfg, p, r).tasks[t] == Scheduled(cfg, p, r).tasks[t]
  {
    BatchKeepsGapless(cfg, p, r, done);
    var all := Scheduled(cfg, p, r).tasks;
    DrainInOrder(all, r.from);
    if 1 <= r.lookahead {
      var batch := Batch(cfg, r.from, r.lookahead, r.level, r.now, p.nextSequence);
      assert batch[0] in batch;
      assert batch[0] in all && batch[0].segmentId == r.from;
    }
  }

  ghost predicate Increasing(rounds: seq<Round>) {
    forall i, j :: 0 <= i < j < |rounds| ==> rounds[i].from < rounds[j].from
  }

  function Requested(rounds: seq<Round>): (ids: seq<int>)
    ensures |ids| == |rounds|
  {
    seq(|rounds|, i requires 0 <= i < |rounds| => rounds[i].from)
  }

  lemma RunUnfolds(cfg: Config, p: Pending, rounds: seq<Round>)
    requires rounds != []
    ensures var rest := Run(cfg, AfterRound(cfg, p, rounds[0]), rounds[1..]);
            Run(cfg, p, rounds) == ([NextId(cfg, p, rounds[0])] + rest.0, rest.1)
  {
    hide NextId, AfterRound;
  }

  lemma RequestsUnfold(rounds: seq<Round>)
    requires Increasing(rounds) && rounds != []
    ensures Requested(rounds) == [rounds[0].from] + Requested(rounds[1..])
    ensures Increasing(rounds[1..])
    ensures 1 < |rounds| ==> rounds[0].from < rounds[1..][0].from
    ensures 1 < |rounds| ==> rounds[1..][|rounds| - 2] == rounds[|rounds| - 1]
  {
  }

  /** A run is in order as long as each round asks for a later segment than the one before. */
  lemma {:induction false} RunInOrderFrom(cfg: Config, p: Pending, rounds: seq<Round>, done: int)
    requires Sane(cfg) && Gapless(p.tasks, done) && Increasing(rounds)
    requires rounds != [] ==> done < rounds[0].from
    ensures Run(cfg, p, rounds).0 == Requested(rounds)
    ensures Gapless(Run(cfg, p, rounds).1.tasks, if rounds == [] then done else rounds[|rounds| - 1].from)
    decreases |rounds|
  {
    if rounds != [] {
      RunUnfolds(cfg, p, rounds);
      RequestsUnfold(rounds);
      hide Run, NextId, AfterRound, Gapless, Scheduled, Increasing, Requested;
      RoundInOrder(cfg, p, rounds[0], done);
      RunInOrderFrom(cfg, AfterRound(cfg, p, rounds[0]), rounds[1..], rounds[0].from);
    }
  }

  lemma {:induction false} RunInOrder(cfg: Config, rounds: seq<Round>)
    requires Sane(cfg) && Increasing(rounds)
    ensures Run(cfg, NOTHING_PENDING, rounds).0 == Requested(rounds)
  {
    var done := if rounds == [] then 0 else rounds[0].from - 1;
    RunInOrderFrom(cfg, NOTHING_PENDING, rounds, done);
  }

  /** How often a task is among the pending ones after one round. */
  lemma {:induction false} RoundKeeps(cfg: Config, p: Pending, r: Round, done: int, t: ScheduledTask)
    requires Sane(cfg) && Gapless(p.tasks, done) && done < r.from
    ensures var available := p.tasks[t] + multiset(Batch(cfg, r.from, r.lookahead, r.level, r.now, p.nextSequence))[t];
            && AfterRound(cfg, p, r).tasks[t] <= available
            && (r.from < t.segmentId ==> AfterRound(cfg, p, r).tasks[t] == available)
  {
    RoundInOrder(cfg, p, r, done);
  }

  lemma PushedStep(cfg: Config, p: Pending, rounds: seq<Round>, t: ScheduledTask)
    requires rounds != []
    ensures var r := rounds[0];
            && AllPushed(cfg, p.nextSequence, rounds)[t]
               == multiset(Batch(cfg, r.from, r.lookahead, r.level, r.now, p.nextSequence))[t]
                  + AllPushed(cfg, AfterRound(cfg, p, r).nextSequence, rounds[1..])[t]
  {
    hide Batch, Drain, NextId;
  }

  /** Nothing pushed for a segment still to come is ever lost: only tasks up to the last id are consumed. */
  lemma {:induction false} FutureTasksKept(cfg: Config, p: Pending, rounds: seq<Round>, done: int, t: ScheduledTask)
    requires Sane(cfg) && Gapless(p.tasks, done) && Increasing(rounds)
    requires rounds != [] ==> done < rounds[0].from
    ensures Run(cfg, p, rounds).1.tasks[t] <= p.tasks[t] + AllPushed(cfg, p.nextSequence, rounds)[t]
    ensures (rounds == [] || rounds[|rounds| - 1].from < t.segmentId) ==>
              Run(cfg, p, rounds).1.tasks[t] == p.tasks[t] + AllPushed(cfg, p.nextSequence, rounds)[t]
    decreases |rounds|
  {
    if rounds != [] {
      var r, rest := rounds[0], rounds[1..];
      RoundInOrder(cfg, p, r, done);
      RoundKeeps(cfg, p, r, done, t);
      PushedStep(cfg, p, rounds, t);
      RunUnfolds(cfg, p, rounds);
      hide Run, AllPushed, Batch, AfterRound, Scheduled, Gapless;
      var next := AfterRound(cfg, p, r);
      FutureTasksKept(cfg, next, rest, r.from, t);
      assert rest != [] ==> rest[|rest| - 1] == rounds[|rounds| - 1] && r.from < rest[|rest| - 1].from;
    }
  }

  lemma {:induction false} DrainShrinks(tasks: multiset<ScheduledTask>, from: int)
    ensures |Drain(tasks, from).0| <= |tasks|
    ensures tasks != multiset{} ==> |Drain(tasks, from).0| < |tasks|
    decreases |tasks|
  {
    if tasks != multiset{} {
      var t := First(tasks);
      if t.segmentId < from {
        DrainShrinks(tasks - multiset{t}, from);
      }
    }
  }

  lemma {:induction false} RoundGrowth(cfg: Config, p: Pending, r: Round)
    requires 1 <= r.lookahead
    ensures |AfterRound(cfg, p, r).tasks| < |p.tasks| + r.lookahead
  {
    var batch := Batch(cfg, r.from, r.lookahead, r.level, r.now, p.nextSequence);
    assert |multiset(batch)| == |batch|;
    assert |Scheduled(cfg, p, r).tasks| == |p.tasks| + |batch|;
    DrainShrinks(Scheduled(cfg, p, r).tasks, r.from);
  }

  function Grown(lookahead: nat, rounds: nat): int { (lookahead - 1) * rounds }

  lemma GrownOneMore(lookahead: nat, rounds: nat)
    ensures Grown(lookahead, rounds + 1) == Grown(lookahead, rounds) + lookahead - 1
  {
  }

  /** With a fixed lookahead L the heap grows by at most L - 1 tasks a round. */
  lemma {:induction false} HeapGrowth(cfg: Config, p: Pending, rounds: seq<Round>, lookahead: nat)
    requires 1 <= lookahead && forall i :: 0 <= i < |rounds| ==> rounds[i].lookahead == lookahead
    ensures |Run(cfg, p, rounds).1.tasks| <= |p.tasks| + Grown(lookahead, |rounds|)
    decreases |rounds|
  {
    if rounds == [] {
      assert Grown(lookahead, 0) == 0;
    } else {
      RunUnfolds(cfg, p, rounds);
      hide AfterRound, Run, Grown;
      var next, rest := AfterRound(cfg, p, rounds[0]), rounds[1..];
      RoundGrowth(cfg, p, rounds[0]);
      HeapGrowth(cfg, next, rest, lookahead);
      GrownOneMore(lookahead, |rest|);
    }
  }
}
