/** When the scheduler does not hand out what it is asked for: repeated or falling ids, and tasks pushed ahead. */
module Reordering {
  import opened Arithmetic
  import opened Wrappers
  import opened Tasks
  import opened Scheduler

  /** The rounds ask for these ids with this lookahead, at any buffer levels and times. */
  ghost predicate Asks(rounds: seq<Round>, ids: seq<int>, lookahead: int) {
    && |rounds| == |ids|
    && forall i :: 0 <= i < |ids| ==> rounds[i].from == ids[i] && rounds[i].lookahead == lookahead
  }

  ghost predicate Answers(cfg: Config, rounds: seq<Round>, ids: seq<int>) {
    Run(cfg, NOTHING_PENDING, rounds).0 == ids
  }

  ghost predicate Rises(ids: seq<int>) {
    forall i, j :: 0 <= i < j < |ids| ==> ids[i] < ids[j]
  }

  // ---------------------------------------------------------------- a lookahead of one

  lemma DrainFirst(tasks: multiset<ScheduledTask>, from: int, t: ScheduledTask)
    requires IsFirst(t, tasks) && from <= t.segmentId
    ensures Drain(tasks, from) == (tasks - multiset{t}, Some(t))
  {
    FirstIsUnique(t, First(tasks), tasks);
  }

  /** With at most one task pushed a round, nothing is left pending and the answer is the id asked for. */
  lemma ShortRound(cfg: Config, p: Pending, r: Round)
    requires p.tasks == multiset{} && r.lookahead <= 1
    ensures NextId(cfg, p, r) == r.from && AfterRound(cfg, p, r).tasks == multiset{}
  {
    var batch := Batch(cfg, r.from, r.lookahead, r.level, r.now, p.nextSequence);
    if r.lookahead == 1 {
      assert batch == [batch[0]];
      assert Scheduled(cfg, p, r).tasks == multiset{batch[0]};
      DrainFirst(multiset{batch[0]}, r.from, batch[0]);
    } else {
      assert batch == [];
    }
  }

  lemma {:induction false} ShortRun(cfg: Config, p: Pending, rounds: seq<Round>)
    requires p.tasks == multiset{} && forall i :: 0 <= i < |rounds| ==> rounds[i].lookahead <= 1
    ensures Run(cfg, p, rounds).0 == Requested(rounds)
    decreases |rounds|
  {
    if rounds != [] {
      RunUnfolds(cfg, p, rounds);
      hide Run, NextId, AfterRound;
      ShortRound(cfg, p, rounds[0]);
      ShortRun(cfg, AfterRound(cfg, p, rounds[0]), rounds[1..]);
      assert Requested(rounds) == [rounds[0].from] + Requested(rounds[1..]);
    }
  }

  // ---------------------------------------------------------------- a deep buffer, then an empty one

  /** Tasks as an empty buffer prices them: none below zero. */
  ghost predicate Calm(tasks: multiset<ScheduledTask>) {
    forall t :: t in tasks ==> 0.0 <= t.priority
  }

  lemma ShallowPrice(cfg: Config, offset: nat)
    requires Sane(cfg)
    ensures 0.0 <= Price(cfg, offset, 0.0).0
  {
    NonNegative(offset as real, cfg.segmentDuration);
    NonNegative(cfg.urgencyWeight, offset as real * cfg.segmentDuration);
    assert cfg.bufferBonus * 0.0 == 0.0;
  }

  /** A level at which even the task for the next segment is priced below zero. */
  function DeepLevel(cfg: Config): real { (cfg.urgencyWeight + 1.0) * cfg.segmentDuration + 1.0 }

  lemma DeepPrice(cfg: Config)
    requires Sane(cfg) && 0.0 <= cfg.bufferBonus
    ensures Price(cfg, 1, DeepLevel(cfg)).0 < 0.0
  {
    var d, w := cfg.segmentDuration, cfg.urgencyWeight;
    assert 1 as real * d == d;
    NonNegative(w, d);
    assert (w + 1.0) * d == w * d + d;
    NonNegative(cfg.bufferBonus, DeepLevel(cfg));
  }

  lemma {:induction false} DrainTakes(tasks: multiset<ScheduledTask>, from: int)
    ensures Drain(tasks, from).0 <= tasks
    decreases |tasks|
  {
    if tasks != multiset{} {
      var t := First(tasks);
      if t.segmentId < from {
        DrainTakes(tasks - multiset{t}, from);
      }
    }
  }

  lemma ShallowScheduled(cfg: Config, p: Pending, r: Round, t: ScheduledTask)
    requires Sane(cfg) && r.level == 0.0 && t in Scheduled(cfg, p, r).tasks
    ensures t in p.tasks || 0.0 <= t.priority
  {
    var batch := Batch(cfg, r.from, r.lookahead, r.level, r.now, p.nextSequence);
    if t in batch {
      var o :| 0 <= o < |batch| && batch[o] == t;
      ShallowPrice(cfg, o);
    }
  }

  lemma ShallowRoundIsCalm(cfg: Config, p: Pending, r: Round)
    requires Sane(cfg) && r.level == 0.0 && Calm(p.tasks)
    ensures Calm(AfterRound(cfg, p, r).tasks)
  {
    DrainTakes(Scheduled(cfg, p, r).tasks, r.from);
    forall t | t in AfterRound(cfg, p, r).tasks ensures 0.0 <= t.priority {
      ShallowScheduled(cfg, p, r, t);
    }
  }

  /** After a round on a deep buffer the first task pending is the one for the next segment, priced below zero. */
  lemma DeepRound(cfg: Config, p: Pending, r: Round)
    requires Sane(cfg) && 0.0 <= cfg.bufferBonus && Calm(p.tasks)
    requires r.level == DeepLevel(cfg) && 2 <= r.lookahead
    ensures exists t :: IsFirst(t, AfterRound(cfg, p, r).tasks) && t.segmentId == r.from + 1 && t.priority < 0.0
  {
    var batch := Batch(cfg, r.from, r.lookahead, r.level, r.now, p.nextSequence);
    var all := Scheduled(cfg, p, r).tasks;
    DeepPrice(cfg);
    FirstOfBatch(cfg, p, r, batch, 0);
    FirstOfBatch(cfg, p, r, batch, 1);
    hide Price, Batch, Before, Drain;
    assert batch[0..] == batch;
    DrainFirst(all, r.from, batch[0]);
    WithoutHead(p.tasks, batch);
    assert IsFirst(batch[1], all - multiset{batch[0]});
  }

  lemma WithoutHead(tasks: multiset<ScheduledTask>, batch: seq<ScheduledTask>)
    requires 2 <= |batch|
    ensures tasks + multiset(batch) - multiset{batch[0]} == tasks + multiset(batch[1..])
    ensures batch[0] in multiset(batch) && batch[1] in multiset(batch[1..])
  {
    assert batch == [batch[0]] + batch[1..];
    assert batch[1..][0] == batch[1];
  }

  /** From some place on, a batch comes before whatever is calm. */
  lemma FirstOfBatch(cfg: Config, p: Pending, r: Round, batch: seq<ScheduledTask>, near: nat)
    requires Sane(cfg) && Calm(p.tasks) && near <= 1 < r.lookahead && Price(cfg, 1, r.level).0 < 0.0
    requires batch == Batch(cfg, r.from, r.lookahead, r.level, r.now, p.nextSequence)
    ensures batch[near].segmentId == r.from + near && batch[near].priority < 0.0
    ensures forall t :: t in p.tasks + multiset(batch[near..]) ==> !Before(t, batch[near])
  {
    hide Price;
    NearerFirst(cfg, r.from, 0, 1, r.level, r.now, p.nextSequence);
    assert batch[1].priority == Price(cfg, 1, r.level).0;
    assert batch[near].priority < 0.0;
    forall t | t in p.tasks + multiset(batch[near..]) ensures !Before(t, batch[near]) {
      if t in batch[near..] {
        var k :| 0 <= k < |batch[near..]| && batch[near..][k] == t;
        if 0 < k {
          NearerFirst(cfg, r.from, near, near + k, r.level, r.now, p.nextSequence);
        }
      }
    }
  }

  /** A task priced below zero is handed out by a round on an empty buffer, unless it is stale. */
  lemma ShallowRoundYields(cfg: Config, p: Pending, r: Round, t: ScheduledTask)
    requires Sane(cfg) && r.level == 0.0 && IsFirst(t, p.tasks) && t.priority < 0.0 && r.from <= t.segmentId
    ensures NextId(cfg, p, r) == t.segmentId
  {
    var all := Scheduled(cfg, p, r).tasks;
    forall u | u in all ensures !Before(u, t) {
      ShallowScheduled(cfg, p, r, u);
    }
    assert t in all;
    DrainFirst(all, r.from, t);
  }

  /** Buffer empty throughout, but deep in the round before the descent. */
  function Tipped(cfg: Config, ids: seq<int>, lookahead: int, at: int): (rounds: seq<Round>)
    ensures |rounds| == |ids|
    ensures forall i :: 0 <= i < |ids| ==>
              rounds[i] == Round(ids[i], lookahead, if i == at then DeepLevel(cfg) else 0.0, 0.0)
  {
    seq(|ids|, i requires 0 <= i < |ids| => Round(ids[i], lookahead, if i == at then DeepLevel(cfg) else 0.0, 0.0))
  }

  lemma {:induction false} RunLength(cfg: Config, p: Pending, rounds: seq<Round>)
    ensures |Run(cfg, p, rounds).0| == |rounds|
    decreases |rounds|
  {
    if rounds != [] {
      RunLength(cfg, AfterRound(cfg, p, rounds[0]), rounds[1..]);
    }
  }

  lemma TippedTail(cfg: Config, ids: seq<int>, lookahead: int, at: int)
    requires ids != []
    ensures Tipped(cfg, ids, lookahead, at)[1..] == Tipped(cfg, ids[1..], lookahead, at - 1)
  {
    hide DeepLevel;
  }

  /** The round after a descent gets the successor of the id before it. */
  lemma {:induction false} DescentSkips(cfg: Config, p: Pending, ids: seq<int>, lookahead: int, at: nat)
    requires Sane(cfg) && 0.0 <= cfg.bufferBonus && 2 <= lookahead && Calm(p.tasks)
    requires at + 1 < |ids| && ids[at + 1] <= ids[at]
    ensures |Run(cfg, p, Tipped(cfg, ids, lookahead, at)).0| == |ids|
    ensures Run(cfg, p, Tipped(cfg, ids, lookahead, at)).0[at + 1] == ids[at] + 1
    decreases at
  {
    var rounds := Tipped(cfg, ids, lookahead, at);
    var next := AfterRound(cfg, p, rounds[0]);
    TippedTail(cfg, ids, lookahead, at);
    RunLength(cfg, p, rounds);
    RunUnfolds(cfg, p, rounds);
    hide Run, NextId, AfterRound, Tipped, Calm, IsFirst, DeepLevel;
    if at == 0 {
      DeepRound(cfg, p, rounds[0]);
      var t :| IsFirst(t, next.tasks) && t.segmentId == ids[0] + 1 && t.priority < 0.0;
      ShallowRoundYields(cfg, next, rounds[1], t);
      RunUnfolds(cfg, next, rounds[1..]);
      assert rounds[1..][0] == rounds[1];
    } else {
      ShallowRoundIsCalm(cfg, p, rounds[0]);
      DescentSkips(cfg, next, ids[1..], lookahead, at - 1);
    }
  }

  // ---------------------------------------------------------------- exactly when

  lemma {:induction false} FirstDescent(ids: seq<int>) returns (at: nat)
    requires !Rises(ids)
    ensures at + 1 < |ids| && ids[at + 1] <= ids[at]
    decreases |ids|
  {
    if Rises(ids[..|ids| - 1]) {
      at := |ids| - 2;
      var i, j :| 0 <= i < j < |ids| && ids[j] <= ids[i];
      assert ids[..|ids| - 1][i] == ids[i];
      assert i < at ==> ids[..|ids| - 1][i] < ids[..|ids| - 1][at];
    } else {
      at := FirstDescent(ids[..|ids| - 1]);
    }
  }

  /**
   Whatever the buffer levels and the clock, the ids asked for are the ids returned, exactly when they
   rise or the lookahead is at most one.
   */
  lemma InOrderExactly(cfg: Config, ids: seq<int>, lookahead: int)
    requires Sane(cfg) && 0.0 <= cfg.bufferBonus
    ensures (forall rounds :: Asks(rounds, ids, lookahead) ==> Answers(cfg, rounds, ids))
            <==> lookahead <= 1 || Rises(ids)
  {
    if lookahead <= 1 || Rises(ids) {
      forall rounds | Asks(rounds, ids, lookahead) ensures Answers(cfg, rounds, ids) {
        assert Requested(rounds) == ids;
        if lookahead <= 1 {
          ShortRun(cfg, NOTHING_PENDING, rounds);
        } else {
          RunInOrder(cfg, rounds);
        }
      }
    } else {
      var at := FirstDescent(ids);
      var rounds := Tipped(cfg, ids, lookahead, at);
      DescentSkips(cfg, NOTHING_PENDING, ids, lookahead, at);
      assert Asks(rounds, ids, lookahead) && !Answers(cfg, rounds, ids);
    }
  }
}
