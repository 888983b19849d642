/** The ordering of scheduled tasks and the binary heap that keeps them. */
module Tasks {
  import opened Wrappers

  datatype ScheduledTask = ScheduledTask(priority: real, deadline: real, sequence: nat, segmentId: int)

  /** Field-by-field comparison, as generated for an ordered dataclass. */
  predicate Before(a: ScheduledTask, b: ScheduledTask) {
    || a.priority < b.priority
    || (a.priority == b.priority
        && (|| a.deadline < b.deadline
            || (a.deadline == b.deadline
                && (|| a.sequence < b.sequence
                    || (a.sequence == b.sequence && a.segmentId < b.segmentId)))))
  }

  ghost predicate IsFirst(t: ScheduledTask, tasks: multiset<ScheduledTask>) {
    t in tasks && forall u :: u in tasks ==> !Before(u, t)
  }

  lemma {:induction false} FirstExists(tasks: multiset<ScheduledTask>)
    requires tasks != multiset{}
    ensures exists t :: IsFirst(t, tasks)
    decreases |tasks|
  {
    var t :| t in tasks;
    var rest := tasks - multiset{t};
    if rest == multiset{} {
      assert forall u :: u in tasks ==> u in rest || u == t;
      assert IsFirst(t, tasks);
    } else {
      FirstExists(rest);
      var v :| IsFirst(v, rest);
      assert forall u :: u in tasks ==> u in rest || u == t;
      assert IsFirst(if Before(t, v) then t else v, tasks);
    }
  }

  /** Task order is total, so the first task does not depend on how the heap is laid out. */
  lemma FirstIsUnique(t: ScheduledTask, u: ScheduledTask, tasks: multiset<ScheduledTask>)
    requires IsFirst(t, tasks) && IsFirst(u, tasks)
    ensures t == u
  {
    assert !Before(t, u) && !Before(u, t);
  }

  ghost function First(tasks: multiset<ScheduledTask>): (t: ScheduledTask)
    requires tasks != multiset{}
    ensures IsFirst(t, tasks)
  {
    FirstExists(tasks);
    var t :| IsFirst(t, tasks);
    t
  }

  // ---------------------------------------------------------------- heap layout

  function Parent(i: nat): nat
    requires 0 < i
  {
    (i - 1) / 2
  }

  ghost predicate Ordered(s: seq<ScheduledTask>) {
    forall i :: 0 < i < |s| ==> !Before(s[i], s[Parent(i)])
  }

  /** Heap order, except that the task at pos may be before its parent. */
  ghost predicate OrderedAbove(s: seq<ScheduledTask>, pos: nat) {
    && (forall i :: 0 < i < |s| && i != pos ==> !Before(s[i], s[Parent(i)]))
    && (forall i :: 0 < i < |s| && Parent(i) == pos && 0 < pos < |s| ==> !Before(s[i], s[Parent(pos)]))
  }

  /** Heap order, except that the children of pos may be before it. */
  ghost predicate OrderedBelow(s: seq<ScheduledTask>, pos: nat) {
    && (forall i :: 0 < i < |s| && Parent(i) != pos ==> !Before(s[i], s[Parent(i)]))
    && (forall i :: 0 < i < |s| && Parent(i) == pos && 0 < pos < |s| ==> !Before(s[i], s[Parent(pos)]))
  }

  lemma {:induction false} RootBeatsEveryNode(s: seq<ScheduledTask>, i: nat)
    requires Ordered(s) && i < |s|
    ensures !Before(s[i], s[0])
    decreases i
  {
    if i != 0 {
      RootBeatsEveryNode(s, Parent(i));
    }
  }

  lemma RootIsFirst(s: seq<ScheduledTask>)
    requires Ordered(s) && s != []
    ensures IsFirst(s[0], multiset(s))
  {
    forall u | u in multiset(s) ensures !Before(u, s[0]) {
      assert u in s;
      var i :| 0 <= i < |s| && s[i] == u;
      RootBeatsEveryNode(s, i);
    }
    assert s[0] in s;
  }

  /** The root has the least priority; the earliest deadline of those; the first pushed, of those. */
  lemma RootIsLeast(s: seq<ScheduledTask>, u: ScheduledTask)
    requires Ordered(s) && u in s
    ensures var root := s[0];
            && root.priority <= u.priority
            && (root.priority == u.priority ==> root.deadline <= u.deadline)
            && (root.priority == u.priority && root.deadline == u.deadline ==> root.sequence <= u.sequence)
            && (root.priority == u.priority && root.deadline == u.deadline && root.sequence == u.sequence ==>
                  root.segmentId <= u.segmentId)
  {
    RootIsFirst(s);
    assert u in multiset(s);
  }

  function Swap(s: seq<ScheduledTask>, i: nat, j: nat): (r: seq<ScheduledTask>)
    requires i < |s| && j < |s|
    ensures |r| == |s| && multiset(r) == multiset(s)
    ensures r[i] == s[j] && r[j] == s[i]
    ensures forall k :: 0 <= k < |s| && k != i && k != j ==> r[k] == s[k]
  {
    s[i := s[j]][j := s[i]]
  }

  lemma SwapUp(s: seq<ScheduledTask>, pos: nat)
    requires 0 < pos < |s| && OrderedAbove(s, pos) && Before(s[pos], s[Parent(pos)])
    ensures OrderedAbove(Swap(s, pos, Parent(pos)), Parent(pos))
  {
    var up := Parent(pos);
    var r := Swap(s, pos, up);
    forall i | 0 < i < |r| && i != up ensures !Before(r[i], r[Parent(i)]) {
      assert !Before(s[i], s[Parent(i)]) || i == pos;
    }
    forall i | 0 < i < |r| && Parent(i) == up && 0 < up ensures !Before(r[i], r[Parent(up)]) {
      assert !Before(s[up], s[Parent(up)]);
      assert !Before(s[i], s[Parent(i)]) || i == pos;
    }
  }

  lemma SwapDown(s: seq<ScheduledTask>, pos: nat, child: nat)
    requires pos < child < |s| && Parent(child) == pos && OrderedBelow(s, pos)
    requires Before(s[child], s[pos])
    requires forall i :: 0 < i < |s| && Parent(i) == pos ==> !Before(s[i], s[child])
    ensures OrderedBelow(Swap(s, pos, child), child)
  {
    var r := Swap(s, pos, child);
    forall i | 0 < i < |r| && Parent(i) != child ensures !Before(r[i], r[Parent(i)]) {
      if i == pos {
        assert !Before(s[child], s[Parent(pos)]);
      } else if Parent(i) == pos {
        assert !Before(s[i], s[child]);
      } else {
        assert !Before(s[i], s[Parent(i)]);
      }
    }
    forall i | 0 < i < |r| && Parent(i) == child ensures !Before(r[i], r[Parent(child)]) {
      assert !Before(s[i], s[child]);
    }
  }

  lemma SettledUp(s: seq<ScheduledTask>, pos: nat)
    requires pos < |s| && OrderedAbove(s, pos) && (pos == 0 || !Before(s[pos], s[Parent(pos)]))
    ensures Ordered(s)
  {
  }

  lemma SettledDown(s: seq<ScheduledTask>, pos: nat)
    requires pos < |s| && OrderedBelow(s, pos)
    requires forall i :: 0 < i < |s| && Parent(i) == pos ==> !Before(s[i], s[pos])
    ensures Ordered(s)
  {
  }

  /** The child that moves up when the task at pos sinks: the left one only when it is strictly before the right. */
  function FirstChild(s: seq<ScheduledTask>, pos: nat): (child: nat)
    requires 2 * pos + 1 < |s|
    ensures pos < child < |s| && Parent(child) == pos
    ensures forall i :: 0 < i < |s| && Parent(i) == pos ==> !Before(s[i], s[child])
  {
    var left := 2 * pos + 1;
    assert forall i :: 0 < i < |s| && Parent(i) == pos ==> i == left || i == left + 1;
    if left + 1 < |s| && !Before(s[left], s[left + 1]) then left + 1 else left
  }

  /** A min-heap of tasks; the lock around each operation makes it atomic. */
  class SegmentScheduler {
    var heap: seq<ScheduledTask>
    var nextSequence: nat

    ghost predicate Valid()
      reads this
    {
      Ordered(heap)
    }

    constructor ()
      ensures Valid() && heap == [] && nextSequence == 0
    {
      heap, nextSequence := [], 0;
    }

    method Push(segmentId: int, priority: real, deadline: real)
      requires Valid()
      modifies this
      ensures Valid()
      ensures multiset(heap) == old(multiset(heap))
                                + multiset{ScheduledTask(priority, deadline, old(nextSequence), segmentId)}
      ensures nextSequence == old(nextSequence) + 1
    {
      var task := ScheduledTask(priority, deadline, nextSequence, segmentId);
      nextSequence := nextSequence + 1;
      heap := heap + [task];
      var pos := |heap| - 1;
      while pos > 0 && Before(heap[pos], heap[Parent(pos)])
        invariant 0 <= pos < |heap|
        invariant OrderedAbove(heap, pos)
        invariant multiset(heap) == old(multiset(heap)) + multiset{task}
        invariant nextSequence == old(nextSequence) + 1
        decreases pos
      {
        SwapUp(heap, pos);
        heap := Swap(heap, pos, Parent(pos));
        pos := Parent(pos);
      }
      SettledUp(heap, pos);
    }

    method Pop() returns (task: Option<ScheduledTask>)
      requires Valid()
      modifies this
      ensures Valid() && nextSequence == old(nextSequence)
      ensures task.None? <==> old(heap) == []
      ensures |heap| == |old(heap)| - (if task.Some? then 1 else 0)
      ensures task.Some? ==> && IsFirst(task.value, old(multiset(heap)))
                             && multiset(heap) == old(multiset(heap)) - multiset{task.value}
    {
      if heap == [] {
        return None;
      }
      RootIsFirst(heap);
      var root := heap[0];
      var last := heap[|heap| - 1];
      ghost var before := heap;
      heap := heap[..|heap| - 1];
      assert before == heap + [last];
      if heap != [] {
        heap := heap[0 := last];
        SiftDown();
      }
      return Some(root);
    }

    method SiftDown()
      requires heap != [] && OrderedBelow(heap, 0)
      modifies this`heap
      ensures Ordered(heap) && multiset(heap) == old(multiset(heap)) && |heap| == |old(heap)|
    {
      var pos := 0;
      while 2 * pos + 1 < |heap|
        invariant 0 <= pos < |heap|
        invariant OrderedBelow(heap, pos)
        invariant multiset(heap) == old(multiset(heap)) && |heap| == |old(heap)|
        decreases |heap| - pos
      {
        var child := FirstChild(heap, pos);
        if !Before(heap[child], heap[pos]) {
          break;
        }
        SwapDown(heap, pos, child);
        heap := Swap(heap, pos, child);
        pos := child;
      }
      SettledDown(heap, pos);
    }
  }
}
