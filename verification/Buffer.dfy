/**
 The bounded playback buffer. Each function below is one critical section, from acquiring the lock
 to releasing it or to waiting; waiting threads are recorded in the two conditions.
 */
module Buffer {
  datatype Segment = Segment(id: int, duration: real)

  /** A condition variable with at most one waiting thread. */
  datatype Waiter = Absent | Parked | Notified

  function Notify(w: Waiter): Waiter { if w.Parked? then Notified else w }

  datatype Monitor = Monitor(queue: seq<Segment>, level: real, dropped: nat, notFull: Waiter, notEmpty: Waiter)

  const EMPTY := Monitor([], 0.0, 0, Absent, Absent)

  datatype PutOutcome = Stored | PutWaits | Refused

  datatype GetOutcome = Got(segment: Segment) | GetWaits | Nothing

  predicate Fits(max: real, m: Monitor, duration: real) {
    m.level + duration <= max
  }

  /** One evaluation of the loop in `put`; `expired` says that its deadline, if any, has passed. */
  function PutSection(max: real, m: Monitor, s: Segment, expired: bool): (Monitor, PutOutcome) {
    if Fits(max, m, s.duration) then
      (Monitor(m.queue + [s], m.level + s.duration, m.dropped, Absent, Notify(m.notEmpty)), Stored)
    else if expired then
      (m.(dropped := m.dropped + 1, notFull := Absent), Refused)
    else
      (m.(notFull := Parked), PutWaits)
  }

  /** The part of `get` up to its wait, or, once it has waited, the part after. */
  function GetSection(m: Monitor, waited: bool): (Monitor, GetOutcome) {
    if m.queue != [] then
      var left := m.level - m.queue[0].duration;
      (Monitor(m.queue[1..], if left < 0.0 then 0.0 else left, m.dropped, Notify(m.notFull), Absent),
       Got(m.queue[0]))
    else if waited then
      (m.(notEmpty := Absent), Nothing)
    else
      (m.(notEmpty := Parked), GetWaits)
  }

  function Total(queue: seq<Segment>): real {
    if queue == [] then 0.0 else queue[0].duration + Total(queue[1..])
  }

  lemma {:induction false} TotalAppend(queue: seq<Segment>, s: Segment)
    ensures Total(queue + [s]) == Total(queue) + s.duration
  {
    if queue == [] {
      assert queue + [s] == [s];
    } else {
      TotalAppend(queue[1..], s);
      assert (queue + [s])[1..] == queue[1..] + [s];
    }
  }

  lemma {:induction false} TotalJoined(a: seq<Segment>, b: seq<Segment>)
    ensures Total(a + b) == Total(a) + Total(b)
    decreases |a|
  {
    if a == [] {
      assert a + b == b;
    } else {
      assert (a + b)[1..] == a[1..] + b;
      TotalJoined(a[1..], b);
    }
  }

  lemma {:induction false} TotalNonNegative(queue: seq<Segment>)
    requires forall i :: 0 <= i < |queue| ==> 0.0 < queue[i].duration
    ensures 0.0 <= Total(queue) && (queue != [] ==> queue[0].duration <= Total(queue) && 0.0 < Total(queue))
  {
    if queue != [] {
      TotalNonNegative(queue[1..]);
    }
  }

  /** What the buffer promises at every moment: the level is the buffered time and never above the bound. */
  ghost predicate Consistent(max: real, m: Monitor) {
    && m.level == Total(m.queue)
    && m.level <= max
    && forall i :: 0 <= i < |m.queue| ==> 0.0 < m.queue[i].duration
  }

  lemma PutKeepsConsistent(max: real, m: Monitor, s: Segment, expired: bool)
    requires Consistent(max, m) && 0.0 < s.duration
    ensures Consistent(max, PutSection(max, m, s, expired).0)
  {
    TotalAppend(m.queue, s);
  }

  /** The negative-level clamp of `get` is never taken: exactly the segment's duration leaves the level. */
  lemma GetKeepsConsistent(max: real, m: Monitor, waited: bool)
    requires Consistent(max, m)
    ensures Consistent(max, GetSection(m, waited).0)
    ensures m.queue != [] ==> GetSection(m, waited).0.level == m.level - m.queue[0].duration
  {
    TotalNonNegative(m.queue);
  }

  /** A segment longer than the whole buffer is never stored, not even into an empty one. */
  lemma StorableExactlyWhenShort(max: real, s: Segment)
    requires 0.0 < max
    ensures s.duration <= max <==>
              exists m :: Consistent(max, m) && PutSection(max, m, s, false).1 == Stored
  {
    if s.duration <= max {
      assert Consistent(max, EMPTY) && PutSection(max, EMPTY, s, false).1 == Stored;
    } else {
      forall m | Consistent(max, m) ensures PutSection(max, m, s, false).1 != Stored {
        TotalNonNegative(m.queue);
      }
    }
  }

  class BufferManager {
    const maxSeconds: real
    var queue: seq<Segment>
    var level: real
    var dropped: nat
    var notFull: Waiter
    var notEmpty: Waiter

    ghost function View(): Monitor
      reads this
    {
      Monitor(queue, level, dropped, notFull, notEmpty)
    }

    constructor (maxSeconds: real)
      requires 0.0 < maxSeconds
      ensures this.maxSeconds == maxSeconds && View() == EMPTY && Consistent(maxSeconds, View())
    {
      this.maxSeconds := maxSeconds;
      queue, level, dropped, notFull, notEmpty := [], 0.0, 0, Absent, Absent;
    }

    method Put(segment: Segment, expired: bool) returns (outcome: PutOutcome)
      modifies this
      ensures (View(), outcome) == PutSection(maxSeconds, old(View()), segment, expired)
    {
      if level + segment.duration > maxSeconds {
        if expired {
          dropped := dropped + 1;
          notFull := Absent;
          return Refused;
        }
        notFull := Parked;
        return PutWaits;
      }
      notFull := Absent;
      queue := queue + [segment];
      level := level + segment.duration;
      if notEmpty == Parked {
        notEmpty := Notified;
      }
      return Stored;
    }

    method Get(waited: bool) returns (outcome: GetOutcome)
      modifies this
      ensures (View(), outcome) == GetSection(old(View()), waited)
    {
      if queue == [] {
        if waited {
          notEmpty := Absent;
          return Nothing;
        }
        notEmpty := Parked;
        return GetWaits;
      }
      notEmpty := Absent;
      var segment := queue[0];
      queue := queue[1..];
      level := level - segment.duration;
      if level < 0.0 {
        level := 0.0;
      }
      if notFull == Parked {
        notFull := Notified;
      }
      return Got(segment);
    }
  }
}
