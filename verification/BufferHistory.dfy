/** A buffer over any series of attempts: first in, first out, and every attempt decided by the time held. */
module BufferHistory {
  import opened Buffer

  datatype Attempt = Putting(segment: Segment, expired: bool) | Getting(waited: bool)

  datatype Outcome = OfPut(put: PutOutcome) | OfGet(get: GetOutcome)

  /** One attempt: the critical section it runs. */
  function Do(max: real, m: Monitor, a: Attempt): (Monitor, Outcome) {
    match a
    case Putting(segment, expired) => var (next, o) := PutSection(max, m, segment, expired); (next, OfPut(o))
    case Getting(waited) => var (next, o) := GetSection(m, waited); (next, OfGet(o))
  }

  /** A buffer after some attempts, and what came of each. */
  function Run(max: real, attempts: seq<Attempt>): (r: (Monitor, seq<Outcome>))
    ensures |r.1| == |attempts|
  {
    if attempts == [] then (EMPTY, [])
    else
      var (m, outcomes) := Run(max, attempts[..|attempts| - 1]);
      var (next, o) := Do(max, m, attempts[|attempts| - 1]);
      (next, outcomes + [o])
  }

  /** The segments that went in, going by the outcomes. */
  function Entered(attempts: seq<Attempt>, outcomes: seq<Outcome>): seq<Segment>
    requires |attempts| == |outcomes|
  {
    if attempts == [] then []
    else
      var last := |attempts| - 1;
      Entered(attempts[..last], outcomes[..last])
      + if attempts[last].Putting? && outcomes[last] == OfPut(Stored) then [attempts[last].segment] else []
  }

  /** The segments that came out. */
  function Left(outcomes: seq<Outcome>): seq<Segment> {
    if outcomes == [] then []
    else
      var last := |outcomes| - 1;
      Left(outcomes[..last])
      + if outcomes[last].OfGet? && outcomes[last].get.Got? then [outcomes[last].get.segment] else []
  }

  function Refusals(outcomes: seq<Outcome>): nat {
    if outcomes == [] then 0
    else
      var last := |outcomes| - 1;
      Refusals(outcomes[..last]) + if outcomes[last] == OfPut(Refused) then 1 else 0
  }

  ghost predicate Lasting(attempts: seq<Attempt>) {
    forall i :: 0 <= i < |attempts| && attempts[i].Putting? ==> 0.0 < attempts[i].segment.duration
  }

  lemma DoKeeps(max: real, m: Monitor, a: Attempt)
    requires Consistent(max, m) && (a.Putting? ==> 0.0 < a.segment.duration)
    ensures Consistent(max, Do(max, m, a).0)
  {
    match a
    case Putting(segment, expired) => PutKeepsConsistent(max, m, segment, expired);
    case Getting(waited) => GetKeepsConsistent(max, m, waited);
  }

  /** One attempt in the terms of what has gone in and come out. */
  lemma DoMoves(max: real, m: Monitor, a: Attempt, entered: seq<Segment>, left: seq<Segment>)
    requires entered == left + m.queue
    ensures var (next, o) := Do(max, m, a);
            && entered + (if a.Putting? && o == OfPut(Stored) then [a.segment] else [])
               == (left + if o.OfGet? && o.get.Got? then [o.get.segment] else []) + next.queue
            && next.dropped == m.dropped + if o == OfPut(Refused) then 1 else 0
  {
    if a.Getting? && m.queue != [] {
      assert m.queue == [m.queue[0]] + m.queue[1..];
    }
  }

  /** What went in is what came out, in that order, and then what the buffer holds; refusals are counted. */
  lemma {:induction false} FirstInFirstOut(max: real, attempts: seq<Attempt>)
    requires 0.0 < max && Lasting(attempts)
    ensures var (m, outcomes) := Run(max, attempts);
            && Entered(attempts, outcomes) == Left(outcomes) + m.queue
            && m.dropped == Refusals(outcomes)
            && m.level == Total(Entered(attempts, outcomes)) - Total(Left(outcomes)) <= max
            && Consistent(max, m)
    decreases |attempts|
  {
    if attempts == [] {
      assert Entered([], []) == [] && Left([]) == [];
    } else {
      var before, last := attempts[..|attempts| - 1], attempts[|attempts| - 1];
      FirstInFirstOut(max, before);
      var (m, outcomes) := Run(max, before);
      var all := Run(max, attempts).1;
      assert all[..|before|] == outcomes;
      DoKeeps(max, m, last);
      DoMoves(max, m, last, Entered(before, outcomes), Left(outcomes));
      hide Do, Consistent;
      TotalJoined(Left(all), Run(max, attempts).0.queue);
      LevelIsTotal(max, Run(max, attempts).0);
    }
  }

  lemma LevelIsTotal(max: real, m: Monitor)
    requires Consistent(max, m)
    ensures m.level == Total(m.queue) <= max
  {
  }

  /**
   Each attempt is decided by the seconds that went in and have not come out: a put is stored exactly
   when they and the new segment are within the bound, else refused exactly when its time is up; a get
   takes the oldest segment if there is any, and else gives up exactly when it has waited.
   */
  lemma {:induction false} AttemptsDecided(max: real, attempts: seq<Attempt>, a: Attempt)
    requires 0.0 < max && Lasting(attempts)
    ensures var before, o := Run(max, attempts).1, Run(max, attempts + [a]).1[|attempts|];
            var entered, left := Entered(attempts, before), Left(before);
            && |left| <= |entered|
            && (a.Putting? ==>
                  var fits := Total(entered) - Total(left) + a.segment.duration <= max;
                  o == OfPut(if fits then Stored else if a.expired then Refused else PutWaits))
            && (a.Getting? ==>
                  o == OfGet(if |left| < |entered| then Got(entered[|left|])
                             else if a.waited then Nothing else GetWaits))
  {
    FirstInFirstOut(max, attempts);
    assert (attempts + [a])[..|attempts|] == attempts;
  }
}
