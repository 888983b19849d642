/**
 The playback thread's report: startup delay, stalls and segments played. The environment is a script
 of what each call to the buffer returned and of the clock readings taken around it; a script that
 ends early describes a session observed before it is over.
 */
module Playback {
  import opened Wrappers
  import opened Buffer

  const STALL_THRESHOLD := 0.02
  const GET_TIMEOUT := 0.05

  datatype Event = Event(start: real, duration: real, segmentId: int)

  datatype Report = Report(segmentsPlayed: nat, startupDelay: real, rebufferSeconds: real,
                           events: seq<Event>, lastSegment: int)

  const NO_REPORT := Report(0, 0.0, 0.0, [], 0)

  /** Waiting for the first segment: clock before, the result, clock after, clock when it has been played. */
  datatype Startup = Startup(began: real, first: Option<Segment>, arrived: real, resumed: real)

  /**
   One turn of the main loop: `returned` is when the short get came back; if it came back empty, a
   stall is measured from `stallStart` to `stallEnd`; `resumed` is when the segment has been played.
   */
  datatype Turn = Turn(returned: real, quick: Option<Segment>,
                       stallStart: real, late: Option<Segment>, stallEnd: real, resumed: real)
  {
    /** The segment played in this turn; none when the long wait ran out. */
    function Delivered(): Option<Segment> { if quick.Some? then quick else late }

    function Arrival(): real { if quick.Some? then returned else stallEnd }
  }

  // ---------------------------------------------------------------- the report as a function of the script

  function Consumed(r: Report, s: Segment): Report {
    r.(segmentsPlayed := r.segmentsPlayed + 1, lastSegment := s.id)
  }

  function Turned(r: Report, t: Turn, sessionStart: real): Report
    requires t.Delivered().Some?
  {
    var s := t.Delivered().value;
    var stall := t.stallEnd - t.stallStart;
    if t.quick.None? && STALL_THRESHOLD < stall then
      Consumed(r.(rebufferSeconds := r.rebufferSeconds + stall,
                  events := r.events + [Event(t.stallStart - sessionStart, stall, s.id)]), s)
    else
      Consumed(r, s)
  }

  function Started(u: Startup): Report
    requires u.first.Some?
  {
    Consumed(NO_REPORT.(startupDelay := u.arrived - u.began), u.first.value)
  }

  predicate Continues(r: Report, total: int, turns: seq<Turn>) {
    r.segmentsPlayed < total && turns != [] && turns[0].Delivered().Some?
  }

  function Play(r: Report, total: int, sessionStart: real, turns: seq<Turn>): Report
    decreases |turns|
  {
    if Continues(r, total, turns) then
      Play(Turned(r, turns[0], sessionStart), total, sessionStart, turns[1..])
    else
      r
  }

  function ReportOf(total: int, sessionStart: real, u: Startup, turns: seq<Turn>): Report {
    if u.first.None? then NO_REPORT else Play(Started(u), total, sessionStart, turns)
  }

  // ---------------------------------------------------------------- the playback thread

  class PlaybackController {
    const total: int
    const sessionStart: real
    var report: Report

    constructor (total: int, sessionStart: real)
      ensures this.total == total && this.sessionStart == sessionStart && report == NO_REPORT
    {
      this.total, this.sessionStart, report := total, sessionStart, NO_REPORT;
    }

    method Run(startup: Startup, turns: seq<Turn>)
      requires report == NO_REPORT
      modifies this
      ensures report == ReportOf(total, sessionStart, startup, turns)
    {
      if startup.first.None? {
        return;
      }
      report := report.(startupDelay := startup.arrived - startup.began);
      Consume(startup.first.value);
      var next := 0;
      while report.segmentsPlayed < total && next < |turns|
        invariant 0 <= next <= |turns|
        invariant Play(report, total, sessionStart, turns[next..]) == ReportOf(total, sessionStart, startup, turns)
        decreases |turns| - next
      {
        var turn := turns[next];
        assert turns[next..][0] == turn && turns[next..][1..] == turns[next + 1..];
        if turn.quick.None? {
          if turn.late.None? {
            return;
          }
          var stall := turn.stallEnd - turn.stallStart;
          if stall > STALL_THRESHOLD {
            report := report.(rebufferSeconds := report.rebufferSeconds + stall,
                              events := report.events
                                        + [Event(turn.stallStart - sessionStart, stall, turn.late.value.id)]);
          }
          Consume(turn.late.value);
        } else {
          Consume(turn.quick.value);
        }
        next := next + 1;
      }
    }

    method Consume(segment: Segment)
      modifies this
      ensures report == Consumed(old(report), segment)
    {
      report := report.(segmentsPlayed := report.segmentsPlayed + 1, lastSegment := segment.id);
    }
  }

  // ---------------------------------------------------------------- scripts a real clock can produce

  /** Readings never go back, and playing a segment takes at least its duration at this speed. */
  ghost predicate TurnTimed(at: real, t: Turn, speed: real)
    requires 0.0 < speed
  {
    && at <= t.returned
    && (t.quick.None? ==> t.returned <= t.stallStart <= t.stallEnd)
    && (t.Delivered().Some? ==> t.Arrival() + t.Delivered().value.duration / speed <= t.resumed)
  }

  ghost predicate Timed(at: real, turns: seq<Turn>, speed: real)
    requires 0.0 < speed
    decreases |turns|
  {
    turns == [] || (TurnTimed(at, turns[0], speed) && Timed(turns[0].resumed, turns[1..], speed))
  }

  /** Segments arrive with positive durations and increasing ids, as the buffer hands them out. */
  ghost predicate Ascending(last: int, turns: seq<Turn>)
    decreases |turns|
  {
    turns == []
    || (&& (turns[0].Delivered().Some? ==>
              last < turns[0].Delivered().value.id && 0.0 < turns[0].Delivered().value.duration)
        && Ascending(if turns[0].Delivered().Some? then turns[0].Delivered().value.id else last, turns[1..]))
  }

  function EventTotal(events: seq<Event>): real {
    if events == [] then 0.0 else EventTotal(events[..|events| - 1]) + events[|events| - 1].duration
  }

  lemma EventTotalAppend(events: seq<Event>, e: Event)
    ensures EventTotal(events + [e]) == EventTotal(events) + e.duration
  {
    assert (events + [e])[..|events|] == events;
  }

  ghost predicate EventsInOrder(events: seq<Event>) {
    && (forall i :: 0 <= i < |events| ==> STALL_THRESHOLD < events[i].duration)
    && (forall i, j :: 0 <= i < j < |events| ==>
          && events[i].start + events[i].duration <= events[j].start
          && events[i].segmentId < events[j].segmentId)
  }

  /** The report is sound at clock reading `at`, having played segments for `shown` seconds in all. */
  ghost predicate Accounted(r: Report, began: real, sessionStart: real, at: real, shown: real) {
    && r.rebufferSeconds == EventTotal(r.events)
    && EventsInOrder(r.events)
    && (forall i :: 0 <= i < |r.events| ==>
          && r.events[i].start + r.events[i].duration <= at - sessionStart
          && r.events[i].segmentId <= r.lastSegment)
    && r.startupDelay + r.rebufferSeconds + shown <= at - began
  }

  lemma {:induction false} TurnAccounted(r: Report, began: real, sessionStart: real, at: real, shown: real,
                                         t: Turn, speed: real)
    requires 0.0 < speed && Accounted(r, began, sessionStart, at, shown)
    requires TurnTimed(at, t, speed) && t.Delivered().Some?
    requires r.lastSegment < t.Delivered().value.id && 0.0 < t.Delivered().value.duration
    ensures Accounted(Turned(r, t, sessionStart), began, sessionStart, t.resumed,
                      shown + t.Delivered().value.duration / speed)
  {
    var stall := t.stallEnd - t.stallStart;
    assert 0.0 <= t.Delivered().value.duration / speed;
    EventTotalAppend(r.events, Event(t.stallStart - sessionStart, stall, t.Delivered().value.id));
  }

  /** Clock reading and seconds of video shown when the loop stops. */
  ghost function StopsAt(r: Report, total: int, sessionStart: real, turns: seq<Turn>, at: real): real
    decreases |turns|
  {
    if Continues(r, total, turns) then
      StopsAt(Turned(r, turns[0], sessionStart), total, sessionStart, turns[1..], turns[0].resumed)
    else
      at
  }

  ghost function Video(r: Report, total: int, sessionStart: real, turns: seq<Turn>): real
    decreases |turns|
  {
    if Continues(r, total, turns) then
      turns[0].Delivered().value.duration + Video(Turned(r, turns[0], sessionStart), total, sessionStart, turns[1..])
    else
      0.0
  }

  lemma AddTimes(a: real, b: real, speed: real)
    requires 0.0 < speed
    ensures (a + b) / speed == a / speed + b / speed
  {
  }

  lemma AddShown(shown: real, more: real, rest: real, sum: real, speed: real)
    requires 0.0 < speed && sum == more + rest
    ensures (shown + more / speed) + rest / speed == shown + sum / speed
  {
    AddTimes(more, rest, speed);
  }

  lemma PlayUnfolds(r: Report, total: int, sessionStart: real, at: real, turns: seq<Turn>)
    requires Continues(r, total, turns)
    ensures var next, t := Turned(r, turns[0], sessionStart), turns[0];
            && Play(r, total, sessionStart, turns) == Play(next, total, sessionStart, turns[1..])
            && StopsAt(r, total, sessionStart, turns, at) == StopsAt(next, total, sessionStart, turns[1..], t.resumed)
            && Video(r, total, sessionStart, turns)
               == t.Delivered().value.duration + Video(next, total, sessionStart, turns[1..])
  {
    hide Turned;
  }

  /** The first turn of a script, and the script of the others. */
  lemma HeadOfScript(at: real, last: int, turns: seq<Turn>, speed: real)
    requires 0.0 < speed && Timed(at, turns, speed) && Ascending(last, turns)
    requires turns != [] && turns[0].Delivered().Some?
    ensures var s := turns[0].Delivered().value;
            && TurnTimed(at, turns[0], speed) && Timed(turns[0].resumed, turns[1..], speed)
            && last < s.id && 0.0 < s.duration && Ascending(s.id, turns[1..])
  {
  }

  lemma {:induction false} PlayAccounted(r: Report, total: int, began: real, sessionStart: real,
                                         at: real, shown: real, turns: seq<Turn>, speed: real)
    requires 0.0 < speed && Accounted(r, began, sessionStart, at, shown)
    requires Timed(at, turns, speed) && Ascending(r.lastSegment, turns)
    ensures Accounted(Play(r, total, sessionStart, turns), began, sessionStart,
                      StopsAt(r, total, sessionStart, turns, at),
                      shown + Video(r, total, sessionStart, turns) / speed)
    decreases |turns|
  {
    if Continues(r, total, turns) {
      var t := turns[0];
      var next := Turned(r, t, sessionStart);
      var more := t.Delivered().value.duration;
      assert next.lastSegment == t.Delivered().value.id;
      hide Play, StopsAt, Video, Turned, Accounted, Ascending, Timed, TurnTimed;
      HeadOfScript(at, r.lastSegment, turns, speed);
      PlayUnfolds(r, total, sessionStart, at, turns);
      TurnAccounted(r, began, sessionStart, at, shown, t, speed);
      PlayAccounted(next, total, began, sessionStart, t.resumed, shown + more / speed, turns[1..], speed);
      AddShown(shown, more, Video(next, total, sessionStart, turns[1..]), Video(r, total, sessionStart, turns), speed);
    }
  }

  /** A startup the clock can produce. */
  ghost predicate StartupTimed(u: Startup, sessionStart: real, speed: real)
    requires 0.0 < speed
  {
    && sessionStart <= u.began <= u.arrived
    && (u.first.Some? ==> u.first.value.duration / speed <= u.resumed - u.arrived && 0.0 < u.first.value.duration)
  }

  lemma StartAccounted(sessionStart: real, u: Startup, speed: real)
    requires 0.0 < speed && u.first.Some? && StartupTimed(u, sessionStart, speed)
    ensures Accounted(Started(u), u.began, sessionStart, u.resumed, u.first.value.duration / speed)
  {
  }

  /**
   Stalls are counted once each, never overlap and never share a segment; and startup, stalls and
   the video shown fit in the time that has passed.
   */
  lemma TimeAccounting(total: int, sessionStart: real, u: Startup, turns: seq<Turn>, speed: real)
    requires 0.0 < speed && u.first.Some? && StartupTimed(u, sessionStart, speed)
    requires Timed(u.resumed, turns, speed) && Ascending(u.first.value.id, turns)
    ensures var r := ReportOf(total, sessionStart, u, turns);
            var video := u.first.value.duration + Video(Started(u), total, sessionStart, turns);
            && r.rebufferSeconds == EventTotal(r.events)
            && EventsInOrder(r.events)
            && r.startupDelay + r.rebufferSeconds + video / speed
               <= StopsAt(Started(u), total, sessionStart, turns, u.resumed) - u.began
  {
    var shown := u.first.value.duration / speed;
    StartAccounted(sessionStart, u, speed);
    hide Play, StopsAt, Video, Timed, Ascending, EventsInOrder, EventTotal, StartupTimed;
    PlayAccounted(Started(u), total, u.began, sessionStart, u.resumed, shown, turns, speed);
    AddTimes(u.first.value.duration, Video(Started(u), total, sessionStart, turns), speed);
  }

  // ---------------------------------------------------------------- how much waiting goes unreported

  /** Timeouts and sleeps are exact and the code in between takes no time. */
  ghost predicate TurnPrompt(at: real, t: Turn, speed: real)
    requires 0.0 < speed
  {
    && at <= t.returned <= at + GET_TIMEOUT
    && (t.quick.None? ==> t.stallStart == t.returned <= t.stallEnd)
    && (t.Delivered().Some? ==> t.resumed == t.Arrival() + t.Delivered().value.duration / speed)
  }

  ghost predicate Prompt(at: real, turns: seq<Turn>, speed: real)
    requires 0.0 < speed
    decreases |turns|
  {
    turns == [] || (TurnPrompt(at, turns[0], speed) && Prompt(turns[0].resumed, turns[1..], speed))
  }

  /**
   With exact timing, the time spent not showing video after startup exceeds the reported stalls by
   at most 0.07 s for each segment after the first: 0.05 s in the short get, 0.02 s below the threshold.
   */
  lemma {:induction false} UnreportedIdle(r: Report, total: int, sessionStart: real, at: real,
                                          turns: seq<Turn>, speed: real)
    requires 0.0 < speed && Prompt(at, turns, speed)
    ensures var e := Play(r, total, sessionStart, turns);
            var idle := StopsAt(r, total, sessionStart, turns, at) - at - Video(r, total, sessionStart, turns) / speed;
            && r.segmentsPlayed <= e.segmentsPlayed
            && e.rebufferSeconds - r.rebufferSeconds <= idle
            && idle <= e.rebufferSeconds - r.rebufferSeconds
                       + (GET_TIMEOUT + STALL_THRESHOLD) * (e.segmentsPlayed - r.segmentsPlayed) as real
    decreases |turns|
  {
    if Continues(r, total, turns) {
      var t := turns[0];
      var next := Turned(r, t, sessionStart);
      PlayUnfolds(r, total, sessionStart, at, turns);
      UnreportedIdle(next, total, sessionStart, t.resumed, turns[1..], speed);
      AddTimes(t.Delivered().value.duration, Video(next, total, sessionStart, turns[1..]), speed);
    }
  }

  lemma IdleAfterStartup(total: int, sessionStart: real, u: Startup, turns: seq<Turn>, speed: real)
    requires 0.0 < speed && u.first.Some? && Prompt(u.resumed, turns, speed)
    ensures var r := ReportOf(total, sessionStart, u, turns);
            var idle := StopsAt(Started(u), total, sessionStart, turns, u.resumed) - u.resumed
                        - Video(Started(u), total, sessionStart, turns) / speed;
            r.rebufferSeconds <= idle <= r.rebufferSeconds + 0.07 * (r.segmentsPlayed - 1) as real
  {
    UnreportedIdle(Started(u), total, sessionStart, u.resumed, turns, speed);
  }

  // ---------------------------------------------------------------- the report in the terms of the script

  ghost predicate EachDelivers(turns: seq<Turn>) { forall i :: 0 <= i < |turns| ==> turns[i].Delivered().Some? }

  /** Seconds of video delivered by these turns. */
  function Shown(turns: seq<Turn>): real
    requires EachDelivers(turns)
  {
    if turns == [] then 0.0 else turns[0].Delivered().value.duration + Shown(turns[1..])
  }

  /** Reading of the clock after the first k turns. */
  function ClockAfter(at: real, turns: seq<Turn>, k: nat): real
    requires k <= |turns|
  {
    if k == 0 then at else turns[k - 1].resumed
  }

  /** The loop plays its turns one by one until the total is reached, a long wait runs out, or the script ends. */
  lemma {:induction false} TurnsPlayed(r: Report, total: int, sessionStart: real, at: real, turns: seq<Turn>)
    ensures var e := Play(r, total, sessionStart, turns);
            var k := e.segmentsPlayed - r.segmentsPlayed;
            && 0 <= k <= |turns|
            && (k == |turns| || turns[k].Delivered().None? || total <= e.segmentsPlayed)
            && (0 < k ==> e.segmentsPlayed <= total)
            && EachDelivers(turns[..k])
            && e.startupDelay == r.startupDelay
            && e.lastSegment == (if k == 0 then r.lastSegment else turns[k - 1].Delivered().value.id)
            && StopsAt(r, total, sessionStart, turns, at) == ClockAfter(at, turns, k)
            && Video(r, total, sessionStart, turns) == Shown(turns[..k])
    decreases |turns|
  {
    if Continues(r, total, turns) {
      var next := Turned(r, turns[0], sessionStart);
      PlayUnfolds(r, total, sessionStart, at, turns);
      TurnsPlayed(next, total, sessionStart, turns[0].resumed, turns[1..]);
      var k := Play(r, total, sessionStart, turns).segmentsPlayed - r.segmentsPlayed;
      assert turns[..k][1..] == turns[1..][..k - 1] && turns[..k][0] == turns[0];
      assert forall i :: 1 <= i < k ==> turns[i] == turns[1..][i - 1];
    }
  }

  /** A turn whose long wait took more than a fiftieth of a second. */
  predicate LongWait(t: Turn) { t.quick.None? && t.late.Some? && 0.02 < t.stallEnd - t.stallStart }

  function EventOf(t: Turn, sessionStart: real): Event
    requires t.late.Some?
  {
    Event(t.stallStart - sessionStart, t.stallEnd - t.stallStart, t.late.value.id)
  }

  /** The stalls of some turns, in order. */
  function Stalls(turns: seq<Turn>, sessionStart: real): seq<Event> {
    if turns == [] then []
    else (if LongWait(turns[0]) then [EventOf(turns[0], sessionStart)] else []) + Stalls(turns[1..], sessionStart)
  }

  lemma EventAdded(r: Report, t: Turn, sessionStart: real)
    requires t.Delivered().Some?
    ensures Turned(r, t, sessionStart).events
         == r.events + if LongWait(t) then [EventOf(t, sessionStart)] else []
  {
  }

  /** The report lists the stalls of the turns played, each one as long as the clock says. */
  lemma {:induction false} StallsReported(r: Report, total: int, sessionStart: real, turns: seq<Turn>)
    ensures var e := Play(r, total, sessionStart, turns);
            var k := e.segmentsPlayed - r.segmentsPlayed;
            0 <= k <= |turns| && e.events == r.events + Stalls(turns[..k], sessionStart)
    decreases |turns|
  {
    if Continues(r, total, turns) {
      var next, t := Turned(r, turns[0], sessionStart), turns[0];
      PlayUnfolds(r, total, sessionStart, 0.0, turns);
      EventAdded(r, t, sessionStart);
      assert next.segmentsPlayed == r.segmentsPlayed + 1;
      hide Play, Turned, LongWait, EventOf;
      StallsReported(next, total, sessionStart, turns[1..]);
      var k := Play(r, total, sessionStart, turns).segmentsPlayed - r.segmentsPlayed;
      assert turns[..k][1..] == turns[1..][..k - 1] && turns[..k][0] == t;
    } else {
      assert r.events + [] == r.events;
    }
  }

  /**
   A thread that never gets a segment reports nothing; otherwise the startup delay is the time from the
   start of waiting to the first segment, and with exact timing the clock has moved on by that delay,
   the stalls reported, the video shown and at most 0.07 s for each segment after the first.
   */
  lemma {:induction false} StartupAndIdle(total: int, sessionStart: real, u: Startup, turns: seq<Turn>, speed: real)
    requires 0.0 < speed && Prompt(u.resumed, turns, speed)
    requires u.first.Some? ==> u.resumed == u.arrived + u.first.value.duration / speed
    ensures u.first.None? ==> ReportOf(total, sessionStart, u, turns) == Report(0, 0.0, 0.0, [], 0)
    ensures u.first.Some? ==>
              var r := ReportOf(total, sessionStart, u, turns);
              var k := r.segmentsPlayed - 1;
              && 0 <= k <= |turns| && EachDelivers(turns[..k])
              && r.startupDelay == u.arrived - u.began
              && var passed := ClockAfter(u.resumed, turns, k) - u.began;
                 var accounted := r.startupDelay + r.rebufferSeconds
                                  + (u.first.value.duration + Shown(turns[..k])) / speed;
                 accounted <= passed <= accounted + 0.07 * k as real
  {
    if u.first.Some? {
      TurnsPlayed(Started(u), total, sessionStart, u.resumed, turns);
      IdleAfterStartup(total, sessionStart, u, turns, speed);
      var k := ReportOf(total, sessionStart, u, turns).segmentsPlayed - 1;
      AddTimes(u.first.value.duration, Shown(turns[..k]), speed);
    }
  }
}
