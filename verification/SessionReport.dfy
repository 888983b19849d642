/** The playback report of a session: what the accounting needs of a script, every session run provides. */
module SessionReport {
  import opened Wrappers
  import opened Buffer
  import opened Session
  import opened SessionProofs
  import opened Playback

  /** The turns of the playback loop take these segments, one each. */
  ghost predicate Takes(turns: seq<Turn>, segments: seq<Segment>) {
    |turns| == |segments| && forall i :: 0 <= i < |turns| ==> turns[i].Delivered() == Some(segments[i])
  }

  /** The startup and the turns take what the playback thread of a session has played. */
  ghost predicate Scripted(u: Startup, turns: seq<Turn>, played: seq<Segment>) {
    played != [] && u.first == Some(played[0]) && Takes(turns, played[1..])
  }

  ghost predicate Consecutive(last: int, segments: seq<Segment>) {
    forall i :: 0 <= i < |segments| ==> segments[i].id == last + 1 + i && 0.0 < segments[i].duration
  }

  lemma {:induction false} ConsecutiveAscends(last: int, turns: seq<Turn>, segments: seq<Segment>)
    requires Takes(turns, segments) && Consecutive(last, segments)
    ensures Ascending(last, turns)
    decreases |turns|
  {
    if turns != [] {
      assert turns[0].Delivered() == Some(segments[0]);
      assert Takes(turns[1..], segments[1..]);
      ConsecutiveAscends(last + 1, turns[1..], segments[1..]);
    }
  }

  /** The clock reading after the last turn. */
  function LastReading(at: real, turns: seq<Turn>): real {
    if turns == [] then at else turns[|turns| - 1].resumed
  }

  /** As long as the total is not exceeded every turn is played, and the video shown is all of it. */
  lemma {:induction false} PlayedThrough(r: Report, total: int, sessionStart: real, at: real,
                                         turns: seq<Turn>, segments: seq<Segment>)
    requires Takes(turns, segments) && r.segmentsPlayed + |turns| <= total
    ensures var e := Play(r, total, sessionStart, turns);
            && e.segmentsPlayed == r.segmentsPlayed + |turns|
            && e.lastSegment == (if segments == [] then r.lastSegment else segments[|segments| - 1].id)
    ensures Video(r, total, sessionStart, turns) == Total(segments)
    ensures StopsAt(r, total, sessionStart, turns, at) == LastReading(at, turns)
    decreases |turns|
  {
    if turns != [] {
      assert turns[0].Delivered() == Some(segments[0]);
      assert Takes(turns[1..], segments[1..]);
      PlayUnfolds(r, total, sessionStart, at, turns);
      var next := Turned(r, turns[0], sessionStart);
      PlayedThrough(next, total, sessionStart, turns[0].resumed, turns[1..], segments[1..]);
    }
  }

  /** The played segments of a run: consecutive from 1, within the count, of positive duration. */
  lemma {:induction false} PlayedInOrder(cfg: Setup, steps: seq<Step>)
    requires Playable(cfg) && Feasible(cfg, START, steps)
    ensures var e := End(cfg, START, steps);
            && Consecutive(0, e.played) && |e.played| <= cfg.count
            && e.segmentsPlayed == e.lastSegment == |e.played|
  {
    StartInv(cfg);
    RunInv(cfg, START, steps);
    var e := End(cfg, START, steps);
    assert forall i :: 0 <= i < |e.played| ==> e.played[i] == e.stored[i];
  }

  lemma {:induction false} ReportOfPlayed(count: nat, played: seq<Segment>, sessionStart: real, u: Startup,
                                          turns: seq<Turn>, speed: real)
    requires Consecutive(0, played) && |played| <= count && 0.0 < speed && Scripted(u, turns, played)
    requires sessionStart <= u.began <= u.arrived && u.first.value.duration / speed <= u.resumed - u.arrived
    requires Timed(u.resumed, turns, speed)
    ensures var r := ReportOf(count, sessionStart, u, turns);
            && r.segmentsPlayed == r.lastSegment == |played|
            && r.rebufferSeconds == EventTotal(r.events) && EventsInOrder(r.events)
            && r.startupDelay + r.rebufferSeconds + Total(played) / speed <= LastReading(u.resumed, turns) - u.began
  {
    hide Play, Video, StopsAt, Timed, EventsInOrder, EventTotal, Ascending, LastReading;
    ConsecutiveAscends(1, turns, played[1..]);
    TimeAccounting(count, sessionStart, u, turns, speed);
    PlayedThrough(Started(u), count, sessionStart, u.resumed, turns, played[1..]);
  }

  /**
   For every run of the session and every clock script of its playback thread: the report counts what
   the session played, its stalls are ordered and disjoint, and startup, stalls and playing time fit
   in the time that has passed.
   */
  lemma {:induction false} ReportOfSession(cfg: Setup, steps: seq<Step>, sessionStart: real, u: Startup,
                                           turns: seq<Turn>, speed: real)
    requires Playable(cfg) && Feasible(cfg, START, steps) && 0.0 < speed
    requires Scripted(u, turns, End(cfg, START, steps).played)
    requires sessionStart <= u.began <= u.arrived && u.first.value.duration / speed <= u.resumed - u.arrived
    requires Timed(u.resumed, turns, speed)
    ensures var e := End(cfg, START, steps);
            var r := ReportOf(cfg.count, sessionStart, u, turns);
            && r.segmentsPlayed == e.segmentsPlayed && r.lastSegment == e.lastSegment
            && r.rebufferSeconds == EventTotal(r.events) && EventsInOrder(r.events)
            && r.startupDelay + r.rebufferSeconds + Total(e.played) / speed <= LastReading(u.resumed, turns) - u.began
  {
    hide Feasible, End, Timed, EventsInOrder, EventTotal, Scripted, Consecutive, ReportOf, LastReading, Total;
    PlayedInOrder(cfg, steps);
    ReportOfPlayed(cfg.count, End(cfg, START, steps).played, sessionStart, u, turns, speed);
  }

  lemma {:induction false} AllTaken(turns: seq<Turn>, segments: seq<Segment>)
    requires Takes(turns, segments)
    ensures EachDelivers(turns) && Shown(turns) == Total(segments)
    decreases |turns|
  {
    if turns != [] {
      assert turns[0].Delivered() == Some(segments[0]);
      AllTaken(turns[1..], segments[1..]);
      assert forall i :: 1 <= i < |turns| ==> turns[i] == turns[1..][i - 1];
    }
  }

  /**
   With exact timing the account is tight: what the session's report and its video leave unexplained of
   the time since waiting began is at most 0.07 s for each segment after the first.
   */
  lemma {:induction false} ClockOfSession(cfg: Setup, steps: seq<Step>, sessionStart: real, u: Startup,
                                          turns: seq<Turn>, speed: real)
    requires Playable(cfg) && Feasible(cfg, START, steps) && 0.0 < speed
    requires Scripted(u, turns, End(cfg, START, steps).played)
    requires u.resumed == u.arrived + u.first.value.duration / speed && Prompt(u.resumed, turns, speed)
    ensures var e := End(cfg, START, steps);
            var r := ReportOf(cfg.count, sessionStart, u, turns);
            var passed := LastReading(u.resumed, turns) - u.began;
            var accounted := r.startupDelay + r.rebufferSeconds + Total(e.played) / speed;
            && r.startupDelay == u.arrived - u.began
            && r.events == Stalls(turns, sessionStart)
            && accounted <= passed <= accounted + 0.07 * (e.segmentsPlayed - 1) as real
  {
    hide Feasible, End, ReportOf, Prompt, Consecutive, Scripted, LastReading, Total, Stalls;
    PlayedInOrder(cfg, steps);
    ClockOfScript(cfg.count, sessionStart, u, turns, End(cfg, START, steps).played, speed);
  }

  lemma {:induction false} ClockOfScript(count: nat, sessionStart: real, u: Startup, turns: seq<Turn>,
                                         played: seq<Segment>, speed: real)
    requires Scripted(u, turns, played) && |played| <= count && 0.0 < speed
    requires u.resumed == u.arrived + u.first.value.duration / speed && Prompt(u.resumed, turns, speed)
    ensures var r := ReportOf(count, sessionStart, u, turns);
            var passed := LastReading(u.resumed, turns) - u.began;
            var accounted := r.startupDelay + r.rebufferSeconds + Total(played) / speed;
            && r.startupDelay == u.arrived - u.began
            && r.events == Stalls(turns, sessionStart)
            && accounted <= passed <= accounted + 0.07 * (|played| - 1) as real
  {
    ScriptShown(u, turns, played);
    PlayedAll(count, sessionStart, u, turns, played);
    assert turns[..|turns|] == turns;
    hide ReportOf, Prompt, Shown, Total, Stalls, EachDelivers;
    StartupAndIdle(count, sessionStart, u, turns, speed);
  }

  lemma ScriptShown(u: Startup, turns: seq<Turn>, played: seq<Segment>)
    requires Scripted(u, turns, played)
    ensures EachDelivers(turns) && u.first.value.duration + Shown(turns) == Total(played)
  {
    AllTaken(turns, played[1..]);
  }

  /** A script that takes all the segments there are is played to its end. */
  lemma {:induction false} PlayedAll(count: nat, sessionStart: real, u: Startup, turns: seq<Turn>, played: seq<Segment>)
    requires Scripted(u, turns, played) && |played| <= count
    ensures var r := ReportOf(count, sessionStart, u, turns);
            r.segmentsPlayed == |played| && r.events == Stalls(turns, sessionStart)
  {
    hide Play, Stalls;
    PlayedThrough(Started(u), count, sessionStart, u.resumed, turns, played[1..]);
    StallsReported(Started(u), count, sessionStart, turns);
    assert turns[..|turns|] == turns && [] + Stalls(turns, sessionStart) == Stalls(turns, sessionStart);
  }
}
