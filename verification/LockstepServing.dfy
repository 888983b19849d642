/** The handlers of the lockstep model are the server's request loop, run on the pieces they are given. */
module LockstepServing {
  import opened Text
  import opened Protocol
  import opened Headers
  import opened Framing
  import opened Server
  import opened Listening
  import opened Lockstep
  import opened LockstepProofs

  /** A handler between two pieces has read what its automaton has. */
  predicate Matches(handler: Handler, reader: Reader) {
    match handler
    case Reading(buf) => reader == Partial(buf)
    case Sending(_, last) => reader == if last then Gone else Partial("")
    case Shut => reader == Gone
    case _ => reader == Partial("")
  }

  /** The requests read to their end: all those answered, and one more once it has left the channel. */
  function Completed(c: Conn): nat {
    |c.answers| + if c.client.Awaiting? && c.toServer == "" then 1 else 0
  }

  ghost predicate HeardInv(media: Media, c: Conn) {
    var h := Listen(media, SILENCE, c.heard);
    && h.dropped == c.dropped && Matches(c.handler, h.reader)
    && |h.replies| == Completed(c) <= |c.asked|
    && forall k :: 0 <= k < |h.replies| ==> h.replies[k] == Expected(media, c.asked[k])
  }

  lemma JudgedMatches(media: Media, line: string)
    ensures Matches(Judged(media, line), if StaysOpen(media, line) then Partial("") else Gone)
  {
    hide Judge;
  }

  /** Taking a piece off the socket does to the handler what hearing it does to the automaton. */
  lemma HandlerHears(media: Media, c: Conn, n: nat, h: Hearing)
    requires Enabled(c, ServerReceives(n)) && Matches(c.handler, h.reader) && h.dropped == c.dropped
    ensures var d, g := HandlerGets(media, c, n), Hear(media, h, c.toServer[..n]);
            && Matches(d.handler, g.reader) && g.dropped == d.dropped
  {
    hide Judged, StaysOpen, ReplyTo, Strip;
    var buf := c.handler.buf + c.toServer[..n];
    if |buf| <= MAX_REQUEST && Find(buf, '\n').Some? {
      JudgedMatches(media, Strip(buf[..Find(buf, '\n').value]));
    }
  }

  /** The reply to the outstanding request is added when its last byte is heard, and not before. */
  lemma RequestHeard(media: Media, c: Conn, n: nat, q: Request, h: Hearing)
    requires Enabled(c, ServerReceives(n)) && Requesting(c, q) && Sendable(q)
    requires h.reader == Partial(c.handler.buf)
    ensures Hear(media, h, c.toServer[..n]).replies
         == h.replies + if n == |c.toServer| then [Expected(media, q)] else []
  {
    hide BuildRequest, Strip, ReplyTo, RequestLine, StaysOpen;
    var buf, rest := c.handler.buf + c.toServer[..n], c.toServer[n..];
    assert c.toServer == c.toServer[..n] + rest;
    assert buf + rest == BuildRequest(q);
    RequestIsOneLine(q);
    if rest == "" {
      assert buf == BuildRequest(q);
    } else {
      assert forall i :: 0 <= i < |buf| ==> buf[i] == BuildRequest(q)[i];
      assert Find(buf, '\n').None?;
    }
  }

  lemma {:induction false} HeardReceives(media: Media, c: Conn, n: nat)
    requires ConnInv(media, c) && HeardInv(media, c) && Enabled(c, ServerReceives(n))
    ensures HeardInv(media, HandlerGets(media, c, n))
  {
    hide Fetch, BuildRequest, Expected, AnswerTo, Judged, RequestLine, Ruling, HandlerGets, Listen, Hear;
    assert c.client.Awaiting? && Requesting(c, c.client.q);
    var q, h, piece := c.client.q, Listen(media, SILENCE, c.heard), c.toServer[..n];
    HandlerGetsRequest(media, c, n, q);
    HandlerHears(media, c, n, h);
    RequestHeard(media, c, n, q, h);
    ListenAppend(media, SILENCE, c.heard, piece);
    var d := HandlerGets(media, c, n);
    assert d.heard == c.heard + [piece];
    assert c.asked[|c.answers|] == q;
  }

  lemma {:induction false} HeardAsks(media: Media, c: Conn, q: Request)
    requires ConnInv(media, c) && HeardInv(media, c) && c.client.Idle? && Sendable(q)
    ensures HeardInv(media, c.(client := Awaiting(q), toServer := c.toServer + BuildRequest(q), asked := c.asked + [q]))
  {
    hide Fetch, BuildRequest, Expected, AnswerTo, HangsUp, Ruling, Listen;
    NotEmpty(q);
  }

  lemma {:induction false} HeardDelivers(media: Media, c: Conn, n: nat)
    requires ConnInv(media, c) && HeardInv(media, c) && Enabled(c, ClientReceives(n))
    ensures HeardInv(media, ClientGets(c, n))
  {
    hide ConnInv, Fetch, Expected, HangsUp, Listen;
    Delivery(media, c, c.client.q, n);
  }

  lemma {:induction false} HeardStep(media: Media, cache: Cache, c: Conn, step: Step)
    requires CacheOk(media, cache) && ConnInv(media, c) && Named(media, c) && HeardInv(media, c) && Enabled(c, step)
    ensures HeardInv(media, Apply(media, cache, c, step).1)
  {
    hide ConnInv, BuildRequest, Expected, HandlerGets, ClientGets, Listen, Found;
    match step
    case Ask(q) => HeardAsks(media, c, q);
    case ServerReceives(n) => HeardReceives(media, c, n);
    case ClientReceives(n) => HeardDelivers(media, c, n);
    case ClientSeesEnd => EndStep(media, c);
    case _ =>
  }

  ghost predicate AllHeard(media: Media, s: System) {
    forall i :: 0 <= i < |s.conns| ==> HeardInv(media, s.conns[i])
  }

  lemma {:induction false} RunHeard(media: Media, s: System, moves: seq<Move>)
    requires SystemInv(media, s) && AllHeard(media, s) && Feasible(media, s, moves)
    ensures AllHeard(media, End(media, s, moves))
    decreases |moves|
  {
    hide ConnInv, HeardInv, Apply, Enabled;
    if moves != [] {
      StepInv(media, s.cache, s.conns[moves[0].who], moves[0].step);
      HeardStep(media, s.cache, s.conns[moves[0].who], moves[0].step);
      RunHeard(media, AfterMove(media, s, moves[0]), moves[1..]);
    }
  }

  /**
   In every run of clients and handlers, each connection's handler has made exactly the replies, and
   thrown away exactly the bytes, of the request loop run on the pieces it was given; and the answers
   its client got are those replies.
   */
  lemma {:induction false} LockstepIsServe(media: Media, s: System, moves: seq<Move>, i: nat)
    requires Starting(s) && Feasible(media, s, moves) && i < |s.conns|
    ensures |End(media, s, moves).conns| == |s.conns|
    ensures var c := End(media, s, moves).conns[i];
            var (replies, dropped) := Serve(media, c.heard);
            && dropped == c.dropped
            && |c.answers| <= |replies| <= |c.asked|
            && (forall k :: 0 <= k < |replies| ==> replies[k] == Expected(media, c.asked[k]))
            && (forall k :: 0 <= k < |c.answers| ==>
                  c.answers[k] == (Received(replies[k].fields), replies[k].payload))
  {
    hide ConnInv, Serve, Expected, Listen;
    FreshInv(media);
    FreshHeard(media);
    RunInv(media, s, moves);
    RunHeard(media, s, moves);
    var c := End(media, s, moves).conns[i];
    ListenServes(media, SILENCE, c.heard);
    var served := Serve(media, c.heard);
    assert [] + served.0 == served.0 && "" + served.1 == served.1;
    LockstepSafety(media, s, moves, i);
  }

  lemma FreshHeard(media: Media)
    ensures HeardInv(media, FRESH)
  {
  }

  // ---------------------------------------------------------------- the client's side

  /** The answers and the buffer of a client are what successive fetches leave of the pieces it got. */
  predicate GotInv(c: Conn) { FetchMany(Flat(c.got), |c.answers|) == (c.answers, c.clientBuf) }

  lemma {:induction false} GotDelivers(media: Media, c: Conn, n: nat)
    requires ConnInv(media, c) && GotInv(c) && Enabled(c, ClientReceives(n))
    ensures GotInv(ClientGets(c, n))
  {
    hide ConnInv, Fetch, FetchMany, Flat, Expected, HangsUp;
    Delivery(media, c, c.client.q, n);
    var piece := c.toClient[..n];
    FlatAppend(c.got, piece);
    FetchManyStable(Flat(c.got), |c.answers|, piece);
    if Fetch(c.clientBuf + piece).Taken? {
      FetchManyNext(Flat(c.got) + piece, |c.answers|);
    }
  }

  lemma {:induction false} GotStep(media: Media, cache: Cache, c: Conn, step: Step)
    requires ConnInv(media, c) && Named(media, c) && GotInv(c) && Enabled(c, step)
    ensures GotInv(Apply(media, cache, c, step).1)
  {
    hide ConnInv, FetchMany, Flat, BuildRequest, Judged, ClientGets, Found;
    match step
    case ClientReceives(n) => GotDelivers(media, c, n);
    case _ =>
  }

  lemma {:induction false} RunGot(media: Media, s: System, moves: seq<Move>)
    requires SystemInv(media, s) && Feasible(media, s, moves)
    requires forall i :: 0 <= i < |s.conns| ==> GotInv(s.conns[i])
    ensures forall i :: 0 <= i < |End(media, s, moves).conns| ==> GotInv(End(media, s, moves).conns[i])
    decreases |moves|
  {
    hide ConnInv, GotInv, Apply, Enabled;
    if moves != [] {
      StepInv(media, s.cache, s.conns[moves[0].who], moves[0].step);
      GotStep(media, s.cache, s.conns[moves[0].who], moves[0].step);
      RunGot(media, AfterMove(media, s, moves[0]), moves[1..]);
    }
  }

  /** In every run each client's answers, and the rest of its buffer, are those of fetching from the pieces it got. */
  lemma {:induction false} LockstepIsFetch(media: Media, s: System, moves: seq<Move>, i: nat)
    requires Starting(s) && Feasible(media, s, moves) && i < |s.conns|
    ensures |End(media, s, moves).conns| == |s.conns|
    ensures var c := End(media, s, moves).conns[i];
            FetchMany(Flat(c.got), |c.answers|) == (c.answers, c.clientBuf)
  {
    FreshInv(media);
    assert GotInv(FRESH);
    RunInv(media, s, moves);
    RunGot(media, s, moves);
    assert GotInv(End(media, s, moves).conns[i]);
  }
}
