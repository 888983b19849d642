/** The two-party invariant that makes the request reader safe, and what follows from it. */
module LockstepProofs {
  import opened Wrappers
  import opened Text
  import opened Protocol
  import opened Headers
  import opened Framing
  import opened Server
  import opened Lockstep

  ghost predicate CacheOk(media: Media, cache: Cache) {
    forall key :: key in cache ==> cache[key] == media.content(key.0, key.1)
  }

  /** The request is on its way: nothing has been judged, nothing has come back. */
  predicate Requesting(c: Conn, q: Request) {
    && c.handler.Reading? && c.toServer != "" && c.handler.buf + c.toServer == BuildRequest(q)
    && c.clientBuf == "" && c.toClient == ""
  }

  /** The handler is fetching the content of the segment asked for. */
  predicate Resolving(media: Media, c: Conn, q: Request) {
    && (c.handler.Looking? || c.handler.Loading? || c.handler.Storing?)
    && Ruling(media, q) == Lookup(c.handler.p)
    && (c.handler.Storing? ==> c.handler.data == Content(media, c.handler.p))
    && c.toServer == "" && c.clientBuf == "" && c.toClient == ""
  }

  /** The bytes of the reply the handler has not handed to the channel yet. */
  function Outgoing(h: Handler): string { if h.Sending? then h.out else "" }

  /** The reply is under way: received, in flight and unsent bytes make it up. */
  predicate Replying(media: Media, c: Conn, q: Request) {
    && c.toServer == ""
    && c.clientBuf + (c.toClient + Outgoing(c.handler)) == Expected(media, q).Wire()
    && match c.handler
       case Sending(out, last) => out != "" && last == HangsUp(media, q)
       case Reading(buf) => buf == "" && !HangsUp(media, q)
       case Shut => HangsUp(media, q)
       case _ => false
  }

  /** An earlier request was malformed and the server has hung up: this one is never read. */
  predicate HungUp(media: Media, c: Conn) {
    && c.handler.Shut? && c.clientBuf == "" && c.toClient == ""
    && |c.answers| > 0 && |c.asked| >= |c.answers| && HangsUp(media, c.asked[|c.answers| - 1])
  }

  predicate Resting(media: Media, c: Conn) {
    && c.clientBuf == "" && c.toClient == "" && c.toServer == ""
    && (c.handler == Reading("") || HungUp(media, c))
  }

  predicate Answered(media: Media, c: Conn) {
    && |c.answers| <= |c.asked|
    && forall k :: 0 <= k < |c.answers| ==> c.answers[k] == AnswerTo(media, c.asked[k])
  }

  predicate Waiting(media: Media, c: Conn, q: Request) {
    && Sendable(q) && |c.asked| == |c.answers| + 1 && c.asked[|c.answers|] == q
    && Fetch(c.clientBuf).More?
    && (Requesting(c, q) || Resolving(media, c, q) || Replying(media, c, q) || (HungUp(media, c) && c.toServer != ""))
  }

  predicate ConnInv(media: Media, c: Conn) {
    && c.dropped == ""
    && Answered(media, c)
    && match c.client
       case Idle => |c.asked| == |c.answers| && Resting(media, c)
       case Awaiting(q) => Waiting(media, c, q)
       case Broken => HungUp(media, c) && |c.asked| == |c.answers| + 1
  }

  lemma {:induction false} InvNamed(media: Media, c: Conn)
    requires ConnInv(media, c)
    ensures Named(media, c)
  {
    hide Judge;
    if c.client.Awaiting? && Resolving(media, c, c.client.q) {
      LookupExists(media, RequestLine(c.client.q));
    }
  }

  lemma LookupExists(media: Media, line: string)
    ensures Judge(media, line).Lookup? ==> Exists(media, Judge(media, line).q)
  {
  }

  lemma NothingYet()
    ensures Fetch("").More?
  {
  }

  lemma {:induction false} AskStep(media: Media, c: Conn, q: Request)
    requires ConnInv(media, c) && c.client.Idle? && Sendable(q)
    ensures ConnInv(media, c.(client := Awaiting(q), toServer := c.toServer + BuildRequest(q), asked := c.asked + [q]))
  {
    hide Fetch, BuildRequest, Expected, AnswerTo, HangsUp, Ruling;
    var d := c.(client := Awaiting(q), toServer := c.toServer + BuildRequest(q), asked := c.asked + [q]);
    NothingYet();
    NotEmpty(q);
    assert "" + BuildRequest(q) == BuildRequest(q);
    assert forall k :: 0 <= k < |c.asked| ==> d.asked[k] == c.asked[k];
    if c.handler == Reading("") {
      assert Requesting(d, q);
    }
  }

  lemma NotEmpty(q: Request)
    ensures BuildRequest(q) != ""
  {
  }

  function Took(c: Conn, n: nat): Conn
    requires n <= |c.toServer|
  {
    c.(heard := c.heard + [c.toServer[..n]])
  }

  /** The newline of a request is its last byte, so completing the line leaves nothing to drop. */
  lemma HandlerGetsRequest(media: Media, c: Conn, n: nat, q: Request)
    requires Enabled(c, ServerReceives(n)) && Requesting(c, q) && Sendable(q) && c.dropped == ""
    ensures var buf, rest := c.handler.buf + c.toServer[..n], c.toServer[n..];
            && buf + rest == BuildRequest(q)
            && HandlerGets(media, c, n)
               == if rest == "" then Took(c, n).(toServer := "", handler := Judged(media, RequestLine(q)))
                  else Took(c, n).(toServer := rest, handler := Reading(buf))
  {
    hide BuildRequest, Strip, Judged, RequestLine;
    var buf, rest := c.handler.buf + c.toServer[..n], c.toServer[n..];
    assert c.toServer == c.toServer[..n] + rest;
    assert buf + rest == BuildRequest(q);
    RequestIsOneLine(q);
    if rest == "" {
      assert buf == BuildRequest(q);
    } else {
      assert forall i :: 0 <= i < |buf| ==> buf[i] == BuildRequest(q)[i];
      assert Find(buf, '\n').None?;
    }
  }

  lemma {:induction false} ReceiveStep(media: Media, c: Conn, n: nat)
    requires ConnInv(media, c) && Enabled(c, ServerReceives(n))
    ensures ConnInv(media, HandlerGets(media, c, n))
  {
    hide Fetch, BuildRequest, Expected, AnswerTo, Judged, RequestLine, Ruling, HandlerGets;
    assert c.client.Awaiting? && Requesting(c, c.client.q);
    HandlerGetsRequest(media, c, n, c.client.q);
    Judging(media, Took(c, n).(toServer := ""), c.client.q);
  }

  lemma Judging(media: Media, c: Conn, q: Request)
    requires c.client == Awaiting(q) && c.toServer == "" && c.toClient == "" && c.clientBuf == ""
    ensures var d := c.(handler := Judged(media, RequestLine(q)));
            Resolving(media, d, q) || Replying(media, d, q)
  {
    hide Judge, RequestLine, BuildResponseHeader;
    match Judge(media, RequestLine(q))
    case Lookup(p) =>
    case Answer(status) =>
      var wire := Status(status).Wire();
      WireNotEmpty(Status(status));
      assert "" + ("" + wire) == wire;
  }

  lemma WireNotEmpty(r: Response)
    ensures r.Wire() != ""
  {
    assert Lines(Pairs(r.fields)) != [];
  }

  lemma {:induction false} ReplyReady(media: Media, c: Conn, q: Request)
    requires c.client == Awaiting(q) && Resolving(media, c, q) && Named(media, c)
    ensures var wire := Found(media, c.handler.p, Content(media, c.handler.p)).Wire();
            Replying(media, c.(handler := Sending(wire, false)), q)
  {
    hide Judge, RequestLine, BuildResponseHeader;
    var p := c.handler.p;
    var wire := Found(media, p, Content(media, p)).Wire();
    WireNotEmpty(Found(media, p, Content(media, p)));
    assert "" + ("" + wire) == wire;
  }

  lemma {:induction false} ResolveStep(media: Media, cache: Cache, c: Conn, step: Step)
    requires CacheOk(media, cache) && ConnInv(media, c) && Named(media, c) && Enabled(c, step)
    requires step.CheckCache? || step.LoadContent? || step.StoreContent?
    ensures CacheOk(media, Apply(media, cache, c, step).0)
    ensures ConnInv(media, Apply(media, cache, c, step).1)
  {
    hide Fetch, Expected, AnswerTo, HangsUp, Found, Ruling;
    var q := c.client.q;
    assert Resolving(media, c, q);
    ReplyReady(media, c, q);
  }

  /** Bytes on their way to a client are part of the reply it waits for. */
  lemma {:induction false} UnderWay(media: Media, c: Conn)
    requires ConnInv(media, c) && (c.handler.Sending? || (c.client.Awaiting? && c.toClient != ""))
    ensures c.client.Awaiting? && Replying(media, c, c.client.q)
  {
    hide Fetch, Expected, AnswerTo, HangsUp, BuildRequest, Answered, Ruling;
  }

  lemma Regrouped(got: string, wire: string, out: string, n: nat)
    requires n <= |out|
    ensures got + (wire + out) == got + ((wire + out[..n]) + out[n..])
  {
    assert out == out[..n] + out[n..];
  }

  lemma {:induction false} SendStep(media: Media, c: Conn, n: nat)
    requires ConnInv(media, c) && Named(media, c) && Enabled(c, ServerSends(n))
    ensures ConnInv(media, Apply(media, map[], c, ServerSends(n)).1)
  {
    hide Fetch, Expected, AnswerTo, HangsUp, Found, Judged, HandlerGets, ClientGets;
    hide Requesting, Resolving, HungUp;
    UnderWay(media, c);
    var q := c.client.q;
    Regrouped(c.clientBuf, c.toClient, c.handler.out, n);
    var d := Apply(media, map[], c, ServerSends(n)).1;
    assert Outgoing(d.handler) == c.handler.out[n..];
    assert Replying(media, d, q);
  }

  lemma Portions(got: string, wire: string, out: string, n: nat)
    requires n <= |wire|
    ensures (got + wire[..n]) + (wire[n..] + out) == got + (wire + out)
  {
    assert wire == wire[..n] + wire[n..];
  }

  /** What is delivered is part of the reply, and ends the fetch only as its last part. */
  lemma {:induction false} Delivery(media: Media, c: Conn, q: Request, n: nat)
    requires n <= |c.toClient| && c.client == Awaiting(q)
    requires ConnInv(media, c) && Enabled(c, ClientReceives(n))
    ensures Replying(media, c, q) && !ClientGets(c, n).client.Broken?
  {
    hide ConnInv, Fetch, Expected, AnswerTo, HangsUp, Found;
    UnderWay(media, c);
    var buf, later := c.clientBuf + c.toClient[..n], c.toClient[n..] + Outgoing(c.handler);
    Portions(c.clientBuf, c.toClient, Outgoing(c.handler), n);
    if !Fetch(buf).More? {
      PrefixFetch(media, q, buf, later);
    }
  }

  lemma {:induction false} DeliverStep(media: Media, c: Conn, n: nat)
    requires ConnInv(media, c) && Enabled(c, ClientReceives(n))
    ensures ConnInv(media, ClientGets(c, n))
  {
    hide Fetch, Expected, AnswerTo, HangsUp, Requesting, Resolving;
    UnderWay(media, c);
    var q := c.client.q;
    var buf, later := c.clientBuf + c.toClient[..n], c.toClient[n..] + Outgoing(c.handler);
    Portions(c.clientBuf, c.toClient, Outgoing(c.handler), n);
    var d := ClientGets(c, n);
    if Fetch(buf).More? {
      assert Replying(media, d, q);
    } else {
      PrefixFetch(media, q, buf, later);
      assert forall k :: 0 <= k < |c.answers| ==> d.answers[k] == c.answers[k];
      assert c.asked[|c.answers|] == q;
    }
  }

  lemma {:induction false} EndStep(media: Media, c: Conn)
    requires ConnInv(media, c) && Enabled(c, ClientSeesEnd)
    ensures ConnInv(media, c.(client := Broken)) && c.toServer != ""
  {
    hide Fetch, Expected, AnswerTo, HangsUp, BuildRequest;
    var q := c.client.q;
    if Replying(media, c, q) {
      assert c.clientBuf + (c.toClient + "") == c.clientBuf;
      CompleteFetch(media, q);
    }
  }

  lemma {:induction false} CompleteFetch(media: Media, q: Request)
    ensures !Fetch(Expected(media, q).Wire()).More?
  {
    hide Expected, AnswerTo, Fetch;
    ExpectedTaken(media, q);
  }

  /** Every step of a connection keeps both the cache and the two-party invariant. */
  lemma {:induction false} StepInv(media: Media, cache: Cache, c: Conn, step: Step)
    requires CacheOk(media, cache) && ConnInv(media, c) && Enabled(c, step)
    ensures Named(media, c)
    ensures CacheOk(media, Apply(media, cache, c, step).0)
    ensures ConnInv(media, Apply(media, cache, c, step).1)
  {
    hide ConnInv, Fetch, Judge;
    InvNamed(media, c);
    match step
    case Ask(q) => AskStep(media, c, q);
    case ServerReceives(n) => ReceiveStep(media, c, n);
    case CheckCache => ResolveStep(media, cache, c, step);
    case LoadContent => ResolveStep(media, cache, c, step);
    case StoreContent => ResolveStep(media, cache, c, step);
    case ServerSends(n) => SendStep(media, c, n);
    case ClientReceives(n) => DeliverStep(media, c, n);
    case ClientSeesEnd => EndStep(media, c);
  }

  // ---------------------------------------------------------------- many clients, one cache

  datatype System = System(cache: Cache, conns: seq<Conn>)

  datatype Move = Move(who: nat, step: Step)

  predicate Possible(media: Media, s: System, m: Move) {
    m.who < |s.conns| && Enabled(s.conns[m.who], m.step) && Named(media, s.conns[m.who])
  }

  function AfterMove(media: Media, s: System, m: Move): System
    requires Possible(media, s, m)
  {
    var (cache, conn) := Apply(media, s.cache, s.conns[m.who], m.step);
    System(cache, s.conns[m.who := conn])
  }

  predicate Feasible(media: Media, s: System, moves: seq<Move>)
    decreases |moves|
  {
    moves == [] || (Possible(media, s, moves[0]) && Feasible(media, AfterMove(media, s, moves[0]), moves[1..]))
  }

  function End(media: Media, s: System, moves: seq<Move>): System
    requires Feasible(media, s, moves)
    decreases |moves|
  {
    if moves == [] then s else End(media, AfterMove(media, s, moves[0]), moves[1..])
  }

  ghost predicate SystemInv(media: Media, s: System) {
    CacheOk(media, s.cache) && forall i :: 0 <= i < |s.conns| ==> ConnInv(media, s.conns[i])
  }

  lemma {:induction false} RunInv(media: Media, s: System, moves: seq<Move>)
    requires SystemInv(media, s) && Feasible(media, s, moves)
    ensures SystemInv(media, End(media, s, moves))
    ensures |End(media, s, moves).conns| == |s.conns|
    decreases |moves|
  {
    hide ConnInv, Apply, Enabled;
    if moves != [] {
      StepInv(media, s.cache, s.conns[moves[0].who], moves[0].step);
      RunInv(media, AfterMove(media, s, moves[0]), moves[1..]);
    }
  }

  predicate Starting(s: System) { s.cache == map[] && forall i :: 0 <= i < |s.conns| ==> s.conns[i] == FRESH }

  lemma FreshInv(media: Media)
    ensures ConnInv(media, FRESH)
  {
  }

  /**
   For any number of clients, any interleaving with the handler threads and any cutting of the bytes:
   no request byte is ever dropped, and the k-th fetch of each client returns the answer to its k-th
   request, served from the one shared cache.
   */
  lemma LockstepSafety(media: Media, s: System, moves: seq<Move>, i: nat)
    requires Starting(s) && Feasible(media, s, moves) && i < |s.conns|
    ensures |End(media, s, moves).conns| == |s.conns|
    ensures var c := End(media, s, moves).conns[i];
            && c.dropped == ""
            && |c.answers| <= |c.asked| <= |c.answers| + 1
            && forall k :: 0 <= k < |c.answers| ==> c.answers[k] == AnswerTo(media, c.asked[k])
  {
    hide Fetch, AnswerTo, HangsUp, BuildRequest, Expected, Ruling;
    FreshInv(media);
    RunInv(media, s, moves);
    assert ConnInv(media, End(media, s, moves).conns[i]);
  }

  /** What the cache holds never differs from the segment store, however handlers race to fill it. */
  lemma CacheIsStore(media: Media, s: System, moves: seq<Move>)
    requires Starting(s) && Feasible(media, s, moves)
    ensures forall key :: key in End(media, s, moves).cache ==>
              End(media, s, moves).cache[key] == media.content(key.0, key.1)
  {
    hide ConnInv, Apply, Enabled;
    FreshInv(media);
    RunInv(media, s, moves);
  }

  // ---------------------------------------------------------------- every fetch ends

  /** Steps left before the outstanding fetch returns. */
  function Remaining(media: Media, c: Conn): nat {
    if !c.client.Awaiting? then 0
    else
      var reply := |Expected(media, c.client.q).Wire()|;
      match c.handler
      case Reading(_) => if c.toServer != "" then |c.toServer| + 4 + 2 * reply else |c.toClient|
      case Looking(_) => 3 + 2 * reply
      case Loading(_) => 2 + 2 * reply
      case Storing(_, _) => 1 + 2 * reply
      case Sending(out, _) => 2 * |out| + |c.toClient|
      case Shut => |c.toClient| + if c.toServer != "" then 1 else 0
  }

  /** Some step other than a new request is possible while a fetch is outstanding. */
  lemma NeverStuck(media: Media, c: Conn)
    requires ConnInv(media, c) && c.client.Awaiting?
    ensures exists step: Step :: Enabled(c, step) && !step.Ask?
  {
    hide Fetch, Expected, AnswerTo, HangsUp, BuildRequest, Ruling;
    var q := c.client.q;
    if Replying(media, c, q) && !c.handler.Sending? && c.toClient == "" {
      assert c.clientBuf + ("" + "") == c.clientBuf;
      CompleteFetch(media, q);
    }
    var step :=
      if c.toClient != "" then ClientReceives(1)
      else match c.handler
           case Reading(_) => ServerReceives(1)
           case Looking(_) => CheckCache
           case Loading(_) => LoadContent
           case Storing(_, _) => StoreContent
           case Sending(_, _) => ServerSends(1)
           case Shut => ClientSeesEnd;
    assert Enabled(c, step);
  }

  lemma {:induction false} ReceiveShortens(media: Media, c: Conn, n: nat)
    requires ConnInv(media, c) && Enabled(c, ServerReceives(n))
    ensures Remaining(media, HandlerGets(media, c, n)) < Remaining(media, c)
  {
    hide Fetch, BuildRequest, Expected, AnswerTo, Judged, RequestLine, Ruling, HandlerGets;
    var q := c.client.q;
    assert c.client.Awaiting? && Requesting(c, q);
    HandlerGetsRequest(media, c, n, q);
    Judging(media, Took(c, n).(toServer := ""), q);
    var d := Took(c, n).(toServer := "", handler := Judged(media, RequestLine(q)));
    if Replying(media, d, q) {
      assert "" + ("" + Outgoing(d.handler)) == Outgoing(d.handler);
    }
  }

  lemma {:induction false} ReplyLength(media: Media, c: Conn, q: Request)
    requires c.client == Awaiting(q) && Resolving(media, c, q) && Named(media, c)
    ensures |Found(media, c.handler.p, Content(media, c.handler.p)).Wire()| == |Expected(media, q).Wire()|
  {
    hide Judge, RequestLine, BuildResponseHeader;
  }

  lemma {:induction false} ResolveShortens(media: Media, cache: Cache, c: Conn, step: Step)
    requires CacheOk(media, cache) && ConnInv(media, c) && Named(media, c) && Enabled(c, step)
    requires step.CheckCache? || step.LoadContent? || step.StoreContent?
    ensures Remaining(media, Apply(media, cache, c, step).1) < Remaining(media, c)
  {
    hide Fetch, Expected, AnswerTo, HangsUp, Found, Ruling, BuildRequest, BuildResponseHeader, Judge, Answered;
    assert c.client.Awaiting? && Resolving(media, c, c.client.q);
    ReplyLength(media, c, c.client.q);
  }

  lemma {:induction false} SendShortens(media: Media, c: Conn, n: nat)
    requires ConnInv(media, c) && Named(media, c) && Enabled(c, ServerSends(n))
    ensures Remaining(media, Apply(media, map[], c, ServerSends(n)).1) < Remaining(media, c)
  {
    hide ConnInv, Fetch, Expected, AnswerTo, HangsUp, Found;
    UnderWay(media, c);
  }

  lemma {:induction false} DeliverShortens(media: Media, c: Conn, n: nat)
    requires ConnInv(media, c) && Enabled(c, ClientReceives(n))
    ensures Remaining(media, ClientGets(c, n)) < Remaining(media, c)
  {
    hide ConnInv, Fetch, Expected, AnswerTo, HangsUp, Found;
    UnderWay(media, c);
  }

  lemma {:induction false} EndShortens(media: Media, c: Conn)
    requires ConnInv(media, c) && Enabled(c, ClientSeesEnd)
    ensures 0 < Remaining(media, c)
  {
    hide Fetch, Expected, AnswerTo, HangsUp, Ruling, BuildRequest;
    if Replying(media, c, c.client.q) {
      assert c.clientBuf + (c.toClient + "") == c.clientBuf;
      CompleteFetch(media, c.client.q);
    }
  }

  /** Besides new requests, every step brings the outstanding fetch closer to its end. */
  lemma {:induction false} StepShortens(media: Media, cache: Cache, c: Conn, step: Step)
    requires CacheOk(media, cache) && ConnInv(media, c) && Enabled(c, step) && Named(media, c) && !step.Ask?
    ensures Remaining(media, Apply(media, cache, c, step).1) < Remaining(media, c)
  {
    hide ConnInv, Expected, HandlerGets, ClientGets;
    match step
    case ServerReceives(n) => ReceiveShortens(media, c, n);
    case CheckCache => ResolveShortens(media, cache, c, step);
    case LoadContent => ResolveShortens(media, cache, c, step);
    case StoreContent => ResolveShortens(media, cache, c, step);
    case ServerSends(n) => SendShortens(media, c, n);
    case ClientReceives(n) => DeliverShortens(media, c, n);
    case ClientSeesEnd => EndShortens(media, c);
  }

  predicate By(m: Move, i: nat) { m.who == i }

  function StepsOf(moves: seq<Move>, i: nat): nat {
    if moves == [] then 0 else (if By(moves[0], i) then 1 else 0) + StepsOf(moves[1..], i)
  }

  /**
   However the other connections behave, a fetch is over after at most |request| + 4 + 2 |reply|
   steps of its own connection.
   */
  lemma {:induction false} FetchEnds(media: Media, s: System, moves: seq<Move>, i: nat)
    requires SystemInv(media, s) && Feasible(media, s, moves) && i < |s.conns|
    requires forall j :: 0 <= j < |moves| && By(moves[j], i) ==> !moves[j].step.Ask?
    ensures |End(media, s, moves).conns| == |s.conns|
    ensures StepsOf(moves, i) + Remaining(media, End(media, s, moves).conns[i]) <= Remaining(media, s.conns[i])
    decreases |moves|
  {
    hide ConnInv, Apply, Enabled, Remaining;
    if moves != [] {
      var m := moves[0];
      assert By(m, i) ==> !m.step.Ask?;
      StepInv(media, s.cache, s.conns[m.who], m.step);
      if By(m, i) {
        StepShortens(media, s.cache, s.conns[i], m.step);
      }
      FetchEnds(media, AfterMove(media, s, m), moves[1..], i);
    }
  }
}
