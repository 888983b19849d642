/**
 Clients, handler threads and the byte channels between them, as interleaved steps. Every handler
 shares one segment cache; every channel may deliver its bytes in pieces of any size.
 */
module Lockstep {
  import opened Wrappers
  import opened Text
  import opened Protocol
  import opened Headers
  import opened Framing
  import opened Server

  type Cache = map<(string, int), string>

  datatype Client = Idle | Awaiting(q: Request) | Broken

  /** Where a handler thread stands in its request loop; `last` marks the reply it hangs up after. */
  datatype Handler =
    | Reading(buf: string)
    | Looking(p: Request)
    | Loading(p: Request)
    | Storing(p: Request, data: string)
    | Sending(out: string, last: bool)
    | Shut

  /**
   One connection; `heard` and `got` list the pieces its handler and its client took off their sockets,
   `dropped` the bytes the handler threw away.
   */
  datatype Conn = Conn(client: Client, clientBuf: string, handler: Handler, toServer: string, toClient: string,
                       heard: seq<string>, dropped: string, got: seq<string>,
                       asked: seq<Request>, answers: seq<(Header, string)>)

  const FRESH := Conn(Idle, "", Reading(""), "", "", [], "", [], [], [])

  datatype Step =
    | Ask(q: Request)
    | ServerReceives(n: nat)
    | CheckCache
    | LoadContent
    | StoreContent
    | ServerSends(n: nat)
    | ClientReceives(n: nat)
    | ClientSeesEnd

  /** A request that fits the server's line buffer and is a single line. */
  predicate Sendable(q: Request) { '\n' !in q.representation && |BuildRequest(q)| <= MAX_REQUEST }

  predicate Enabled(c: Conn, step: Step) {
    match step
    case Ask(q) => c.client.Idle? && Sendable(q)
    case ServerReceives(n) => c.handler.Reading? && 1 <= n <= |c.toServer| && n <= MAX_RECV
    case CheckCache => c.handler.Looking?
    case LoadContent => c.handler.Loading?
    case StoreContent => c.handler.Storing?
    case ServerSends(n) => c.handler.Sending? && 1 <= n <= |c.handler.out|
    case ClientReceives(n) => c.client.Awaiting? && 1 <= n <= |c.toClient|
    case ClientSeesEnd => c.client.Awaiting? && c.handler.Shut? && c.toClient == ""
  }

  function Key(q: Request): (string, int) { (q.representation, q.segmentId) }

  function Content(media: Media, q: Request): string { media.content(q.representation, q.segmentId) }

  predicate Named(media: Media, c: Conn) {
    (c.handler.Looking? || c.handler.Loading? || c.handler.Storing?) ==>
      c.handler.p.representation in media.representations
  }

  /** What the handler does with a request line just completed. */
  function Judged(media: Media, line: string): Handler {
    match Judge(media, line)
    case Answer(status) => Sending(Status(status).Wire(), status == 400)
    case Lookup(q) => Looking(q)
  }

  function HandlerGets(media: Media, c: Conn, n: nat): Conn
    requires Enabled(c, ServerReceives(n))
  {
    var buf := c.handler.buf + c.toServer[..n];
    var d := c.(toServer := c.toServer[n..], heard := c.heard + [c.toServer[..n]]);
    if |buf| > MAX_REQUEST then d.(handler := Shut, dropped := d.dropped + buf)
    else
      match Find(buf, '\n')
      case None => d.(handler := Reading(buf))
      case Some(end) => d.(handler := Judged(media, Strip(buf[..end])), dropped := d.dropped + buf[end + 1..])
  }

  function ClientGets(c: Conn, n: nat): Conn
    requires Enabled(c, ClientReceives(n))
  {
    var buf := c.clientBuf + c.toClient[..n];
    var d := c.(toClient := c.toClient[n..], got := c.got + [c.toClient[..n]]);
    match Fetch(buf)
    case More(_) => d.(clientBuf := buf)
    case Refused(_, rest) => d.(client := Broken, clientBuf := rest)
    case Taken(answer, rest) => d.(client := Idle, clientBuf := rest, answers := d.answers + [answer])
  }

  function Apply(media: Media, cache: Cache, c: Conn, step: Step): (Cache, Conn)
    requires Enabled(c, step) && Named(media, c)
  {
    match step
    case Ask(q) =>
      (cache, c.(client := Awaiting(q), toServer := c.toServer + BuildRequest(q), asked := c.asked + [q]))
    case ServerReceives(n) => (cache, HandlerGets(media, c, n))
    case CheckCache =>
      var p := c.handler.p;
      (cache, c.(handler := if Key(p) in cache then Sending(Found(media, p, cache[Key(p)]).Wire(), false)
                            else Loading(p)))
    case LoadContent => (cache, c.(handler := Storing(c.handler.p, Content(media, c.handler.p))))
    case StoreContent =>
      var p, data := c.handler.p, c.handler.data;
      (cache[Key(p) := data], c.(handler := Sending(Found(media, p, data).Wire(), false)))
    case ServerSends(n) =>
      var out, last := c.handler.out, c.handler.last;
      (cache, c.(toClient := c.toClient + out[..n],
                 handler := if n < |out| then Sending(out[n..], last) else if last then Shut else Reading("")))
    case ClientReceives(n) => (cache, ClientGets(c, n))
    case ClientSeesEnd => (cache, c.(client := Broken))
  }

  // ---------------------------------------------------------------- what should come back

  function Expected(media: Media, q: Request): Response { ReplyTo(media, RequestLine(q)) }

  function Ruling(media: Media, q: Request): Verdict { Judge(media, RequestLine(q)) }

  function AnswerTo(media: Media, q: Request): (Header, string) {
    (Received(Expected(media, q).fields), Expected(media, q).payload)
  }

  predicate HangsUp(media: Media, q: Request) { Ruling(media, q) == Answer(400) }

  /** The answer, in the terms of the request: malformed, not there, or the stored bytes. */
  lemma {:induction false} AnswerMeaning(media: Media, q: Request)
    ensures !WellFormed(q) ==> Expected(media, q) == Status(400) && HangsUp(media, q)
    ensures WellFormed(q) && (q.representation !in LADDER_NAMES || !Exists(media, q)) ==>
              Expected(media, q) == Status(404) && !HangsUp(media, q)
    ensures WellFormed(q) && q.representation in LADDER_NAMES && Exists(media, q) ==>
              Expected(media, q) == Found(media, q, Content(media, q)) && !HangsUp(media, q)
  {
    hide ParseRequest;
    RequestRoundTrip(q);
  }

  lemma {:induction false} ExpectedIsValid(media: Media, q: Request)
    ensures Expected(media, q).Valid()
  {
    hide ParseRequest;
    AnswerMeaning(media, q);
  }

  lemma {:induction false} ExpectedTaken(media: Media, q: Request)
    ensures Fetch(Expected(media, q).Wire()) == Taken(AnswerTo(media, q), "")
  {
    hide ReplyTo;
    ExpectedIsValid(media, q);
    FetchTakesResponse(Expected(media, q), "");
    assert Expected(media, q).Wire() + "" == Expected(media, q).Wire();
  }

  /** A prefix of the expected reply ends the fetch only if it is all of it, and then with the right answer. */
  lemma {:induction false} PrefixFetch(media: Media, q: Request, got: string, more: string)
    requires got + more == Expected(media, q).Wire() && !Fetch(got).More?
    ensures Fetch(got) == Taken(AnswerTo(media, q), "") && more == ""
  {
    hide Expected;
    hide AnswerTo;
    ExpectedTaken(media, q);
    FetchStable(got, more);
  }
}
