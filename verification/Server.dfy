/** The server: reading request lines, resolving segments through the cache, answering one connection. */
module Server {
  import opened Wrappers
  import opened Text
  import opened Protocol
  import opened Numerals
  import opened Headers
  import opened Framing

  const LADDER_NAMES := {"360p", "480p", "720p", "1080p"}
  const MAX_REQUEST := 4096
  const MAX_RECV := 1024

  /** The media directory: a manifest, and the content of every segment file or its synthetic stand-in. */
  datatype Media = Media(segmentCount: int, duration: Float, representations: map<string, int>,
                         content: (string, int) -> string)

  datatype RequestError = Bad | Missing

  function ParseSegmentRequest(line: string, segmentCount: int): Result<Request, RequestError> {
    match ParseRequest(line)
    case Failure(_) => Failure(Bad)
    case Success(q) =>
      if q.representation !in LADDER_NAMES then Failure(Missing)
      else if q.segmentId > segmentCount then Failure(Missing)
      else Success(q)
  }

  predicate Exists(media: Media, q: Request) {
    q.representation in media.representations && 1 <= q.segmentId <= media.segmentCount
  }

  /** The reply carrying a segment's bytes. */
  function Found(media: Media, q: Request, data: string): Response
    requires q.representation in media.representations
  {
    Response(Fields(200, |data|, media.representations[q.representation], media.duration,
                    q.representation, q.segmentId), data)
  }

  function Status(code: int): Response { Response(Bare(code), "") }

  /** What a request line leads to: look the segment up, or a status-only reply. */
  datatype Verdict = Lookup(q: Request) | Answer(status: int)

  function Judge(media: Media, line: string): (v: Verdict)
    ensures v.Lookup? ==> Exists(media, v.q)
    ensures v.Answer? ==> v.status == 404 || v.status == 400
  {
    match ParseSegmentRequest(line, media.segmentCount)
    case Failure(Missing) => Answer(404)
    case Failure(Bad) => Answer(400)
    case Success(q) => if Exists(media, q) then Lookup(q) else Answer(404)
  }

  /** The reply to a request line; the connection is dropped after a malformed one. */
  function ReplyTo(media: Media, line: string): Response {
    match Judge(media, line)
    case Answer(status) => Status(status)
    case Lookup(q) => Found(media, q, media.content(q.representation, q.segmentId))
  }

  // ---------------------------------------------------------------- request lines off the socket

  /** A line and what is dropped with it; or a line that outgrew the limit, or one the peer never finished. */
  datatype LineRead =
    | Line(line: string, dropped: string, rest: seq<string>)
    | TooLong(buf: string, rest: seq<string>)
    | Closed(buf: string)

  /** Collects pieces up to the first newline; whatever else came with that newline is dropped. */
  function ReadLineFrom(buf: string, chunks: seq<string>): LineRead
    decreases |chunks|
  {
    match Find(buf, '\n')
    case Some(n) => Line(Strip(buf[..n]), buf[n + 1..], chunks)
    case None =>
      if chunks == [] then Closed(buf)
      else if |buf + chunks[0]| > MAX_REQUEST then TooLong(buf + chunks[0], chunks[1..])
      else ReadLineFrom(buf + chunks[0], chunks[1..])
  }

  lemma {:induction false} LineTakesChunk(buf: string, chunks: seq<string>)
    ensures ReadLineFrom(buf, chunks).Line? ==> |ReadLineFrom(buf, chunks).rest| <= |chunks|
    ensures ReadLineFrom(buf, chunks).Line? && Find(buf, '\n').None? ==> |ReadLineFrom(buf, chunks).rest| < |chunks|
    decreases |chunks|
  {
    if chunks != [] {
      LineTakesChunk(buf + chunks[0], chunks[1..]);
    }
  }

  predicate StaysOpen(media: Media, line: string) { Judge(media, line) != Answer(400) }

  /**
   The replies on a connection that delivers these pieces, and the bytes taken off it and thrown away:
   those after a newline, and those of a line that outgrew the limit.
   */
  function Serve(media: Media, chunks: seq<string>): (seq<Response>, string)
    decreases |chunks|
  {
    match ReadLineFrom("", chunks)
    case Closed(_) => ([], "")
    case TooLong(buf, _) => ([], buf)
    case Line(line, dropped, rest) =>
      LineTakesChunk("", chunks);
      var reply := ReplyTo(media, line);
      if !StaysOpen(media, line) then ([reply], dropped)
      else ([reply] + Serve(media, rest).0, dropped + Serve(media, rest).1)
  }

  // ---------------------------------------------------------------- the segment store

  class SegmentManager {
    const media: Media
    var cache: map<(string, int), string>

    /** The cache never holds anything but a segment's content. */
    ghost predicate Valid()
      reads this
    {
      forall key :: key in cache ==> cache[key] == media.content(key.0, key.1)
    }

    constructor (media: Media)
      ensures Valid() && this.media == media && cache == map[]
    {
      this.media, cache := media, map[];
    }

    method LoadBytes(q: Request) returns (data: string)
      requires Valid()
      modifies this
      ensures Valid()
      ensures data == media.content(q.representation, q.segmentId)
      ensures cache == old(cache)[(q.representation, q.segmentId) := data]
    {
      var key := (q.representation, q.segmentId);
      if key in cache {
        return cache[key];
      }
      data := media.content(q.representation, q.segmentId);
      cache := cache[key := data];
    }

    method Resolve(q: Request) returns (reply: Option<Response>)
      requires Valid()
      modifies this
      ensures Valid()
      ensures !Exists(media, q) ==> reply.None? && cache == old(cache)
      ensures Exists(media, q) ==>
                reply == Some(Found(media, q, media.content(q.representation, q.segmentId)))
    {
      if q.representation !in media.representations || q.segmentId < 1 {
        return None;
      }
      if q.segmentId > media.segmentCount {
        return None;
      }
      var data := LoadBytes(q);
      return Some(Found(media, q, data));
    }
  }

  // ---------------------------------------------------------------- one connection

  class ConnectionHandler {
    const manager: SegmentManager
    var incoming: seq<string>
    var sent: string
    ghost var replies: seq<Response>
    ghost var dropped: string

    /** What went out on the wire is the replies made so far, one after the other. */
    ghost predicate Valid()
      reads this, manager
    {
      manager.Valid() && sent == WireAll(replies)
    }

    constructor (manager: SegmentManager, incoming: seq<string>)
      requires manager.Valid()
      ensures Valid() && this.manager == manager && this.incoming == incoming && replies == [] && dropped == ""
    {
      this.manager, this.incoming, sent, replies, dropped := manager, incoming, "", [], "";
    }

    method ReadRequestLine() returns (line: Option<string>)
      requires Valid()
      modifies this`incoming, this`dropped
      ensures Valid()
      ensures match ReadLineFrom("", old(incoming))
              case Closed(_) => line.None? && dropped == old(dropped) && incoming == []
              case TooLong(buf, rest) => line.None? && dropped == old(dropped) + buf && incoming == rest
              case Line(text, extra, rest) =>
                line == Some(text) && dropped == old(dropped) + extra && incoming == rest
    {
      var buf := "";
      while Find(buf, '\n').None?
        invariant dropped == old(dropped)
        invariant ReadLineFrom(buf, incoming) == ReadLineFrom("", old(incoming))
        decreases |incoming|
      {
        if incoming == [] {
          return None;
        }
        buf, incoming := buf + incoming[0], incoming[1..];
        if |buf| > MAX_REQUEST {
          dropped := dropped + buf;
          return None;
        }
      }
      var n := Find(buf, '\n').value;
      dropped := dropped + buf[n + 1..];
      return Some(Strip(buf[..n]));
    }

    method Send(reply: Response)
      requires Valid()
      modifies this`sent, this`replies
      ensures Valid() && replies == old(replies) + [reply]
    {
      WireAllAppend(replies, reply);
      sent := sent + BuildResponseHeader(reply.fields);
      sent := sent + reply.payload;
      replies := replies + [reply];
    }

    /** Answers one request line; `open` says whether the connection goes on. */
    method Handle(line: string) returns (open: bool)
      requires Valid()
      modifies this`sent, this`replies, manager
      ensures Valid()
      ensures replies == old(replies) + [ReplyTo(manager.media, line)]
      ensures open <==> StaysOpen(manager.media, line)
    {
      hide ParseSegmentRequest;
      match ParseSegmentRequest(line, manager.media.segmentCount)
      case Failure(Missing) =>
        Send(Status(404));
        return true;
      case Failure(Bad) =>
        Send(Status(400));
        return false;
      case Success(q) =>
        var segment := manager.Resolve(q);
        Send(if segment.None? then Status(404) else segment.value);
        return true;
    }

    method Run()
      requires Valid()
      modifies this, manager
      ensures Valid()
      ensures replies == old(replies) + Serve(manager.media, old(incoming)).0
      ensures dropped == old(dropped) + Serve(manager.media, old(incoming)).1
    {
      hide ReplyTo, StaysOpen, ReadLineFrom, Serve, WireAll;
      ghost var total := Serve(manager.media, incoming);
      while true
        invariant Valid()
        invariant old(replies) + total.0 == replies + Serve(manager.media, incoming).0
        invariant old(dropped) + total.1 == dropped + Serve(manager.media, incoming).1
        decreases |incoming|
      {
        ServeStep(manager.media, incoming);
        var line := ReadRequestLine();
        if line.None? {
          assert replies + [] == replies;
          break;
        }
        var open := Handle(line.value);
        if !open {
          break;
        }
      }
    }
  }

  lemma ReplyLast(a: string, b: string, c: string, d: string)
    ensures a + (b + c + d) == a + b + c + d
  {
  }

  lemma {:induction false} WireAllAppend(rs: seq<Response>, r: Response)
    ensures WireAll(rs + [r]) == WireAll(rs) + BuildResponseHeader(r.fields) + r.payload
    decreases |rs|
  {
    if rs == [] {
      assert rs + [r] == [r];
      assert WireAll([]) + BuildResponseHeader(r.fields) + r.payload == r.Wire() + "";
    } else {
      WireAllAppend(rs[1..], r);
      assert (rs + [r])[1..] == rs[1..] + [r];
      ReplyLast(rs[0].Wire(), WireAll(rs[1..]), BuildResponseHeader(r.fields), r.payload);
    }
  }

  /** One round of the serving loop. */
  lemma ServeStep(media: Media, chunks: seq<string>)
    ensures ReadLineFrom("", chunks).Closed? ==> Serve(media, chunks) == ([], "")
    ensures ReadLineFrom("", chunks).TooLong? ==> Serve(media, chunks) == ([], ReadLineFrom("", chunks).buf)
    ensures ReadLineFrom("", chunks).Line? ==>
              var read := ReadLineFrom("", chunks);
              var reply := ReplyTo(media, read.line);
              && |read.rest| < |chunks|
              && Serve(media, chunks)
                 == if StaysOpen(media, read.line)
                    then ([reply] + Serve(media, read.rest).0, read.dropped + Serve(media, read.rest).1)
                    else ([reply], read.dropped)
  {
    LineTakesChunk("", chunks);
  }

  // ---------------------------------------------------------------- what grouping of requests does

  lemma {:induction false} PaddedCharacters(s: string, width: nat)
    requires All(s, IsDigit)
    ensures All(Padded(s, width), IsDigit)
    decreases width - |s|
  {
    if |s| < width {
      PaddedCharacters("0" + s, width);
    }
  }

  lemma NumberHasNoNewline(n: int)
    ensures '\n' !in PaddedText(n)
  {
    PaddedCharacters(Decimal(if n < 0 then -n else n), if n < 0 then 2 else 3);
  }

  lemma LineHasNoNewline(q: Request)
    requires '\n' !in q.representation
    ensures '\n' !in RequestLine(q)
  {
    NumberHasNoNewline(q.segmentId);
  }

  /** A request is one line: its newline is its last byte, and stripping the rest gives the line printed. */
  lemma RequestIsOneLine(q: Request)
    requires '\n' !in q.representation
    ensures Find(BuildRequest(q), '\n') == Some(|BuildRequest(q)| - 1)
    ensures Strip(BuildRequest(q)[..|BuildRequest(q)| - 1]) == RequestLine(q)
  {
    var line, bytes := RequestLine(q), BuildRequest(q);
    LineHasNoNewline(q);
    assert bytes[..|bytes| - 1] == "" + line + "\r";
    assert bytes[|bytes| - 1] == '\n';
    StripPadded("", line, "\r");
    forall i | 0 <= i < |bytes| - 1 ensures bytes[i] != '\n' {
      assert i < |line| ==> bytes[i] == line[i];
    }
  }

  /** Bytes that are one line. */
  ghost predicate OneLine(s: string) { |s| <= MAX_REQUEST && Find(s, '\n') == Some(|s| - 1) }

  function LineOf(s: string): string
    requires s != ""
  {
    Strip(s[..|s| - 1])
  }

  lemma LineEnds(buf: string, chunks: seq<string>)
    requires Find(buf, '\n').Some?
    ensures var n := Find(buf, '\n').value; ReadLineFrom(buf, chunks) == Line(Strip(buf[..n]), buf[n + 1..], chunks)
  {
  }

  lemma LineGoesOn(buf: string, chunks: seq<string>)
    requires Find(buf, '\n').None? && chunks != [] && |buf + chunks[0]| <= MAX_REQUEST
    ensures ReadLineFrom(buf, chunks) == ReadLineFrom(buf + chunks[0], chunks[1..])
  {
  }

  lemma PieceRead(piece: string, more: string, chunks: seq<string>)
    requires OneLine(piece) && |piece + more| <= MAX_REQUEST
    ensures ReadLineFrom("", [piece + more] + chunks) == Line(LineOf(piece), more, chunks)
  {
    hide Strip, ReadLineFrom;
    var all, first := [piece + more] + chunks, piece + more;
    var n := |piece| - 1;
    assert all[0] == first && all[1..] == chunks && "" + first == first;
    assert first[..n] == piece[..n] && first[n + 1..] == more;
    assert Find(first, '\n') == Some(n);
    LineGoesOn("", all);
    LineEnds(first, chunks);
  }

  ghost predicate NewlineLast(s: string) { forall i :: 0 <= i < |s| - 1 ==> s[i] != '\n' }

  ghost predicate AllNewlineLast(chunks: seq<string>) { forall i :: 0 <= i < |chunks| ==> NewlineLast(chunks[i]) }

  lemma FirstNewlineInPiece(buf: string, piece: string)
    requires Find(buf, '\n').None? && Find(buf + piece, '\n').Some?
    ensures (buf + piece)[Find(buf + piece, '\n').value + 1..] == "" <==> NewlineLast(piece)
  {
    var all, n := buf + piece, Find(buf + piece, '\n').value;
    assert |buf| <= n && piece[n - |buf|] == '\n';
    assert forall i :: |buf| <= i < n ==> all[i] == piece[i - |buf|];
    forall i | 0 <= i < n - |buf| ensures piece[i] != '\n' {
      assert all[|buf| + i] == piece[i];
    }
  }

  /** Reading one line drops nothing exactly when newlines only ever end the pieces it uses up. */
  lemma {:induction false} LineDropsExactly(buf: string, chunks: seq<string>)
    requires Find(buf, '\n').None? && ReadLineFrom(buf, chunks).Line?
    ensures var read := ReadLineFrom(buf, chunks);
            && |read.rest| < |chunks|
            && read.rest == chunks[|chunks| - |read.rest|..]
            && (read.dropped == "" <==> AllNewlineLast(chunks[..|chunks| - |read.rest|]))
    decreases |chunks|
  {
    var next, later := buf + chunks[0], chunks[1..];
    if Find(next, '\n').None? {
      LineDropsExactly(next, later);
      var used := |later| - |ReadLineFrom(next, later).rest|;
      assert chunks[..used + 1] == [chunks[0]] + later[..used];
      forall i | 0 <= i < |chunks[0]| ensures chunks[0][i] != '\n' {
        assert next[|buf| + i] == chunks[0][i];
      }
    } else {
      FirstNewlineInPiece(buf, chunks[0]);
      assert chunks[..1] == [chunks[0]];
    }
  }

  /** Short of a newline, a read ends for length exactly when what arrives exceeds the limit. */
  lemma {:induction false} LineOutgrows(buf: string, chunks: seq<string>)
    requires Find(buf, '\n').None? && |buf| <= MAX_REQUEST && !ReadLineFrom(buf, chunks).Line?
    ensures ReadLineFrom(buf, chunks).TooLong? <==> MAX_REQUEST < |buf + Flat(chunks)|
    ensures ReadLineFrom(buf, chunks).TooLong? ==> ReadLineFrom(buf, chunks).buf != ""
    decreases |chunks|
  {
    if chunks != [] {
      var next := buf + chunks[0];
      assert buf + Flat(chunks) == next + Flat(chunks[1..]);
      if |next| <= MAX_REQUEST && Find(next, '\n').None? {
        LineOutgrows(next, chunks[1..]);
      }
    }
  }

  lemma FirstFound(buf: string, n: nat)
    requires n < |buf| && buf[n] == '\n' && '\n' !in buf[..n]
    ensures Find(buf, '\n') == Some(n)
  {
  }

  /**
   The line read is what comes before the first newline, stripped; the piece with that newline is taken
   whole, and the rest of it goes; unless what has arrived by then is longer than 4096 bytes.
   */
  lemma {:induction false} LineExactly(buf: string, chunks: seq<string>, k: nat, n: nat)
    requires '\n' !in buf && 1 <= k <= |chunks| && '\n' !in buf + Flat(chunks[..k - 1])
    requires var read := buf + Flat(chunks[..k]); n < |read| && read[n] == '\n' && '\n' !in read[..n]
    ensures var read := buf + Flat(chunks[..k]);
            if |read| <= 4096 then ReadLineFrom(buf, chunks) == Line(Strip(read[..n]), read[n + 1..], chunks[k..])
            else ReadLineFrom(buf, chunks).TooLong?
    decreases k
  {
    var next, later := buf + chunks[0], chunks[1..];
    assert chunks[..k] == [chunks[0]] + later[..k - 1];
    assert buf + Flat(chunks[..k]) == next + Flat(later[..k - 1]);
    assert Find(buf, '\n').None?;
    hide Strip;
    if k == 1 {
      assert later[..0] == [] && next + "" == next;
      FirstFound(next, n);
    } else {
      assert chunks[..k - 1] == [chunks[0]] + later[..k - 2];
      assert buf + Flat(chunks[..k - 1]) == next + Flat(later[..k - 2]);
      assert forall i :: 0 <= i < |next| ==> next[i] == (next + Flat(later[..k - 2]))[i];
      assert '\n' !in next;
      LineExactly(next, later, k - 1, n);
    }
  }

  /** The pieces used up by the lines that are answered. */
  function Heard(media: Media, chunks: seq<string>): seq<string>
    decreases |chunks|
  {
    match ReadLineFrom("", chunks)
    case Line(line, _, rest) =>
      LineTakesChunk("", chunks);
      chunks[..|chunks| - |rest|] + if StaysOpen(media, line) then Heard(media, rest) else []
    case _ => []
  }

  /** The server ends the connection over a malformed line. */
  predicate EndsInHangUp(media: Media, chunks: seq<string>)
    decreases |chunks|
  {
    match ReadLineFrom("", chunks)
    case Line(line, _, rest) =>
      LineTakesChunk("", chunks);
      !StaysOpen(media, line) || EndsInHangUp(media, rest)
    case _ => false
  }

  lemma HeardUnfolds(media: Media, chunks: seq<string>)
    ensures !ReadLineFrom("", chunks).Line? ==> Heard(media, chunks) == [] && !EndsInHangUp(media, chunks)
    ensures ReadLineFrom("", chunks).Line? ==>
              var read := ReadLineFrom("", chunks);
              && |read.rest| < |chunks|
              && Heard(media, chunks)
                 == chunks[..|chunks| - |read.rest|]
                    + (if StaysOpen(media, read.line) then Heard(media, read.rest) else [])
              && (EndsInHangUp(media, chunks) <==> !StaysOpen(media, read.line) || EndsInHangUp(media, read.rest))
  {
    hide StaysOpen;
    LineTakesChunk("", chunks);
  }

  lemma {:induction false} HeardIsPrefix(media: Media, chunks: seq<string>)
    ensures Heard(media, chunks) <= chunks
    decreases |chunks|
  {
    hide StaysOpen, ReadLineFrom, Heard, EndsInHangUp;
    HeardUnfolds(media, chunks);
    if ReadLineFrom("", chunks).Line? {
      LineDropsExactly("", chunks);
      HeardIsPrefix(media, ReadLineFrom("", chunks).rest);
    }
  }

  /** What arrives after the last line that is answered. */
  function Unheard(media: Media, chunks: seq<string>): seq<string> {
    HeardIsPrefix(media, chunks);
    chunks[|Heard(media, chunks)|..]
  }

  /** The last line is not longer than the server's limit, or it is never read. */
  predicate EndsWithin(media: Media, chunks: seq<string>) {
    EndsInHangUp(media, chunks) || |Flat(Unheard(media, chunks))| <= MAX_REQUEST
  }

  lemma UnheardLater(media: Media, chunks: seq<string>)
    requires ReadLineFrom("", chunks).Line? && StaysOpen(media, ReadLineFrom("", chunks).line)
    ensures Unheard(media, chunks) == Unheard(media, ReadLineFrom("", chunks).rest)
  {
    hide StaysOpen, ReadLineFrom, Heard, EndsInHangUp;
    HeardUnfolds(media, chunks);
    LineDropsExactly("", chunks);
    HeardIsPrefix(media, chunks);
    HeardIsPrefix(media, ReadLineFrom("", chunks).rest);
  }

  /**
   The server throws no byte away exactly when newlines only ever end the pieces it hears, and the
   rest is no over-long line.
   */
  lemma {:induction false} DropsNothingExactly(media: Media, chunks: seq<string>)
    ensures Serve(media, chunks).1 == "" <==> AllNewlineLast(Heard(media, chunks)) && EndsWithin(media, chunks)
    decreases |chunks|
  {
    hide ReplyTo, StaysOpen, NewlineLast, ReadLineFrom, Serve, Heard, EndsInHangUp, Unheard;
    ServeStep(media, chunks);
    HeardUnfolds(media, chunks);
    if ReadLineFrom("", chunks).Line? {
      LineDropsExactly("", chunks);
      var read := ReadLineFrom("", chunks);
      var used := chunks[..|chunks| - |read.rest|];
      if StaysOpen(media, read.line) {
        DropsNothingExactly(media, read.rest);
        AllOf(used, Heard(media, read.rest));
        UnheardLater(media, chunks);
      } else {
        assert used + [] == used;
      }
    } else {
      LineOutgrows("", chunks);
      NothingHeard(media, chunks);
      assert "" + Flat(chunks) == Flat(chunks);
    }
  }

  lemma NothingHeard(media: Media, chunks: seq<string>)
    requires Heard(media, chunks) == []
    ensures Unheard(media, chunks) == chunks
  {
  }

  lemma AllOf(a: seq<string>, b: seq<string>)
    ensures AllNewlineLast(a + b) <==> AllNewlineLast(a) && AllNewlineLast(b)
  {
    hide NewlineLast;
    if AllNewlineLast(a + b) {
      assert forall i :: 0 <= i < |a| ==> (a + b)[i] == a[i];
      assert forall i :: 0 <= i < |b| ==> (a + b)[|a| + i] == b[i];
    }
  }

  /** The over-long line a connection ends in, if it does. */
  function Overlong(media: Media, chunks: seq<string>): string
    decreases |chunks|
  {
    match ReadLineFrom("", chunks)
    case Closed(_) => ""
    case TooLong(buf, _) => buf
    case Line(line, _, rest) =>
      LineTakesChunk("", chunks);
      if StaysOpen(media, line) then Overlong(media, rest) else ""
  }

  /** When newlines only ever end what arrives, nothing is thrown away but an over-long line. */
  lemma {:induction false} OnlyOverlongDropped(media: Media, chunks: seq<string>)
    requires AllNewlineLast(chunks)
    ensures Serve(media, chunks).1 == Overlong(media, chunks)
    decreases |chunks|
  {
    hide ReplyTo, StaysOpen, NewlineLast, ReadLineFrom;
    ServeStep(media, chunks);
    if ReadLineFrom("", chunks).Line? {
      LineDropsExactly("", chunks);
      OnlyOverlongDropped(media, ReadLineFrom("", chunks).rest);
    }
  }

  lemma {:induction false} FillsUp(buf: string, fill: seq<string>, last: string)
    requires '\n' !in buf && (forall i :: 0 <= i < |fill| ==> '\n' !in fill[i])
    requires |buf + Flat(fill)| <= MAX_REQUEST < |buf + Flat(fill) + last|
    ensures ReadLineFrom(buf, fill + [last]) == TooLong(buf + Flat(fill) + last, [])
    decreases |fill|
  {
    var all := fill + [last];
    assert Find(buf, '\n').None?;
    if fill == [] {
      assert all == [last] && all[1..] == [] && buf + Flat(fill) == buf;
    } else {
      assert all[0] == fill[0] && all[1..] == fill[1..] + [last];
      assert buf + Flat(fill) == (buf + fill[0]) + Flat(fill[1..]);
      FillsUp(buf + fill[0], fill[1..], last);
    }
  }

  /** A piece that carries a line past the limit goes with it, whatever whole requests it contains. */
  lemma OverlongTakesPiece(media: Media, fill: seq<string>, last: string)
    requires forall i :: 0 <= i < |fill| ==> '\n' !in fill[i]
    requires |Flat(fill)| <= MAX_REQUEST < |Flat(fill) + last|
    ensures Serve(media, fill + [last]) == ([], Flat(fill) + last)
    ensures AllNewlineLast(Heard(media, fill + [last]))
  {
    hide ReadLineFrom;
    assert "" + Flat(fill) == Flat(fill);
    FillsUp("", fill, last);
    ServeStep(media, fill + [last]);
    HeardUnfolds(media, fill + [last]);
  }

  lemma ServeNothing(media: Media)
    ensures Serve(media, []) == ([], "")
  {
  }

  lemma ServeLast(media: Media, piece: string, more: string)
    requires OneLine(piece) && |piece + more| <= MAX_REQUEST
    ensures Serve(media, [piece + more]) == ([ReplyTo(media, LineOf(piece))], more)
  {
    hide ReplyTo, StaysOpen;
    PieceRead(piece, more, []);
    assert [piece + more] + [] == [piece + more];
    ServeStep(media, [piece + more]);
    ServeNothing(media);
    var replies: seq<Response> := [ReplyTo(media, LineOf(piece))];
    assert replies + [] == replies && more + "" == more;
  }

  /**
   Two request lines sent without waiting are both answered if they arrive as two pieces, but the
   second one vanishes if they arrive as one: the reader is only correct for a client that waits.
   */
  lemma {:induction false} PipelinedRequestIsLost(media: Media, first: string, second: string)
    requires OneLine(first) && OneLine(second) && |first + second| <= MAX_REQUEST
    requires StaysOpen(media, LineOf(first))
    ensures Serve(media, [first, second])
            == ([ReplyTo(media, LineOf(first)), ReplyTo(media, LineOf(second))], "")
    ensures Serve(media, [first + second]) == ([ReplyTo(media, LineOf(first))], second)
  {
    hide ReplyTo, StaysOpen;
    ServeLast(media, first, second);
    assert first + "" == first && second + "" == second;
    PieceRead(first, "", [second]);
    assert [first] + [second] == [first, second];
    ServeStep(media, [first, second]);
    ServeLast(media, second, "");
    var one: seq<Response> := [ReplyTo(media, LineOf(first))];
    var two: seq<Response> := [ReplyTo(media, LineOf(second))];
    assert one + two == [one[0], two[0]] && "" + "" == "";
    assert Serve(media, [second]) == (two, "");
    assert ReadLineFrom("", [first, second]) == Line(LineOf(first), "", [second]);
  }
}
