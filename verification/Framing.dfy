/**
 Reading responses off a byte stream that arrives in arbitrary pieces. The functions say what the
 stream means; the socket client, which only sees pieces, is proved to agree with them.
 */
module Framing {
  import opened Wrappers
  import opened Text
  import opened Headers
  import Protocol

  const MAX_HEADER_LINES := 32

  datatype FetchError = HeaderTooLarge | Malformed(error: HeaderError)

  /** A read either needs bytes that have not arrived, is refused, or takes a value off the stream. */
  datatype Read<+T> = More(rest: string) | Refused(error: FetchError, rest: string) | Taken(value: T, rest: string)

  function ReadHeader(s: string, lines: seq<string>): Read<Header>
    decreases |s|
  {
    match FindCrlf(s)
    case None => More(s)
    case Some(n) =>
      var all := lines + [s[..n]];
      var rest := s[n + 2..];
      if Strip(s[..n]) == DATA_LINE then Closed(all, rest)
      else if |all| > MAX_HEADER_LINES then Refused(HeaderTooLarge, rest)
      else ReadHeader(rest, all)
  }

  /** The verdict on a header whose DATA line has been read. */
  function Closed(lines: seq<string>, rest: string): Read<Header> {
    match ParseHeader(Joined(lines))
    case Success(header) => Taken(header, rest)
    case Failure(error) => Refused(Malformed(error), rest)
  }

  function Fetch(s: string): Read<(Header, string)> {
    match ReadHeader(s, [])
    case More(rest) => More(rest)
    case Refused(error, rest) => Refused(error, rest)
    case Taken(header, rest) =>
      TakenSize(s, []);
      TakeBody(header, rest)
  }

  function TakeBody(header: Header, rest: string): Read<(Header, string)>
    requires 0 <= header.size
  {
    if |rest| < header.size then More(rest)
    else Taken((header, rest[..header.size]), rest[header.size..])
  }

  lemma {:induction false} TakenSize(s: string, lines: seq<string>)
    ensures ReadHeader(s, lines).Taken? ==> 0 <= ReadHeader(s, lines).value.size
    decreases |s|
  {
    var end := FindCrlf(s);
    if end.Some? {
      TakenSize(s[end.value + 2..], lines + [s[..end.value]]);
    }
  }

  // ---------------------------------------------------------------- more bytes never change a finished read

  function Extend<T>(r: Read<T>, more: string): Read<T> { r.(rest := r.rest + more) }

  lemma {:induction false} HeaderStable(s: string, more: string, lines: seq<string>)
    requires !ReadHeader(s, lines).More?
    ensures ReadHeader(s + more, lines) == Extend(ReadHeader(s, lines), more)
    decreases |s|
  {
    CrlfStable(s, more);
    var n := FindCrlf(s).value;
    assert (s + more)[..n] == s[..n];
    assert (s + more)[n + 2..] == s[n + 2..] + more;
    var all := lines + [s[..n]];
    if Strip(s[..n]) != DATA_LINE && |all| <= MAX_HEADER_LINES {
      HeaderStable(s[n + 2..], more, all);
    }
  }

  lemma BodyStable(header: Header, rest: string, more: string)
    requires 0 <= header.size <= |rest|
    ensures TakeBody(header, rest + more) == Extend(TakeBody(header, rest), more)
  {
    assert (rest + more)[..header.size] == rest[..header.size];
    assert (rest + more)[header.size..] == rest[header.size..] + more;
  }

  /** A fetch that has ended, well or badly, ends the same way when more bytes have arrived. */
  lemma FetchStable(s: string, more: string)
    requires !Fetch(s).More?
    ensures Fetch(s + more) == Extend(Fetch(s), more)
  {
    HeaderStable(s, more, []);
    TakenSize(s, []);
    if ReadHeader(s, []).Taken? {
      BodyStable(ReadHeader(s, []).value, ReadHeader(s, []).rest, more);
    }
  }

  // ---------------------------------------------------------------- framing of whole responses

  datatype Response = Response(fields: Fields, payload: string) {
    predicate Valid() { fields.size == |payload| && Plain(fields.representation) }

    function Wire(): string { BuildResponseHeader(fields) + payload }
  }

  lemma LineTaken(before: seq<string>, line: string, rest: string)
    requires Plain(line)
    ensures ReadHeader(line + CRLF + rest, before)
            == (var all := before + [line];
                if Strip(line) == DATA_LINE then Closed(all, rest)
                else if |all| > MAX_HEADER_LINES then Refused(HeaderTooLarge, rest)
                else ReadHeader(rest, all))
  {
    assert '\r' !in line;
    CrlfAfter(line, rest);
    var s := line + CRLF + rest;
    assert s[..|line|] == line && s[|line| + 2..] == rest;
  }

  lemma JoinedCons(line: string, lines: seq<string>, tail: string)
    ensures Joined([line] + lines) + tail == line + CRLF + (Joined(lines) + tail)
  {
    assert ([line] + lines)[1..] == lines;
  }

  lemma JoinedNone(lines: seq<string>, tail: string)
    requires lines == []
    ensures Joined(lines) + tail == tail
  {
  }

  lemma {:induction false} LinesTaken(all: seq<string>, k: nat, tail: string)
    requires k < |all| <= MAX_HEADER_LINES
    requires forall i :: 0 <= i < |all| ==> Plain(all[i])
    requires forall i :: 0 <= i < |all| ==> (Strip(all[i]) == DATA_LINE <==> i == |all| - 1)
    ensures ReadHeader(Joined(all[k..]) + tail, all[..k]) == Closed(all, tail)
    decreases |all| - k
  {
    hide ReadHeader, Strip, FindCrlf, Joined, Closed;
    assert all[k..] == [all[k]] + all[k + 1..];
    JoinedCons(all[k], all[k + 1..], tail);
    LineTaken(all[..k], all[k], Joined(all[k + 1..]) + tail);
    assert all[..k] + [all[k]] == all[..k + 1];
    if k + 1 == |all| {
      JoinedNone(all[k + 1..], tail);
      assert all[..k + 1] == all;
    } else {
      LinesTaken(all, k + 1, tail);
    }
  }

  /** Lines none of which ends a header. */
  ghost predicate Inner(lines: seq<string>) {
    forall i :: 0 <= i < |lines| ==> Plain(lines[i]) && Strip(lines[i]) != "DATA"
  }

  lemma {:induction false} LinesGoBy(before: seq<string>, lines: seq<string>, tail: string)
    requires Inner(lines)
    ensures |before + lines| <= 32 ==> ReadHeader(Joined(lines) + tail, before) == ReadHeader(tail, before + lines)
    ensures |before| <= 32 < |before + lines| ==>
              ReadHeader(Joined(lines) + tail, before)
              == Refused(HeaderTooLarge, Joined(lines[33 - |before|..]) + tail)
    decreases |lines|
  {
    hide ReadHeader, Strip, FindCrlf, Joined;
    if lines == [] {
      JoinedNone(lines, tail);
      assert before + lines == before;
    } else {
      var rest := lines[1..];
      assert lines == [lines[0]] + rest && before + lines == (before + [lines[0]]) + rest;
      JoinedCons(lines[0], rest, tail);
      LineTaken(before, lines[0], Joined(rest) + tail);
      LinesGoBy(before + [lines[0]], rest, tail);
      assert Strip(lines[0]) != "DATA";
      if |before| < 32 {
        assert 33 - |before| <= |lines| ==> rest[32 - |before|..] == lines[33 - |before|..];
      }
    }
  }

  /** A header is read to its DATA line if at most 32 lines precede that; after 33 without it, it is refused. */
  lemma HeaderLimit(lines: seq<string>, tail: string)
    requires Inner(lines)
    ensures |lines| <= 32 ==> ReadHeader(Joined(lines) + ("DATA" + CRLF + tail), []) == Closed(lines + ["DATA"], tail)
    ensures |lines| > 32 ==>
              ReadHeader(Joined(lines) + tail, []) == Refused(HeaderTooLarge, Joined(lines[33..]) + tail)
  {
    hide ReadHeader, Strip, Closed, Joined, Inner, FindCrlf;
    assert [] + lines == lines;
    DataEnds(lines, tail);
    LinesGoBy([], lines, tail);
    LinesGoBy([], lines, "DATA" + CRLF + tail);
  }

  lemma DataEnds(before: seq<string>, tail: string)
    ensures ReadHeader("DATA" + CRLF + tail, before) == Closed(before + ["DATA"], tail)
  {
    StripTrimmed("DATA");
    hide ReadHeader, Strip, Closed, FindCrlf;
    LineTaken(before, "DATA", tail);
  }

  lemma {:induction false} OnlyLastIsData(pairs: seq<(string, string)>)
    requires Keyed(pairs)
    ensures var lines := Lines(pairs);
            && |lines| == |pairs| + 1
            && forall i :: 0 <= i < |lines| ==> (Strip(lines[i]) == DATA_LINE <==> i == |pairs|)
    decreases |pairs|
  {
    if pairs == [] {
      StripTrimmed(DATA_LINE);
    } else {
      FieldIsNotData(pairs[0].0, pairs[0].1);
      OnlyLastIsData(pairs[1..]);
    }
  }

  lemma {:induction false} HeaderTaken(f: Fields, tail: string)
    requires Plain(f.representation) && 0 <= f.size
    ensures ReadHeader(BuildResponseHeader(f) + tail, []) == Taken(Received(f), tail)
  {
    var lines := Lines(Pairs(f));
    PairsKeyed(f);
    OnlyLastIsData(Pairs(f));
    PairsPlain(f);
    LinesPlain(Pairs(f));
    LinesTaken(lines, 0, tail);
    assert lines[0..] == lines && lines[..0] == [];
    HeaderRoundTrip(f);
  }

  /** One response, whatever its payload contains and whatever follows it, is taken off whole. */
  lemma FetchTakesResponse(r: Response, tail: string)
    requires r.Valid()
    ensures Fetch(r.Wire() + tail) == Taken((Received(r.fields), r.payload), tail)
  {
    HeaderTaken(r.fields, r.payload + tail);
    assert BuildResponseHeader(r.fields) + (r.payload + tail) == r.Wire() + tail;
    assert (r.payload + tail)[..|r.payload|] == r.payload;
    assert (r.payload + tail)[|r.payload|..] == tail;
  }

  function WireAll(rs: seq<Response>): string {
    if rs == [] then "" else rs[0].Wire() + WireAll(rs[1..])
  }

  /** The values of n successive fetches, as far as the stream supports them, and the bytes left. */
  function FetchMany(s: string, n: nat): (seq<(Header, string)>, string)
    decreases n
  {
    if n == 0 || !Fetch(s).Taken? then ([], s)
    else
      var later := FetchMany(Fetch(s).rest, n - 1);
      ([Fetch(s).value] + later.0, later.1)
  }

  /** Framing: back-to-back responses come off the stream one by one, in order and complete. */
  lemma {:induction false} FramingRoundTrip(rs: seq<Response>, tail: string)
    requires forall i :: 0 <= i < |rs| ==> rs[i].Valid()
    ensures FetchMany(WireAll(rs) + tail, |rs|).1 == tail
    ensures var values := FetchMany(WireAll(rs) + tail, |rs|).0;
            && |values| == |rs|
            && forall i :: 0 <= i < |rs| ==> values[i] == (Received(rs[i].fields), rs[i].payload)
    decreases |rs|
  {
    hide Fetch, BuildResponseHeader, Received;
    if rs == [] {
      assert WireAll(rs) + tail == tail;
    } else {
      assert WireAll(rs) + tail == rs[0].Wire() + (WireAll(rs[1..]) + tail);
      FetchTakesResponse(rs[0], WireAll(rs[1..]) + tail);
      FramingRoundTrip(rs[1..], tail);
    }
  }

  // ---------------------------------------------------------------- the socket client

  function Flat(chunks: seq<string>): string {
    if chunks == [] then "" else chunks[0] + Flat(chunks[1..])
  }

  datatype SocketError = NotConnected | ConnectionClosed | BadReply(error: FetchError)

  /** A connection whose peer's bytes arrive as the given pieces and then end. */
  class SocketClient {
    var connected: bool
    var buf: string
    var incoming: seq<string>
    var sent: string

    /** The bytes not yet consumed: those buffered and those still to be delivered. */
    ghost function Stream(): string
      reads this
    {
      buf + Flat(incoming)
    }

    constructor (incoming: seq<string>)
      ensures connected && Stream() == Flat(incoming) && sent == ""
    {
      connected, buf, this.incoming, sent := true, "", incoming, "";
    }

    method RecvMore() returns (ok: bool)
      modifies this`buf, this`incoming
      ensures Stream() == old(Stream())
      ensures ok <==> old(incoming) != []
      ensures ok ==> incoming == old(incoming)[1..]
      ensures !ok ==> buf == old(buf) && incoming == []
    {
      if incoming == [] {
        return false;
      }
      assert buf + Flat(incoming) == (buf + incoming[0]) + Flat(incoming[1..]);
      buf := buf + incoming[0];
      incoming := incoming[1..];
      return true;
    }

    method ReadLine() returns (r: Option<string>)
      modifies this`buf, this`incoming
      ensures var end := FindCrlf(old(Stream()));
              && (end.None? ==> r.None? && Stream() == old(Stream()))
              && (end.Some? ==> && r == Some(old(Stream())[..end.value])
                                && Stream() == old(Stream())[end.value + 2..])
    {
      while FindCrlf(buf).None?
        invariant Stream() == old(Stream())
        decreases |incoming|
      {
        var ok := RecvMore();
        if !ok {
          assert Stream() == buf;
          return None;
        }
      }
      var n := FindCrlf(buf).value;
      CrlfStable(buf, Flat(incoming));
      var line := buf[..n];
      assert old(Stream())[..n] == line;
      assert old(Stream())[n + 2..] == buf[n + 2..] + Flat(incoming);
      buf := buf[n + 2..];
      return Some(line);
    }

    method ReadHeaderLines() returns (r: Result<Header, SocketError>)
      modifies this`buf, this`incoming
      ensures Agrees(r, ReadHeader(old(Stream()), [])) && Stream() == ReadHeader(old(Stream()), []).rest
    {
      var lines: seq<string> := [];
      while true
        invariant ReadHeader(Stream(), lines) == ReadHeader(old(Stream()), [])
        decreases |Stream()|
      {
        var line := ReadLine();
        if line.None? {
          return Failure(ConnectionClosed);
        }
        lines := lines + [line.value];
        if Strip(line.value) == DATA_LINE {
          break;
        }
        if |lines| > MAX_HEADER_LINES {
          return Failure(BadReply(HeaderTooLarge));
        }
      }
      var parsed := ParseResponseHeader(Joined(lines));
      match parsed
      case Success(header) => r := Success(header);
      case Failure(error) => r := Failure(BadReply(Malformed(error)));
    }

    method ReadExact(n: nat) returns (r: Option<string>)
      modifies this`buf, this`incoming
      ensures |old(Stream())| < n ==> r.None? && Stream() == old(Stream())
      ensures n <= |old(Stream())| ==> r == Some(old(Stream())[..n]) && Stream() == old(Stream())[n..]
    {
      while |buf| < n
        invariant Stream() == old(Stream())
        decreases |incoming|
      {
        var ok := RecvMore();
        if !ok {
          assert Stream() == buf;
          return None;
        }
      }
      var data := buf[..n];
      assert old(Stream())[..n] == data;
      assert old(Stream())[n..] == buf[n..] + Flat(incoming);
      buf := buf[n..];
      return Some(data);
    }

    /** One request and its reply: the outcome depends on the bytes received, not on their grouping. */
    method FetchSegment(q: Protocol.Request) returns (r: Result<(Header, string), SocketError>)
      modifies this
      ensures connected == old(connected)
      ensures !connected ==> r == Failure(NotConnected) && Stream() == old(Stream()) && sent == old(sent)
      ensures connected ==> && sent == old(sent) + Protocol.BuildRequest(q)
                            && Agrees(r, Fetch(old(Stream())))
                            && Stream() == Fetch(old(Stream())).rest
    {
      if !connected {
        return Failure(NotConnected);
      }
      sent := sent + Protocol.BuildRequest(q);
      TakenSize(Stream(), []);
      var header := ReadHeaderLines();
      if header.Failure? {
        return Failure(header.error);
      }
      var size := header.value.size;
      var body: Option<string> := Some("");
      if size != 0 {
        body := ReadExact(size);
      }
      if body.None? {
        return Failure(ConnectionClosed);
      }
      return Success((header.value, body.value));
    }
  }

  /** A result at the socket level and the meaning of the stream: running out of bytes is a closed connection. */
  ghost predicate Agrees<T>(r: Result<T, SocketError>, read: Read<T>) {
    match read
    case More(_) => r == Failure(ConnectionClosed)
    case Refused(error, _) => r == Failure(BadReply(error))
    case Taken(value, _) => r == Success(value)
  }

  // ---------------------------------------------------------------- piece by piece

  /** Looks for a whole reply after every piece; stops at the first one, good or bad, and leaves later pieces. */
  function Feed(buf: string, pieces: seq<string>): (Read<(Header, string)>, seq<string>)
    decreases |pieces|
  {
    if !Fetch(buf).More? || pieces == [] then (Fetch(buf), pieces) else Feed(buf + pieces[0], pieces[1..])
  }

  /** Feeding pieces until a fetch ends is fetching from all of them: same outcome, same bytes left. */
  lemma {:induction false} FeedIsFetch(buf: string, pieces: seq<string>)
    ensures var (read, later) := Feed(buf, pieces);
            Fetch(buf + Flat(pieces)) == Extend(read, Flat(later))
    decreases |pieces|
  {
    hide Fetch;
    if !Fetch(buf).More? {
      FetchStable(buf, Flat(pieces));
    } else if pieces == [] {
      assert buf + Flat(pieces) == buf && Fetch(buf).rest + "" == Fetch(buf).rest;
    } else {
      assert buf + Flat(pieces) == (buf + pieces[0]) + Flat(pieces[1..]);
      FeedIsFetch(buf + pieces[0], pieces[1..]);
    }
  }

  /** Fetches that have ended stay as they are when more arrives. */
  lemma {:induction false} FetchManyStable(s: string, n: nat, more: string)
    requires |FetchMany(s, n).0| == n
    ensures FetchMany(s + more, n) == (FetchMany(s, n).0, FetchMany(s, n).1 + more)
    decreases n
  {
    hide Fetch;
    if n != 0 {
      FetchStable(s, more);
      FetchManyStable(Fetch(s).rest, n - 1, more);
    }
  }

  lemma {:induction false} FetchManyNext(s: string, n: nat)
    requires |FetchMany(s, n).0| == n && Fetch(FetchMany(s, n).1).Taken?
    ensures var next := Fetch(FetchMany(s, n).1);
            FetchMany(s, n + 1) == (FetchMany(s, n).0 + [next.value], next.rest)
    decreases n
  {
    hide Fetch;
    if n == 0 {
      assert FetchMany(s, 0) == ([], s) && FetchMany(Fetch(s).rest, 0) == ([], Fetch(s).rest);
      var one := [Fetch(s).value];
      assert FetchMany(s, 1) == (one + [], Fetch(s).rest) && one + [] == [] + one;
    } else {
      FetchManyNext(Fetch(s).rest, n - 1);
      var later, next := FetchMany(Fetch(s).rest, n - 1), Fetch(FetchMany(s, n).1);
      assert [Fetch(s).value] + (later.0 + [next.value]) == ([Fetch(s).value] + later.0) + [next.value];
    }
  }

  lemma {:induction false} FlatAppend(pieces: seq<string>, piece: string)
    ensures Flat(pieces + [piece]) == Flat(pieces) + piece
    decreases |pieces|
  {
    if pieces == [] {
      assert pieces + [piece] == [piece];
    } else {
      assert (pieces + [piece])[1..] == pieces[1..] + [piece];
      FlatAppend(pieces[1..], piece);
    }
  }
}
