/** The server as an automaton that hears one piece at a time: the same answers and losses as its request loop. */
module Listening {
  import opened Text
  import opened Framing
  import opened Server

  /** Between two pieces: the unfinished line, or nothing more will be read. */
  datatype Reader = Partial(buf: string) | Gone

  datatype Hearing = Hearing(replies: seq<Response>, dropped: string, reader: Reader)

  const SILENCE := Hearing([], "", Partial(""))

  /** What one piece off the socket does. */
  function Hear(media: Media, h: Hearing, piece: string): Hearing {
    if h.reader.Gone? then h
    else
      var buf := h.reader.buf + piece;
      if |buf| > MAX_REQUEST then h.(dropped := h.dropped + buf, reader := Gone)
      else
        match Find(buf, '\n')
        case None => h.(reader := Partial(buf))
        case Some(end) => Replied(media, h, Strip(buf[..end]), buf[end + 1..])
  }

  function Replied(media: Media, h: Hearing, line: string, dropped: string): Hearing {
    Hearing(h.replies + [ReplyTo(media, line)], h.dropped + dropped,
            if StaysOpen(media, line) then Partial("") else Gone)
  }

  function Listen(media: Media, h: Hearing, chunks: seq<string>): Hearing
    decreases |chunks|
  {
    if chunks == [] then h else Listen(media, Hear(media, h, chunks[0]), chunks[1..])
  }

  lemma {:induction false} ListenAppend(media: Media, h: Hearing, chunks: seq<string>, piece: string)
    ensures Listen(media, h, chunks + [piece]) == Hear(media, Listen(media, h, chunks), piece)
    decreases |chunks|
  {
    hide Hear;
    if chunks == [] {
      assert chunks + [piece] == [piece] && [piece][1..] == [];
    } else {
      assert (chunks + [piece])[1..] == chunks[1..] + [piece];
      ListenAppend(media, Hear(media, h, chunks[0]), chunks[1..], piece);
    }
  }

  lemma {:induction false} GoneStays(media: Media, h: Hearing, chunks: seq<string>)
    requires h.reader.Gone?
    ensures Listen(media, h, chunks) == h
    decreases |chunks|
  {
    if chunks != [] {
      GoneStays(media, h, chunks[1..]);
    }
  }

  /** Hearing pieces until a line is complete is reading that line. */
  lemma {:induction false} ListenReadsLine(media: Media, h: Hearing, chunks: seq<string>)
    requires h.reader.Partial? && Find(h.reader.buf, '\n').None?
    ensures match ReadLineFrom(h.reader.buf, chunks)
            case Closed(_) =>
              Listen(media, h, chunks).replies == h.replies && Listen(media, h, chunks).dropped == h.dropped
            case TooLong(buf, _) =>
              Listen(media, h, chunks).replies == h.replies && Listen(media, h, chunks).dropped == h.dropped + buf
            case Line(line, dropped, rest) =>
              Listen(media, h, chunks) == Listen(media, Replied(media, h, line, dropped), rest)
    decreases |chunks|
  {
    hide ReplyTo, StaysOpen, Strip;
    if chunks != [] {
      var next, buf := Hear(media, h, chunks[0]), h.reader.buf + chunks[0];
      if |buf| > MAX_REQUEST {
        GoneStays(media, next, chunks[1..]);
      } else if Find(buf, '\n').None? {
        ListenReadsLine(media, next, chunks[1..]);
      } else {
        LineEnds(buf, chunks[1..]);
      }
    }
  }

  /** Listening piece by piece yields the replies and the losses of the request loop. */
  lemma {:induction false} ListenServes(media: Media, h: Hearing, chunks: seq<string>)
    requires h.reader == Partial("")
    ensures Listen(media, h, chunks).replies == h.replies + Serve(media, chunks).0
    ensures Listen(media, h, chunks).dropped == h.dropped + Serve(media, chunks).1
    decreases |chunks|
  {
    hide ReplyTo, StaysOpen, Listen, ReadLineFrom, Serve;
    ServeStep(media, chunks);
    ListenReadsLine(media, h, chunks);
    match ReadLineFrom("", chunks)
    case Closed(_) =>
      assert h.replies + [] == h.replies && h.dropped + "" == h.dropped;
    case TooLong(_, _) =>
      assert h.replies + [] == h.replies;
    case Line(line, dropped, rest) =>
      var next := Replied(media, h, line, dropped);
      if StaysOpen(media, line) {
        ListenServes(media, next, rest);
        var later := Serve(media, rest);
        assert h.replies + ([ReplyTo(media, line)] + later.0) == next.replies + later.0;
        assert h.dropped + (dropped + later.1) == next.dropped + later.1;
      } else {
        GoneStays(media, next, rest);
      }
  }
}
