/** What the clients of the lockstep model get back, in the terms of their requests and of the media alone. */
module LockstepAnswers {
  import opened Wrappers
  import opened Text
  import opened Numerals
  import opened Protocol
  import opened Headers
  import opened Framing
  import opened Server
  import opened Lockstep
  import opened LockstepProofs
  import opened LockstepServing

  /** A segment of a level both sides know, described by the manifest and within the video. */
  predicate Available(media: Media, q: Request) {
    && q.representation in {"360p", "480p", "720p", "1080p"}
    && q.representation in media.representations
    && 1 <= q.segmentId <= media.segmentCount
  }

  /**
   The reply to any line whatever: 400 and a hang-up if it is no request, 404 if there is no such
   segment, else 200 with the manifest's figures, the request's own name and id, and the content.
   */
  lemma ReplyMeaning(media: Media, line: string)
    ensures var parsed, r := ParseRequest(line), ReplyTo(media, line);
            && (r.fields.status == 400 <==> parsed.Failure?)
            && (r.fields.status == 404 <==> parsed.Success? && !Available(media, parsed.value))
            && (r.fields.status == 200 <==> parsed.Success? && Available(media, parsed.value))
            && (StaysOpen(media, line) <==> parsed.Success?)
            && (r.fields.status != 200 ==>
                  r.fields == Fields(r.fields.status, 0, 0, Finite(0.0), "", 0) && r.payload == "")
            && (r.fields.status == 200 ==>
                  var q := parsed.value;
                  && r.payload == media.content(q.representation, q.segmentId)
                  && r.fields.size == |r.payload|
                  && r.fields.bitrate == media.representations[q.representation]
                  && r.fields.duration == media.duration
                  && r.fields.representation == q.representation && r.fields.segmentId == q.segmentId)
  {
    hide ParseRequest;
    ParsedId(line);
  }

  lemma ParsedId(line: string)
    ensures ParseRequest(line).Success? ==> 1 <= ParseRequest(line).value.segmentId
  {
    if ParseRequest(line).Success? {
      RequestGrammar(line, ParseRequest(line).value);
    }
  }

  /** After a reply of 400 nothing more is sent. */
  lemma {:induction false} NothingAfter400(media: Media, chunks: seq<string>, k: nat)
    requires k < |Serve(media, chunks).0| && Serve(media, chunks).0[k].fields.status == 400
    ensures k == |Serve(media, chunks).0| - 1
    decreases |chunks|
  {
    hide ReadLineFrom, ReplyTo, StaysOpen, Serve;
    ServeStep(media, chunks);
    var read := ReadLineFrom("", chunks);
    ReplyMeaning(media, read.line);
    if StaysOpen(media, read.line) && 0 < k {
      NothingAfter400(media, read.rest, k - 1);
    }
  }

  /** What the client reads off the reply to a request. */
  lemma AnswerFields(media: Media, q: Request)
    ensures var (h, payload) := AnswerTo(media, q);
            && (h.status == 400 <==> !WellFormed(q))
            && (h.status == 404 <==> WellFormed(q) && !Available(media, q))
            && (h.status == 200 <==> Available(media, q))
            && h.dataFollows && h.size == |payload|
            && (h.status != 200 ==> payload == "")
            && (h.status == 200 ==>
                  && payload == media.content(q.representation, q.segmentId)
                  && h.bitrate == media.representations[q.representation]
                  && h.duration == RoundedFloat(media.duration)
                  && "REPRESENTATION" in h.entries && h.entries["REPRESENTATION"] == q.representation
                  && "SEGMENT" in h.entries && ParseInt(h.entries["SEGMENT"]) == Some(q.segmentId))
  {
    hide ParseRequest, ReplyTo, StaysOpen, RequestLine;
    RequestRoundTrip(q);
    ReplyMeaning(media, RequestLine(q));
    var f := Expected(media, q).fields;
    hide Pairs, Stored, ParseInt, IntText, Strip;
    EntryValues(f);
    IntRoundTrip(f.segmentId);
    if Available(media, q) {
      AvailableIsWellFormed(media, q);
    }
    if WellFormed(q) {
      NameIsTrimmed(f.representation, q);
    }
  }

  /** The names of the levels can all be asked for. */
  lemma AvailableIsWellFormed(media: Media, q: Request)
    requires Available(media, q)
    ensures WellFormed(q)
  {
    assert All("360p", IsAlnum) && All("480p", IsAlnum) && All("720p", IsAlnum) && All("1080p", IsAlnum);
  }

  lemma NameIsTrimmed(name: string, q: Request)
    requires WellFormed(q)
    ensures name == q.representation ==> Strip(name) == name
  {
    StripTrimmed(q.representation);
  }

  /**
   In every run of any number of clients and handlers, the k-th answer a client gets has status 200
   exactly when the segment it asks for is available, 404 when its request is only well formed, and 400
   when it is not, in which case it is the last. With status 200 come the content, its
   length, and the manifest's bitrate and duration, the latter to six digits.
   */
  lemma AnswersExactly(media: Media, s: System, moves: seq<Move>, i: nat, k: nat)
    requires Starting(s) && Feasible(media, s, moves) && i < |s.conns| == |End(media, s, moves).conns|
    requires k < |End(media, s, moves).conns[i].answers|
    ensures |End(media, s, moves).conns[i].answers| <= |End(media, s, moves).conns[i].asked|
    ensures var c := End(media, s, moves).conns[i];
            var q, (h, payload) := c.asked[k], c.answers[k];
            var wellFormed := q.representation != "" && All(q.representation, IsAlnum) && 1 <= q.segmentId;
            var available := && q.representation in {"360p", "480p", "720p", "1080p"}
                             && q.representation in media.representations && 1 <= q.segmentId <= media.segmentCount;
            && (h.status == 200 <==> available)
            && (h.status == 404 <==> wellFormed && !available)
            && (h.status == 400 <==> !wellFormed)
            && (h.status == 400 ==> k == |c.answers| - 1)
            && h.dataFollows && h.size == |payload|
            && (h.status != 200 ==> payload == "")
            && (h.status == 200 ==>
                  && payload == media.content(q.representation, q.segmentId)
                  && h.bitrate == media.representations[q.representation]
                  && h.duration == RoundedFloat(media.duration)
                  && "REPRESENTATION" in h.entries && h.entries["REPRESENTATION"] == q.representation
                  && "SEGMENT" in h.entries && ParseInt(h.entries["SEGMENT"]) == Some(q.segmentId))
  {
    hide AnswerTo, Serve, ConnInv, Apply, Enabled, ParseInt, IsAlnum;
    LockstepSafety(media, s, moves, i);
    LockstepIsServe(media, s, moves, i);
    var c := End(media, s, moves).conns[i];
    AnswerFields(media, c.asked[k]);
    if c.answers[k].0.status == 400 {
      NothingAfter400(media, c.heard, k);
    }
  }
}
