/** The wire format: request lines and response headers, and what reading them back gives. */
module Protocol {
  import opened Wrappers
  import opened Text

  // ---------------------------------------------------------------- requests

  datatype Request = Request(representation: string, segmentId: int)

  datatype ProtocolError = BadRequestLine | BadSegmentId

  function PathText(name: string, number: string): string {
    "/video/" + (name + ("/segment_" + (number + ".m4s")))
  }

  function RequestLine(q: Request): string {
    "GET" + (" " + PathText(q.representation, PaddedText(q.segmentId)))
  }

  function BuildRequest(q: Request): string { RequestLine(q) + CRLF }

  /** The bytes of a request. */
  lemma RequestText(q: Request)
    ensures BuildRequest(q)
         == "GET /video/" + q.representation + "/segment_" + PaddedText(q.segmentId) + ".m4s\r\n"
  {
    var name, number := q.representation, PaddedText(q.segmentId);
    assert "GET" + (" " + ("/video/" + (name + ("/segment_" + (number + ".m4s"))))) + "\r\n"
        == "GET /video/" + name + "/segment_" + number + ".m4s\r\n";
  }

  /** The rest of s after a literal, if s begins with it. */
  function After(s: string, literal: string): (r: Option<string>)
    ensures r.Some? ==> s == literal + r.value
  {
    if StartsWith(s, literal) then Some(s[|literal|..]) else None
  }

  /** A non-empty longest run of characters satisfying p, and the rest. */
  function Run(s: string, p: char -> bool): (r: Option<(string, string)>)
    ensures r.Some? ==> s == r.value.0 + r.value.1 && r.value.0 != "" && All(r.value.0, p)
    ensures r.None? ==> s == "" || !p(s[0])
  {
    var n := Span(s, p);
    if n == 0 then None else Some((s[..n], s[n..]))
  }

  function ParsePath(s: string): Result<Request, ProtocolError> {
    match After(s, "/video/")
    case None => Failure(BadRequestLine)
    case Some(path) =>
      match Run(path, IsAlnum)
      case None => Failure(BadRequestLine)
      case Some((representation, tail)) =>
        match After(tail, "/segment_")
        case None => Failure(BadRequestLine)
        case Some(number) =>
          match Run(number, IsDigit)
          case None => Failure(BadRequestLine)
          case Some((digits, suffix)) =>
            if suffix != ".m4s" then Failure(BadRequestLine)
            else
              match ParseDigits(digits)
              case None => Failure(BadRequestLine)
              case Some(id) => if id < 1 then Failure(BadSegmentId) else Success(Request(representation, id))
  }

  function ParseRequest(line: string): Result<Request, ProtocolError> {
    match After(Strip(line), "GET")
    case None => Failure(BadRequestLine)
    case Some(rest) =>
      match Run(rest, IsSpace)
      case None => Failure(BadRequestLine)
      case Some((_, path)) => ParsePath(path)
  }

  predicate ValidName(s: string) { s != "" && All(s, IsAlnum) }

  /** The free parts of an acceptable request line. */
  datatype Shape = Shape(before: string, gap: string, name: string, digits: string, after: string) {
    predicate Valid() {
      && All(before, IsSpace) && All(after, IsSpace)
      && gap != "" && All(gap, IsSpace)
      && ValidName(name)
      && digits != "" && All(digits, IsDigit)
    }

    function Core(): string { "GET" + (gap + PathText(name, digits)) }

    function Text(): string { before + Core() + after }
  }

  lemma {:induction false} AllDigitsParse(s: string)
    requires s != "" && All(s, IsDigit)
    ensures ParseDigits(s).Some?
    decreases |s|
  {
    if 1 < |s| {
      AllDigitsParse(s[..|s| - 1]);
    }
  }

  lemma AfterLiteral(literal: string, rest: string)
    ensures After(literal + rest, literal) == Some(rest)
  {
    assert (literal + rest)[..|literal|] == literal;
    assert (literal + rest)[|literal|..] == rest;
  }

  lemma RunOf(a: string, b: string, p: char -> bool)
    requires a != "" && All(a, p) && (b == "" || !p(b[0]))
    ensures Run(a + b, p) == Some((a, b))
  {
    SpanOf(a, b, p);
    assert (a + b)[..|a|] == a && (a + b)[|a|..] == b;
  }

  lemma StripPadded(before: string, core: string, after: string)
    requires All(before, IsSpace) && All(after, IsSpace) && core != "" && Trimmed(core)
    ensures Strip(before + core + after) == core
  {
    assert before + core + after == before + (core + after);
    SpanOf(before, core + after, IsSpace);
    assert (before + (core + after))[|before|..] == core + after;
    StripRightPadded(core, after);
  }

  lemma {:induction false} PathAccepted(name: string, digits: string)
    requires ValidName(name) && digits != "" && All(digits, IsDigit)
    ensures ParseDigits(digits).Some?
    ensures var id := ParseDigits(digits).value;
            ParsePath(PathText(name, digits))
            == if id < 1 then Failure(BadSegmentId) else Success(Request(name, id))
  {
    AllDigitsParse(digits);
    var number := digits + ".m4s";
    var tail := "/segment_" + number;
    AfterLiteral("/video/", name + tail);
    RunOf(name, tail, IsAlnum);
    AfterLiteral("/segment_", number);
    RunOf(digits, ".m4s", IsDigit);
  }

  lemma {:induction false} ShapeAccepted(shape: Shape)
    requires shape.Valid()
    ensures ParseDigits(shape.digits).Some?
    ensures var id := ParseDigits(shape.digits).value;
            ParseRequest(shape.Text())
            == if id < 1 then Failure(BadSegmentId) else Success(Request(shape.name, id))
  {
    StripPadded(shape.before, shape.Core(), shape.after);
    var path := PathText(shape.name, shape.digits);
    AfterLiteral("GET", shape.gap + path);
    RunOf(shape.gap, path, IsSpace);
    PathAccepted(shape.name, shape.digits);
  }

  lemma PathShape(path: string) returns (name: string, digits: string)
    requires ParsePath(path).Success?
    ensures ValidName(name) && digits != "" && All(digits, IsDigit)
    ensures path == PathText(name, digits)
    ensures name == ParsePath(path).value.representation
    ensures ParseDigits(digits) == Some(ParsePath(path).value.segmentId)
  {
    var (representation, tail) := Run(After(path, "/video/").value, IsAlnum).value;
    name := representation;
    var number := After(tail, "/segment_").value;
    digits := Run(number, IsDigit).value.0;
    assert number == digits + ".m4s";
  }

  lemma {:induction false} AcceptedShape(line: string) returns (shape: Shape)
    requires ParseRequest(line).Success?
    ensures shape.Valid() && shape.Text() == line
    ensures shape.name == ParseRequest(line).value.representation
    ensures ParseDigits(shape.digits) == Some(ParseRequest(line).value.segmentId)
  {
    var before, after := StripParts(line);
    hide ParsePath, ParseDigits, Strip, After, Run, IsSpace, IsAlnum, IsDigit, PathText;
    var (gap, path) := Run(After(Strip(line), "GET").value, IsSpace).value;
    var name, digits := PathShape(path);
    shape := Shape(before, gap, name, digits, after);
    assert Strip(line) == shape.Core();
    assert before + shape.Core() + after == before + (shape.Core() + after);
  }

  /** The parser accepts exactly the lines of the documented shape, and reads off their parts. */
  lemma {:induction false} RequestGrammar(line: string, q: Request)
    ensures ParseRequest(line) == Success(q) <==>
            exists shape: Shape :: && shape.Valid() && shape.Text() == line
                                   && shape.name == q.representation
                                   && ParseDigits(shape.digits) == Some(q.segmentId)
                                   && 1 <= q.segmentId
  {
    if ParseRequest(line) == Success(q) {
      var shape := AcceptedShape(line);
      assert 1 <= q.segmentId;
    }
    if shape: Shape :| && shape.Valid() && shape.Text() == line && shape.name == q.representation
                       && ParseDigits(shape.digits) == Some(q.segmentId) && 1 <= q.segmentId {
      ShapeAccepted(shape);
    }
  }

  predicate WellFormed(q: Request) { ValidName(q.representation) && 1 <= q.segmentId }

  function Path(q: Request): string { PathText(q.representation, PaddedText(q.segmentId)) }

  lemma {:induction false} LineParsesAsPath(q: Request)
    ensures ParseRequest(RequestLine(q)) == ParsePath(Path(q))
  {
    StripTrimmed(RequestLine(q));
    AfterLiteral("GET", " " + Path(q));
    RunOf(" ", Path(q), IsSpace);
  }

  lemma WellFormedParses(q: Request)
    requires ValidName(q.representation) && 0 <= q.segmentId
    ensures ParsePath(Path(q)) == if q.segmentId < 1 then Failure(BadSegmentId) else Success(q)
  {
    DecimalRoundTrip(q.segmentId);
    PaddedRoundTrip(Decimal(q.segmentId), 3);
    PathAccepted(q.representation, PaddedText(q.segmentId));
  }

  /** What may follow the name has a single slash, at its start. */
  lemma OneSlash(tail: string)
    requires After(tail, "/segment_").Some?
    requires Run(After(tail, "/segment_").value, IsDigit).Some?
    requires Run(After(tail, "/segment_").value, IsDigit).value.1 == ".m4s"
    ensures forall k :: 0 < k < |tail| ==> tail[k] != '/'
  {
    var digits := Run(After(tail, "/segment_").value, IsDigit).value.0;
    assert tail == "/segment_" + (digits + ".m4s");
    forall k | 0 < k < |tail| ensures tail[k] != '/' {
      if 9 <= k < 9 + |digits| {
        assert tail[k] == digits[k - 9];
      }
    }
  }

  lemma SlashAfterRun(name: string, tail: string, i: nat)
    requires i < |name| && !IsAlnum(name[i]) && tail != "" && tail[0] == '/'
    ensures Run(name + tail, IsAlnum).Some? ==>
              exists k :: 0 < k < |Run(name + tail, IsAlnum).value.1| && Run(name + tail, IsAlnum).value.1[k] == '/'
  {
    if Run(name + tail, IsAlnum).Some? {
      var (run, rest) := Run(name + tail, IsAlnum).value;
      assert !IsAlnum((name + tail)[i]);
      assert |run| <= i;
      assert rest[|name| - |run|] == (name + tail)[|name|] == '/';
    }
  }

  /** A name with a character outside the alphabet breaks the path wherever that character is. */
  lemma BadNameFails(q: Request)
    requires !ValidName(q.representation)
    ensures ParsePath(Path(q)).Failure?
  {
    var name := q.representation;
    var tail := "/segment_" + (PaddedText(q.segmentId) + ".m4s");
    AfterLiteral("/video/", name + tail);
    if name == "" {
      assert (name + tail)[0] == '/';
    } else {
      var i :| 0 <= i < |name| && !IsAlnum(name[i]);
      SlashAfterRun(name, tail, i);
      if ParsePath(Path(q)).Success? {
        OneSlash(Run(name + tail, IsAlnum).value.1);
      }
    }
  }

  lemma {:induction false} NegativeIdFails(q: Request)
    requires ValidName(q.representation) && q.segmentId < 0
    ensures ParsePath(Path(q)).Failure?
  {
    var number := PaddedText(q.segmentId) + ".m4s";
    var tail := "/segment_" + number;
    AfterLiteral("/video/", q.representation + tail);
    RunOf(q.representation, tail, IsAlnum);
    AfterLiteral("/segment_", number);
    assert number[0] == '-';
  }

  /** A printed request reads back as itself exactly when it is well-formed; otherwise it is refused. */
  lemma {:induction false} RequestRoundTrip(q: Request)
    ensures WellFormed(q) ==> ParseRequest(RequestLine(q)) == Success(q)
    ensures !WellFormed(q) ==> ParseRequest(RequestLine(q)).Failure?
    ensures Strip(BuildRequest(q)) == RequestLine(q)
  {
    StripPadded("", RequestLine(q), CRLF);
    assert "" + RequestLine(q) + CRLF == BuildRequest(q);
    StripTrimmed(RequestLine(q));
    LineParsesAsPath(q);
    if !ValidName(q.representation) {
      BadNameFails(q);
    } else if q.segmentId < 0 {
      NegativeIdFails(q);
    } else {
      WellFormedParses(q);
    }
  }

  /** Printing what was parsed from any line gives a line that parses the same. */
  lemma {:induction false} AcceptedReprints(line: string)
    requires ParseRequest(line).Success?
    ensures ParseRequest(RequestLine(ParseRequest(line).value)) == ParseRequest(line)
  {
    var shape := AcceptedShape(line);
    ShapeAccepted(shape);
    RequestRoundTrip(ParseRequest(line).value);
  }
}
