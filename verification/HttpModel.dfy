/** The incremental parser as a value (`Feed`), the one-shot specification parser
    of a whole stream (`OneShot`), and the theorem that chunking does not matter. */
module HttpModel {
  import opened Options
  import opened HttpText

  const TOO_LARGE := "request exceeds configured size limit"
  const HEADERS_TOO_LARGE := "headers exceed configured size limit"
  const NO_REQUEST_LINE := "missing request line"
  const BAD_REQUEST_LINE := "malformed request line"
  const BAD_VERSION := "unsupported HTTP version"
  const EMPTY_PATH := "request target path is empty"
  const BAD_HEADER := "malformed header"
  const BAD_VALUE := "malformed header value"
  const LENGTH_CONFLICT := "conflicting content-length headers"
  const NO_TRANSFER_ENCODING := "transfer-encoding is unsupported"
  const BAD_LENGTH := "invalid content-length"
  const BODY_TOO_LARGE := "body exceeds configured size limit"

  const CONTENT_LENGTH := "content-length"
  const TRANSFER_ENCODING := "transfer-encoding"

  datatype Request = Request(verb: string, path: string, query: string, headers: map<string, string>, body: string)

  datatype Result<+T> = Ok(value: T) | Err(text: string)

  /** What the parser reports. */
  datatype Outcome = Incomplete | Complete(request: Request) | Error(text: string)

  // ---- The specification parser --------------------------------------------------------

  datatype Target = Target(verb: string, path: string, query: string)

  /** `METHOD SP target SP version`. */
  function ParseRequestLine(line: string): Result<Target> {
    match Find(line, " ", 0)
    case None => Err(BAD_REQUEST_LINE)
    case Some(m) =>
      match Find(line, " ", m + 1)
      case None => Err(BAD_REQUEST_LINE)
      case Some(p) =>
        if m == 0 || p == m + 1 then Err(BAD_REQUEST_LINE)
        else if line[p + 1..] != "HTTP/1.0" && line[p + 1..] != "HTTP/1.1" then Err(BAD_VERSION)
        else ParseTarget(line[..m], line[m + 1..p])
  }

  function ParseTarget(verb: string, target: string): Result<Target> {
    match Find(target, "?", 0)
    case None => if target == "" then Err(EMPTY_PATH) else Ok(Target(verb, target, ""))
    case Some(q) => if q == 0 then Err(EMPTY_PATH) else Ok(Target(verb, target[..q], target[q + 1..]))
  }

  /** One header line added to the headers so far (section 5.2 of RFC 9110 for
      repeated names; repeated Content-Length must agree). */
  function AddLine(headers: map<string, string>, line: string): Result<map<string, string>> {
    match Find(line, ":", 0)
    case None => Err(BAD_HEADER)
    case Some(c) =>
      if c == 0 then Err(BAD_HEADER)
      else AddField(headers, Lower(line[..c]), TrimBoth(line[c + 1..]))
  }

  function AddField(headers: map<string, string>, name: string, value: string): Result<map<string, string>> {
    if name == "" || '\r' in value || '\n' in value then Err(BAD_VALUE)
    else if name !in headers then Ok(headers[name := value])
    else if name != CONTENT_LENGTH then Ok(headers[name := headers[name] + "," + value])
    else if headers[name] != value then Err(LENGTH_CONFLICT)
    else Ok(headers)
  }

  function AddLines(headers: map<string, string>, lines: seq<string>): Result<map<string, string>>
    decreases |lines|
  {
    if lines == [] then Ok(headers)
    else match AddLine(headers, lines[0])
      case Err(t) => Err(t)
      case Ok(h) => AddLines(h, lines[1..])
  }

  /** Body framing (section 6.3 of RFC 9112, without transfer codings). */
  function BodyLength(headers: map<string, string>, maxBody: nat): Result<nat> {
    if TRANSFER_ENCODING in headers then Err(NO_TRANSFER_ENCODING)
    else if CONTENT_LENGTH !in headers then Ok(0)
    else match ParseSize(headers[CONTENT_LENGTH])
      case None => Err(BAD_LENGTH)
      case Some(n) => if n > maxBody then Err(BODY_TOO_LARGE) else Ok(n)
  }

  datatype Head = Head(request: Request, length: nat)

  /** The text before the blank line. */
  function ParseHead(head: string, maxBody: nat): (r: Result<Head>)
    ensures r.Ok? ==> r.value.length <= maxBody && r.value.request.body == ""
    ensures r.Err? ==> r.text != ""
  {
    var lines := SplitLines(head);
    if |lines| == 1 then Err(NO_REQUEST_LINE)
    else match ParseRequestLine(lines[0])
      case Err(t) => Err(t)
      case Ok(target) =>
        match AddLines(map[], lines[1..])
        case Err(t) => AddLinesText(map[], lines[1..]); Err(t)
        case Ok(headers) =>
          match BodyLength(headers, maxBody)
          case Err(t) => Err(t)
          case Ok(n) => Ok(Head(Request(target.verb, target.path, target.query, headers, ""), n))
  }

  lemma {:induction false} AddLinesText(headers: map<string, string>, lines: seq<string>)
    ensures AddLines(headers, lines).Err? ==> AddLines(headers, lines).text != ""
    decreases |lines|
  {
    if lines != [] && AddLine(headers, lines[0]).Ok? {
      AddLinesText(AddLine(headers, lines[0]).value, lines[1..]);
    }
  }

  /** The whole stream at once. */
  function OneShot(stream: string, maxHeader: nat, maxBody: nat): Outcome {
    match Find(stream, HEAD_END, 0)
    case None => if |stream| > maxHeader then Error(HEADERS_TOO_LARGE) else Incomplete
    case Some(e) =>
      if e + 4 > maxHeader then Error(HEADERS_TOO_LARGE)
      else match ParseHead(stream[..e], maxBody)
        case Err(t) => Error(t)
        case Ok(h) =>
          var rest := stream[e + 4..];
          if |rest| < h.length then Incomplete else Complete(h.request.(body := rest[..h.length]))
  }

  /** A decided stream stays decided, the same way, whatever follows. */
  lemma OneShotStable(stream: string, more: string, maxHeader: nat, maxBody: nat)
    requires !OneShot(stream, maxHeader, maxBody).Incomplete?
    ensures OneShot(stream + more, maxHeader, maxBody) == OneShot(stream, maxHeader, maxBody)
  {
    hide Find, ParseHead;
    var grown := stream + more;
    match Find(stream, HEAD_END, 0)
    case None =>
      if Find(grown, HEAD_END, 0).Some? { FindLate(stream, more, HEAD_END, 0); }
    case Some(e) =>
      FindGrows(stream, more, HEAD_END, 0);
      FoundInside(stream, e);
      assert grown[..e] == stream[..e];
      if ParseHead(stream[..e], maxBody).Ok? {
        var n := ParseHead(stream[..e], maxBody).value.length;
        assert grown[e + 4..] == stream[e + 4..] + more;
        if n <= |stream| - e - 4 { assert grown[e + 4..][..n] == stream[e + 4..][..n]; }
      }
  }

  lemma FoundInside(stream: string, e: nat)
    requires Find(stream, HEAD_END, 0) == Some(e)
    ensures e + 4 <= |stream|
  {}

  // ---- The incremental parser ---------------------------------------------------------------

  datatype Parser = Parser(
    maxHeader: nat,
    maxBody: nat,
    buffer: string,
    request: Request,       // meaningful once the headers are parsed
    error: string,
    length: nat,
    headersParsed: bool,
    complete: bool)

  const NO_REQUEST := Request("", "", "", map[], "")

  function NewParser(maxHeader: nat, maxBody: nat): Parser {
    Parser(maxHeader, maxBody, "", NO_REQUEST, "", 0, false, false)
  }

  function StatusOf(p: Parser): Outcome {
    if p.complete then Complete(p.request) else if p.error != "" then Error(p.error) else Incomplete
  }

  /** The end of `feed`: enough body, or wait. */
  function TakeBody(p: Parser): Parser {
    if |p.buffer| < p.length then p
    else p.(request := p.request.(body := p.buffer[..p.length]), complete := true)
  }

  /** `feed`. */
  function Feed(p: Parser, bytes: string): Parser {
    if p.complete || p.error != "" then p
    else if |p.buffer| + |bytes| > p.maxHeader + p.maxBody then p.(error := TOO_LARGE)
    else
      var q := p.(buffer := p.buffer + bytes);
      if q.headersParsed then TakeBody(q)
      else match Find(q.buffer, HEAD_END, 0)
        case None => if |q.buffer| > q.maxHeader then q.(error := HEADERS_TOO_LARGE) else q
        case Some(e) =>
          if e + 4 > q.maxHeader then q.(error := HEADERS_TOO_LARGE)
          else match ParseHead(q.buffer[..e], q.maxBody)
            case Err(t) => q.(error := t)
            case Ok(h) =>
              TakeBody(q.(request := h.request, length := h.length, headersParsed := true, buffer := q.buffer[e + 4..]))
  }

  /** The parser holds what it needs of the stream fed so far, and has decided
      exactly what the specification decides on it. */
  ghost predicate Tracks(p: Parser, stream: string) {
    var spec := OneShot(stream, p.maxHeader, p.maxBody);
    if p.complete || p.error != "" then StatusOf(p) == spec
    else
      && spec.Incomplete?
      && (!p.headersParsed ==> p.buffer == stream && |stream| <= p.maxHeader && Find(stream, HEAD_END, 0).None?)
      && (p.headersParsed ==>
            exists e: nat ::
              && Find(stream, HEAD_END, 0) == Some(e) && e + 4 <= p.maxHeader
              && e + 4 <= |stream| && p.buffer == stream[e + 4..]
              && ParseHead(stream[..e], p.maxBody) == Ok(Head(p.request, p.length)) && |p.buffer| < p.length)
  }

  /** The first size check fires exactly when a live parser is given more than both
      limits together leave room for. */
  predicate Overfills(p: Parser, bytes: string) {
    !p.complete && p.error == "" && |p.buffer| + |bytes| > p.maxHeader + p.maxBody
  }

  /** How much of an undecided stream is still in the buffer: all of it, or what follows the head. */
  function Unparsed(stream: string): nat {
    match Find(stream, HEAD_END, 0)
    case None => |stream|
    case Some(e) => |stream| - (e + 4)
  }

  /** The next chunk leaves the buffer of an undecided stream within both limits together. */
  predicate ChunkFits(stream: string, bytes: string, maxHeader: nat, maxBody: nat) {
    OneShot(stream, maxHeader, maxBody).Incomplete? ==> Unparsed(stream) + |bytes| <= maxHeader + maxBody
  }

  /** The size check, said of the stream alone. */
  lemma OverfillsIs(p: Parser, stream: string, bytes: string)
    requires Tracks(p, stream)
    ensures Overfills(p, bytes) <==> !ChunkFits(stream, bytes, p.maxHeader, p.maxBody)
  {
    hide Find, OneShot, ParseHead;
    if p.headersParsed && !p.complete && p.error == "" {
      var e: nat :| Find(stream, HEAD_END, 0) == Some(e) && e + 4 <= |stream| && p.buffer == stream[e + 4..];
    }
  }

  /** Chunks no larger than either limit always fit. */
  lemma SmallChunksFit(stream: string, bytes: string, maxHeader: nat, maxBody: nat)
    requires |bytes| <= maxHeader && |bytes| <= maxBody
    ensures ChunkFits(stream, bytes, maxHeader, maxBody)
  {
    hide Find, ParseHead;
    if Find(stream, HEAD_END, 0).Some? { FoundInside(stream, Find(stream, HEAD_END, 0).value); }
  }

  lemma FeedDecided(p: Parser, stream: string, bytes: string)
    requires Tracks(p, stream) && (p.complete || p.error != "")
    ensures Tracks(Feed(p, bytes), stream + bytes)
  {
    hide OneShot, ParseHead, Find;
    OneShotStable(stream, bytes, p.maxHeader, p.maxBody);
  }

  lemma FeedBody(p: Parser, stream: string, bytes: string)
    requires Tracks(p, stream) && !p.complete && p.error == "" && p.headersParsed && !Overfills(p, bytes)
    ensures Tracks(Feed(p, bytes), stream + bytes)
  {
    hide ParseHead, Find;
    var grown := stream + bytes;
    var e: nat :| Find(stream, HEAD_END, 0) == Some(e) && e + 4 <= p.maxHeader &&
                  e + 4 <= |stream| && p.buffer == stream[e + 4..] &&
                  ParseHead(stream[..e], p.maxBody) == Ok(Head(p.request, p.length)) && |p.buffer| < p.length;
    FindGrows(stream, bytes, HEAD_END, 0);
    GrownParts(stream, bytes, e);
    if |p.buffer + bytes| < p.length {
      assert |grown[e + 4..]| < p.length;
    }
  }

  lemma GrownParts(stream: string, bytes: string, e: nat)
    requires e + 4 <= |stream|
    ensures (stream + bytes)[..e] == stream[..e] && (stream + bytes)[e + 4..] == stream[e + 4..] + bytes
  {}

  lemma FeedHead(p: Parser, stream: string, bytes: string)
    requires Tracks(p, stream) && !p.complete && p.error == "" && !p.headersParsed && !Overfills(p, bytes)
    ensures Tracks(Feed(p, bytes), stream + bytes)
  {
    hide ParseHead, Find;
    var grown := stream + bytes;
    if Find(grown, HEAD_END, 0).Some? {
      FoundInside(grown, Find(grown, HEAD_END, 0).value);
    }
  }

  /** One feed keeps the parser in step with the specification, unless it overfills:
      then the parser reports the size limit, which the specification never does. */
  lemma FeedTracks(p: Parser, stream: string, bytes: string)
    requires Tracks(p, stream)
    ensures Tracks(Feed(p, bytes), stream + bytes) <==> !Overfills(p, bytes)
  {
    hide Tracks, Feed;
    if Overfills(p, bytes) {
      Overfilled(p, stream, bytes);
    } else if p.complete || p.error != "" {
      FeedDecided(p, stream, bytes);
    } else if p.headersParsed {
      FeedBody(p, stream, bytes);
    } else {
      FeedHead(p, stream, bytes);
    }
  }

  lemma Overfilled(p: Parser, stream: string, bytes: string)
    requires Overfills(p, bytes)
    ensures StatusOf(Feed(p, bytes)) == Error(TOO_LARGE) && Feed(p, bytes).error != ""
    ensures !Tracks(Feed(p, bytes), stream + bytes)
  {
    hide Find, ParseHead;
    NeverTooLarge(stream + bytes, p.maxHeader, p.maxBody);
  }

  lemma NeverTooLarge(stream: string, maxHeader: nat, maxBody: nat)
    ensures OneShot(stream, maxHeader, maxBody) != Error(TOO_LARGE)
  {
    hide Find, SplitLines;
    if Find(stream, HEAD_END, 0).Some? {
      HeadNeverTooLarge(stream[..Find(stream, HEAD_END, 0).value], maxBody);
    }
  }

  lemma HeadNeverTooLarge(head: string, maxBody: nat)
    ensures ParseHead(head, maxBody) != Err(TOO_LARGE)
  {
    hide Find, SplitLines, AddLines, ParseSize;
    LinesNeverTooLarge(map[], SplitLines(head)[1..]);
  }

  lemma {:induction false} LinesNeverTooLarge(headers: map<string, string>, lines: seq<string>)
    ensures AddLines(headers, lines) != Err(TOO_LARGE)
    decreases |lines|
  {
    hide Find, Lower, TrimBoth;
    if lines != [] && AddLine(headers, lines[0]).Ok? {
      LinesNeverTooLarge(AddLine(headers, lines[0]).value, lines[1..]);
    }
  }

  // ---- Any split of the stream -------------------------------------------------------------

  function FeedAll(p: Parser, chunks: seq<string>): Parser
    decreases |chunks|
  {
    if chunks == [] then p else FeedAll(Feed(p, chunks[0]), chunks[1..])
  }

  function Join(chunks: seq<string>): string {
    if chunks == [] then "" else chunks[0] + Join(chunks[1..])
  }

  /** Every chunk fits where it arrives. */
  ghost predicate AllFit(stream: string, chunks: seq<string>, maxHeader: nat, maxBody: nat)
    decreases |chunks|
  {
    chunks == [] ||
    (ChunkFits(stream, chunks[0], maxHeader, maxBody) && AllFit(stream + chunks[0], chunks[1..], maxHeader, maxBody))
  }

  lemma TracksStatus(p: Parser, stream: string)
    requires Tracks(p, stream)
    ensures StatusOf(p) == OneShot(stream, p.maxHeader, p.maxBody)
  {
    hide Find, ParseHead, OneShot;
  }

  lemma FeedLimits(p: Parser, bytes: string)
    ensures Feed(p, bytes).maxHeader == p.maxHeader && Feed(p, bytes).maxBody == p.maxBody
  {
    hide Find, ParseHead;
  }

  /** A parser that has failed stays as it is. */
  lemma {:induction false} FailedStays(p: Parser, chunks: seq<string>)
    requires p.error != ""
    ensures FeedAll(p, chunks) == p
    decreases |chunks|
  {
    hide Find, ParseHead;
    if chunks != [] { FailedStays(p, chunks[1..]); }
  }

  lemma {:induction false} FeedAllExact(p: Parser, stream: string, chunks: seq<string>)
    requires Tracks(p, stream)
    ensures AllFit(stream, chunks, p.maxHeader, p.maxBody) ==>
              StatusOf(FeedAll(p, chunks)) == OneShot(stream + Join(chunks), p.maxHeader, p.maxBody)
    ensures !AllFit(stream, chunks, p.maxHeader, p.maxBody) ==> StatusOf(FeedAll(p, chunks)) == Error(TOO_LARGE)
    decreases |chunks|
  {
    hide Tracks, Find, ParseHead, ChunkFits, OneShot, Feed, StatusOf;
    if chunks == [] {
      TracksStatus(p, stream);
      assert stream + "" == stream;
    } else {
      var q := Feed(p, chunks[0]);
      FeedTracks(p, stream, chunks[0]);
      OverfillsIs(p, stream, chunks[0]);
      FeedLimits(p, chunks[0]);
      if Overfills(p, chunks[0]) {
        Overfilled(p, stream, chunks[0]);
        FailedStays(q, chunks[1..]);
      } else {
        FeedAllExact(q, stream + chunks[0], chunks[1..]);
        assert (stream + chunks[0]) + Join(chunks[1..]) == stream + Join(chunks);
      }
    }
  }

  lemma FreshTracks(maxHeader: nat, maxBody: nat)
    ensures Tracks(NewParser(maxHeader, maxBody), "")
  {}

  lemma {:induction false} SmallChunksAllFit(stream: string, chunks: seq<string>, maxHeader: nat, maxBody: nat)
    requires forall i :: 0 <= i < |chunks| ==> |chunks[i]| <= maxHeader && |chunks[i]| <= maxBody
    ensures AllFit(stream, chunks, maxHeader, maxBody)
    decreases |chunks|
  {
    hide ChunkFits;
    if chunks != [] {
      SmallChunksFit(stream, chunks[0], maxHeader, maxBody);
      SmallChunksAllFit(stream + chunks[0], chunks[1..], maxHeader, maxBody);
    }
  }

  /** Chunking invariance: feeding a stream in any chunks reports the status, error text and
      request that the specification parser reports on the whole stream if and only if every
      chunk fits where it arrives; otherwise it reports the size limit. */
  lemma ChunkingInvariance(maxHeader: nat, maxBody: nat, chunks: seq<string>)
    ensures var status := StatusOf(FeedAll(NewParser(maxHeader, maxBody), chunks));
            && (status == OneShot(Join(chunks), maxHeader, maxBody) <==> AllFit("", chunks, maxHeader, maxBody))
            && (status == Error(TOO_LARGE) <==> !AllFit("", chunks, maxHeader, maxBody))
  {
    hide Find, ParseHead, FeedAll, OneShot, Tracks, AllFit;
    FreshTracks(maxHeader, maxBody);
    FeedAllExact(NewParser(maxHeader, maxBody), "", chunks);
    NeverTooLarge(Join(chunks), maxHeader, maxBody);
    assert "" + Join(chunks) == Join(chunks);
  }

  /** So chunks no larger than either limit never matter. */
  lemma SmallChunksAgree(maxHeader: nat, maxBody: nat, chunks: seq<string>)
    requires forall i :: 0 <= i < |chunks| ==> |chunks[i]| <= maxHeader && |chunks[i]| <= maxBody
    ensures StatusOf(FeedAll(NewParser(maxHeader, maxBody), chunks)) == OneShot(Join(chunks), maxHeader, maxBody)
  {
    hide AllFit, FeedAll, OneShot;
    SmallChunksAllFit("", chunks, maxHeader, maxBody);
    ChunkingInvariance(maxHeader, maxBody, chunks);
  }
}
