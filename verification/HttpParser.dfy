/** The parser object: index-based scanning of its buffer, proved against the
    line-based specification. */
module HttpParser {
  import opened Options
  import opened HttpText
  import opened HttpModel

  // ---- Searching inside the head ------------------------------------------------------------

  /** Searching a suffix is searching the text from there on. */
  lemma FindShift(s: string, pattern: string, from: nat)
    requires from <= |s| && pattern != ""
    ensures Find(s, pattern, from).None? ==> Find(s[from..], pattern, 0) == None
    ensures Find(s, pattern, from).Some? ==> Find(s[from..], pattern, 0) == Some(Find(s, pattern, from).value - from)
  {
    hide Find, MatchAt;
    var t := s[from..];
    match Find(s, pattern, from)
    case None =>
      forall k: nat ensures !MatchAt(t, pattern, k) {
        SuffixMatch(s, pattern, from, k);
        if MatchAt(s, pattern, from + k) { FindFirst(s, pattern, from, from + k); }
      }
      FindNone(t, pattern, 0);
    case Some(i) =>
      forall k: nat | k < i - from ensures !MatchAt(t, pattern, k) {
        SuffixMatch(s, pattern, from, k);
        if MatchAt(s, pattern, from + k) { FindFirst(s, pattern, from, from + k); }
      }
      SuffixMatch(s, pattern, from, i - from);
      FindIs(t, pattern, 0, i - from);
  }

  lemma SuffixMatch(s: string, pattern: string, from: nat, k: nat)
    requires from <= |s|
    ensures MatchAt(s[from..], pattern, k) == MatchAt(s, pattern, from + k)
  {
    var t := s[from..];
    if from + k + |pattern| <= |s| { assert t[k..k + |pattern|] == s[from + k..from + k + |pattern|]; }
  }

  lemma AtEnd(buffer: string, end: nat)
    requires MatchAt(buffer, HEAD_END, end)
    ensures MatchAt(buffer, CRLF, end) && end + 4 <= |buffer| && buffer[end] == '\r'
  {
    assert buffer[end..end + 4][0] == '\r' && buffer[end..end + 4][1] == '\n';
    assert buffer[end..end + 2] == CRLF;
  }

  /** A line end before the blank line lies wholly in the head, and the search never
      runs past the blank line. */
  lemma LineEnd(buffer: string, end: nat, from: nat)
    requires MatchAt(buffer, HEAD_END, end) && from <= end
    ensures Find(buffer, CRLF, from).Some? && end <= |buffer|
    ensures var i := Find(buffer, CRLF, from).value;
            && from <= i <= end
            && (i < end ==> i + 2 <= end && Find(buffer[..end], CRLF, from) == Some(i))
            && (i == end ==> Find(buffer[..end], CRLF, from) == None)
  {
    AtEnd(buffer, end);
    FindFirst(buffer, CRLF, from, end);
    var i := Find(buffer, CRLF, from).value;
    var head := buffer[..end];
    forall k | from <= k && k + 2 <= end ensures MatchAt(head, CRLF, k) == MatchAt(buffer, CRLF, k) {
      assert head[k..k + 2] == buffer[k..k + 2];
    }
    if i < end {
      assert buffer[i..i + 2] == CRLF;
      assert CRLF[1] == '\n' && buffer[i + 1] == buffer[i..i + 2][1];
      forall k | from <= k < i ensures !MatchAt(head, CRLF, k) {
        if MatchAt(head, CRLF, k) { FindFirst(buffer, CRLF, from, k); }
      }
      FindIs(head, CRLF, from, i);
    } else {
      forall k | from <= k ensures !MatchAt(head, CRLF, k) {
        if MatchAt(head, CRLF, k) { FindFirst(buffer, CRLF, from, k); }
      }
      FindNone(head, CRLF, from);
    }
  }

  /** No line ends right at the blank line: it would have been found earlier. */
  lemma NoEmptyLine(buffer: string, end: nat, i: nat)
    requires Find(buffer, HEAD_END, 0) == Some(end) && i + 2 <= end && MatchAt(buffer, CRLF, i)
    ensures i + 2 != end
  {
    AtEnd(buffer, end);
    if i + 2 == end {
      assert buffer[i..i + 4] == buffer[i..i + 2] + buffer[i + 2..i + 4];
      FindFirst(buffer, HEAD_END, 0, i);
    }
  }

  /** The first of the remaining lines, by index. */
  lemma NextLine(buffer: string, end: nat, start: nat)
    requires MatchAt(buffer, HEAD_END, end) && start <= end <= |buffer|
    ensures Find(buffer, CRLF, start).Some?
    ensures var i := Find(buffer, CRLF, start).value;
            && start <= i <= end
            && (i < end ==>
              i + 2 <= end && SplitLines(buffer[start..end]) == [buffer[start..i]] + SplitLines(buffer[i + 2..end]))
            && (i == end ==> SplitLines(buffer[start..end]) == [buffer[start..end]])
  {
    hide Find, MatchAt;
    LineEnd(buffer, end, start);
    var i := Find(buffer, CRLF, start).value;
    var head := buffer[..end];
    FindShift(head, CRLF, start);
    assert head[start..] == buffer[start..end];
    if i < end {
      assert buffer[start..end][..i - start] == buffer[start..i];
      assert buffer[start..end][i - start + 2..] == buffer[i + 2..end];
    }
  }

  lemma AddLinesCons(headers: map<string, string>, line: string, rest: seq<string>)
    ensures AddLine(headers, line).Err? ==> AddLines(headers, [line] + rest) == Err(AddLine(headers, line).text)
    ensures AddLine(headers, line).Ok? ==>
              AddLines(headers, [line] + rest) == AddLines(AddLine(headers, line).value, rest)
  {
    hide AddLine;
    assert ([line] + rest)[1..] == rest;
  }

  // ---- The parser -----------------------------------------------------------------------------

  class HTTPParser {
    const maxHeaderBytes: nat
    const maxBodyBytes: nat
    var buffer: string
    var parsedRequest: Request
    var parseError: string
    var contentLength: nat
    var headersParsed: bool
    var complete: bool

    ghost function View(): Parser
      reads this
    {
      Parser(maxHeaderBytes, maxBodyBytes, buffer, if headersParsed then parsedRequest else NO_REQUEST, parseError,
             if headersParsed then contentLength else 0, headersParsed, complete)
    }

    ghost predicate Valid()
      reads this
    {
      (complete ==> headersParsed) && (!headersParsed ==> parsedRequest.body == "" && contentLength == 0)
    }

    constructor (maxHeader: nat, maxBody: nat)
      ensures Valid() && View() == NewParser(maxHeader, maxBody)
    {
      maxHeaderBytes, maxBodyBytes := maxHeader, maxBody;
      buffer, parsedRequest, parseError, contentLength, headersParsed, complete := "", NO_REQUEST, "", 0, false, false;
    }

    /** `feed`: exactly the specified step, and the status is the new state's. */
    method Feed(bytes: string) returns (status: Outcome)
      requires Valid()
      modifies this
      ensures Valid()
      ensures View() == HttpModel.Feed(old(View()), bytes)
      ensures status == StatusOf(View())
    {
      hide Find, ParseHead;
      if complete || parseError != "" {
        return if complete then Complete(parsedRequest) else Error(parseError);
      }
      if |buffer| + |bytes| > maxHeaderBytes + maxBodyBytes {
        parseError := TOO_LARGE;
        return Error(parseError);
      }
      buffer := buffer + bytes;
      if !headersParsed {
        var separator := Find(buffer, HEAD_END, 0);
        if separator.None? {
          if |buffer| > maxHeaderBytes {
            parseError := HEADERS_TOO_LARGE;
            return Error(parseError);
          }
          return Incomplete;
        }
        if separator.value + 4 > maxHeaderBytes {
          parseError := HEADERS_TOO_LARGE;
          return Error(parseError);
        }
        FoundInside(buffer, separator.value);
        ParseHeaders(separator.value);
        if parseError != "" {
          return Error(parseError);
        }
        headersParsed := true;
        buffer := buffer[separator.value + 4..];
      }
      if |buffer| < contentLength {
        return Incomplete;
      }
      parsedRequest := parsedRequest.(body := buffer[..contentLength]);
      complete := true;
      return Complete(parsedRequest);
    }

    /** `parse_headers`: the head before the blank line at `headerEnd`. */
    method ParseHeaders(headerEnd: nat)
      requires parseError == "" && headerEnd <= |buffer| && Find(buffer, HEAD_END, 0) == Some(headerEnd)
      requires parsedRequest.body == "" && contentLength == 0
      modifies this`parsedRequest, this`parseError, this`contentLength
      ensures match ParseHead(buffer[..headerEnd], maxBodyBytes)
              case Err(t) => parseError == t && parsedRequest == old(parsedRequest)
                && contentLength == old(contentLength)
              case Ok(h) => parseError == "" && parsedRequest == h.request && contentLength == h.length
    {
      hide Find, MatchAt, SplitLines, AddLines, AddLine, ParseRequestLine, BodyLength;
      ghost var head := buffer[..headerEnd];
      NextLine(buffer, headerEnd, 0);
      assert buffer[0..headerEnd] == head;
      var requestLineEnd := Find(buffer, CRLF, 0).value;
      if requestLineEnd >= headerEnd {
        parseError := NO_REQUEST_LINE;
        return;
      }
      var target := ReadRequestLine(buffer[..requestLineEnd]);
      LinesOf(head, buffer[0..requestLineEnd], SplitLines(buffer[requestLineEnd + 2..headerEnd]));
      if target.Err? {
        parseError := target.text;
        return;
      }
      var headers := ReadHeaderLines(headerEnd, requestLineEnd + 2, requestLineEnd);
      if headers.Err? {
        parseError := headers.text;
        return;
      }
      var length := ReadLength(headers.value);
      if length.Err? {
        parseError := length.text;
        return;
      }
      parsedRequest := Request(target.value.verb, target.value.path, target.value.query, headers.value, "");
      contentLength := length.value;
    }

    /** The request line: two blanks, the version, and the target split at the question mark. */
    method ReadRequestLine(line: string) returns (r: Result<Target>)
      ensures r == ParseRequestLine(line) && (r.Err? ==> r.text != "")
    {
      hide Find;
      var methodEnd := Find(line, " ", 0);
      var pathEnd := if methodEnd.None? then None else Find(line, " ", methodEnd.value + 1);
      if methodEnd.None? || pathEnd.None? || methodEnd.value == 0 || pathEnd.value == methodEnd.value + 1 {
        return Err(BAD_REQUEST_LINE);
      }
      var version := line[pathEnd.value + 1..];
      if version != "HTTP/1.0" && version != "HTTP/1.1" {
        return Err(BAD_VERSION);
      }
      var target := line[methodEnd.value + 1..pathEnd.value];
      var queryStart := Find(target, "?", 0);
      var path := if queryStart.None? then target else target[..queryStart.value];
      if path == "" {
        return Err(EMPTY_PATH);
      }
      var query := if queryStart.None? then "" else target[queryStart.value + 1..];
      return Ok(Target(line[..methodEnd.value], path, query));
    }

    /** The body framing: no transfer coding, and a length within the limit. */
    method ReadLength(headers: map<string, string>) returns (r: Result<nat>)
      ensures r == BodyLength(headers, maxBodyBytes) && (r.Err? ==> r.text != "")
    {
      if TRANSFER_ENCODING in headers {
        return Err(NO_TRANSFER_ENCODING);
      }
      if CONTENT_LENGTH in headers {
        var parsed := FromChars(headers[CONTENT_LENGTH]);
        if parsed.None? {
          return Err(BAD_LENGTH);
        }
        if parsed.value > maxBodyBytes {
          return Err(BODY_TOO_LARGE);
        }
        return Ok(parsed.value);
      }
      return Ok(0);
    }

    /** The header-line loop. */
    method ReadHeaderLines(headerEnd: nat, start: nat, ghost previous: nat) returns (r: Result<map<string, string>>)
      requires headerEnd <= |buffer| && Find(buffer, HEAD_END, 0) == Some(headerEnd)
      requires start == previous + 2 <= headerEnd && MatchAt(buffer, CRLF, previous)
      ensures r == AddLines(map[], SplitLines(buffer[start..headerEnd])) && (r.Err? ==> r.text != "")
    {
      hide Find, MatchAt, SplitLines, AddLines;
      ghost var lines := SplitLines(buffer[start..headerEnd]);
      var headers: map<string, string> := map[];
      var lineStart := start;
      NoEmptyLine(buffer, headerEnd, previous);
      while lineStart < headerEnd
        invariant start <= lineStart && lineStart != headerEnd && lineStart <= headerEnd + 2
        invariant lineStart < headerEnd ==>
                  AddLines(map[], lines) == AddLines(headers, SplitLines(buffer[lineStart..headerEnd]))
        invariant lineStart > headerEnd ==> AddLines(map[], lines) == Ok(headers)
      {
        NextLine(buffer, headerEnd, lineStart);
        var lineEnd := Find(buffer, CRLF, lineStart).value;
        var line := buffer[lineStart..lineEnd];
        ghost var after := if lineEnd < headerEnd then SplitLines(buffer[lineEnd + 2..headerEnd]) else [];
        assert lineEnd == headerEnd ==> [line] == [line] + [];
        AddLinesCons(headers, line, after);
        var next := AddHeaderLine(headers, line);
        if next.Err? {
          return next;
        }
        headers := next.value;
        AddNothing(headers);
        if lineEnd < headerEnd {
          FindMatches(buffer, lineStart);
          NoEmptyLine(buffer, headerEnd, lineEnd);
        }
        lineStart := lineEnd + 2;
      }
      r := Ok(headers);
    }

    /** One line: split at the colon, normalise, combine with what is there. */
    method AddHeaderLine(headers: map<string, string>, line: string) returns (r: Result<map<string, string>>)
      ensures r == AddLine(headers, line) && (r.Err? ==> r.text != "")
    {
      var colon := Find(line, ":", 0);
      if colon.None? || colon.value == 0 {
        return Err(BAD_HEADER);
      }
      var name := Lowercase(line[..colon.value]);
      var value := Trim(line[colon.value + 1..]);
      if name == "" || '\r' in value || '\n' in value {
        return Err(BAD_VALUE);
      }
      if name !in headers {
        return Ok(headers[name := value]);
      }
      if name == CONTENT_LENGTH && headers[name] != value {
        return Err(LENGTH_CONFLICT);
      }
      if name != CONTENT_LENGTH {
        return Ok(headers[name := headers[name] + "," + value]);
      }
      return Ok(headers);
    }
  }

  lemma FindMatches(s: string, from: nat)
    requires Find(s, CRLF, from).Some?
    ensures MatchAt(s, CRLF, Find(s, CRLF, from).value)
  {}

  lemma AddNothing(headers: map<string, string>)
    ensures AddLines(headers, []) == Ok(headers)
  {}

  lemma LinesOf(head: string, first: string, rest: seq<string>)
    requires SplitLines(head) == [first] + rest && rest != []
    ensures |SplitLines(head)| != 1 && SplitLines(head)[0] == first && SplitLines(head)[1..] == rest
  {
    hide SplitLines;
    assert ([first] + rest)[1..] == rest;
  }
}
