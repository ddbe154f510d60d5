/** Which error text a stream gets, told from its shape. A stream here is its lines, the blank line,
    and whatever follows. */
module HttpErrors {
  import opened Options
  import opened Decimals
  import opened HttpText
  import opened HttpModel
  import opened HttpRoundTrip
  import opened HttpLanguage

  ghost predicate Lines(lines: seq<string>) {
    lines != [] && forall i :: 0 <= i < |lines| ==> OneLine(lines[i]) && lines[i] != ""
  }

  function Stream(lines: seq<string>, rest: string): string
    requires lines != []
  {
    JoinLines(lines) + HEAD_END + rest
  }

  /** The head of such a stream is judged by its lines. */
  lemma StreamHead(lines: seq<string>, rest: string, maxHeader: nat, maxBody: nat)
    requires Lines(lines) && |JoinLines(lines)| + 4 <= maxHeader
    ensures SplitLines(JoinLines(lines)) == lines
    ensures ParseHead(JoinLines(lines), maxBody).Err? ==>
              OneShot(Stream(lines, rest), maxHeader, maxBody) == Error(ParseHead(JoinLines(lines), maxBody).text)
  {
    hide JoinLines, Find, ParseHead, OneLine, SplitLines;
    HeadEndFound(lines, rest);
    SplitJoin(lines);
    assert Stream(lines, rest)[..|JoinLines(lines)|] == JoinLines(lines);
  }

  // ---- Sizes ------------------------------------------------------------------------------

  lemma LongHead(lines: seq<string>, rest: string, maxHeader: nat, maxBody: nat)
    requires Lines(lines) && |JoinLines(lines)| + 4 > maxHeader
    ensures OneShot(Stream(lines, rest), maxHeader, maxBody) == Error("headers exceed configured size limit")
  {
    hide JoinLines, Find, ParseHead, OneLine;
    HeadEndFound(lines, rest);
  }

  /** Without a blank line the parser waits, up to the header limit. */
  lemma NoHead(s: string, maxHeader: nat, maxBody: nat)
    requires forall k: nat :: !MatchAt(s, HEAD_END, k)
    ensures OneShot(s, maxHeader, maxBody)
            == if |s| <= maxHeader then Incomplete else Error("headers exceed configured size limit")
  {
    FindNone(s, HEAD_END, 0);
  }

  // ---- The request line -------------------------------------------------------------------------

  lemma OneLineOnly(line: string, rest: string, maxHeader: nat, maxBody: nat)
    requires Lines([line]) && |line| + 4 <= maxHeader
    ensures OneShot(Stream([line], rest), maxHeader, maxBody) == Error("missing request line")
  {
    hide OneLine, Find, SplitLines;
    StreamHead([line], rest, maxHeader, maxBody);
  }

  /** A nonempty word, a blank, a nonempty word, a blank, and anything. */
  predicate ThreeParts(line: string, verb: string, target: string, version: string) {
    verb != "" && target != "" && ' ' !in verb && ' ' !in target && line == verb + " " + target + " " + version
  }

  lemma PartsFound(line: string, verb: string, target: string, version: string)
    requires ThreeParts(line, verb, target, version)
    ensures Find(line, " ", 0) == Some(|verb|) && Find(line, " ", |verb| + 1) == Some(|verb| + 1 + |target|)
    ensures line[..|verb|] == verb && line[|verb| + 1..|verb| + 1 + |target|] == target
    ensures line[|verb| + |target| + 2..] == version
  {
    hide Find, MatchAt;
    PartSlices(verb, target, version);
    FindSeparator(verb, ' ', target + " " + version, 0);
    FindSeparator(verb + " " + target, ' ', version, |verb| + 1);
  }

  lemma PartSlices(a: string, b: string, c: string)
    ensures var line := a + " " + b + " " + c;
            && line == a + " " + (b + " " + c) && a[0..] == a && (a + " " + b)[|a| + 1..] == b
            && line[..|a|] == a && line[|a| + 1..|a| + 1 + |b|] == b && line[|a| + |b| + 2..] == c
  {}

  /** A line that is refused for another reason, or not at all, has three parts. */
  lemma PartsOnly(line: string) returns (verb: string, target: string, version: string)
    requires ParseRequestLine(line) != Err("malformed request line")
    ensures ThreeParts(line, verb, target, version)
  {
    hide Find;
    var m := Find(line, " ", 0).value;
    var p := Find(line, " ", m + 1).value;
    LineOnly(line, m, p);
    verb, target, version := line[..m], line[m + 1..p], line[p + 1..];
  }

  lemma BadVersionLine(line: string, verb: string, target: string, version: string)
    requires ThreeParts(line, verb, target, version) && version != "HTTP/1.0" && version != "HTTP/1.1"
    ensures ParseRequestLine(line) == Err("unsupported HTTP version")
  {
    hide Find, MatchAt, ParseTarget;
    PartsFound(line, verb, target, version);
  }

  lemma EmptyPathLine(line: string, verb: string, query: string, version: string)
    requires ThreeParts(line, verb, "?" + query, version) && (version == "HTTP/1.0" || version == "HTTP/1.1")
    ensures ParseRequestLine(line) == Err("request target path is empty")
  {
    hide Find, MatchAt;
    PartsFound(line, verb, "?" + query, version);
    FindSeparator("", '?', query, 0);
    assert "" + "?" + query == "?" + query;
  }

  lemma MalformedLine(line: string)
    requires forall verb, target, version :: !ThreeParts(line, verb, target, version)
    ensures ParseRequestLine(line) == Err("malformed request line")
  {
    hide ParseRequestLine;
    if ParseRequestLine(line) != Err("malformed request line") {
      var verb, target, version := PartsOnly(line);
    }
  }

  /** The request line decides: not three parts, a version other than 1.0 and 1.1, or a path that is
      empty, each with its own text. */
  lemma RequestLineErrors(first: string, others: seq<string>, rest: string, maxHeader: nat, maxBody: nat)
    requires Lines([first] + others) && others != [] && |JoinLines([first] + others)| + 4 <= maxHeader
    ensures (forall verb, target, version :: !ThreeParts(first, verb, target, version)) ==>
              OneShot(Stream([first] + others, rest), maxHeader, maxBody) == Error("malformed request line")
    ensures forall verb, target, version ::
              ThreeParts(first, verb, target, version) && version != "HTTP/1.0" && version != "HTTP/1.1" ==>
                OneShot(Stream([first] + others, rest), maxHeader, maxBody) == Error("unsupported HTTP version")
    ensures forall verb, query, version ::
              ThreeParts(first, verb, "?" + query, version) && (version == "HTTP/1.0" || version == "HTTP/1.1") ==>
                OneShot(Stream([first] + others, rest), maxHeader, maxBody) == Error("request target path is empty")
  {
    hide JoinLines, OneLine, SplitLines, ParseRequestLine, OneShot, AddLines, ThreeParts, Stream;
    StreamHead([first] + others, rest, maxHeader, maxBody);
    assert ([first] + others)[0] == first;
    if forall verb, target, version :: !ThreeParts(first, verb, target, version) { MalformedLine(first); }
    forall verb, target, version |
      ThreeParts(first, verb, target, version) && version != "HTTP/1.0" && version != "HTTP/1.1"
      ensures OneShot(Stream([first] + others, rest), maxHeader, maxBody) == Error("unsupported HTTP version")
    {
      BadVersionLine(first, verb, target, version);
    }
    forall verb, query, version |
      ThreeParts(first, verb, "?" + query, version) && (version == "HTTP/1.0" || version == "HTTP/1.1")
      ensures OneShot(Stream([first] + others, rest), maxHeader, maxBody) == Error("request target path is empty")
    {
      EmptyPathLine(first, verb, query, version);
    }
  }

  // ---- Header lines ---------------------------------------------------------------------------------

  lemma {:induction false} AddLinesConcat(headers: map<string, string>, a: seq<string>, b: seq<string>)
    requires AddLines(headers, a).Ok?
    ensures AddLines(headers, a + b) == AddLines(AddLines(headers, a).value, b)
    decreases |a|
  {
    hide AddLine;
    if a == [] {
      assert a + b == b;
    } else {
      AddLinesConcat(AddLine(headers, a[0]).value, a[1..], b);
      assert (a + b)[1..] == a[1..] + b;
    }
  }

  /** The first bad line after good fields decides. */
  lemma FirstBadLine(fields: seq<Field>, bad: string, later: seq<string>, text: string)
    requires (forall f :: f in fields ==> FieldOk(f)) && Agree(map[], fields)
    requires AddLine(HeadersOf(fields), bad) == Err(text)
    ensures AddLines(map[], FieldLines(fields) + ([bad] + later)) == Err(text)
  {
    hide AddLine, FieldLines, HeadersOf, FieldOk, Agree;
    HeadersCombine(fields);
    AddLinesConcat(map[], FieldLines(fields), [bad] + later);
    assert ([bad] + later)[0] == bad;
  }

  lemma NoColon(headers: map<string, string>, line: string)
    requires ':' !in line || line[0] == ':'
    ensures AddLine(headers, line) == Err("malformed header")
  {
    hide Find;
    if ':' !in line {
      NoSeparator(line, ':');
    } else {
      assert line == "" + ":" + line[1..];
      FindSeparator("", ':', line[1..], 0);
    }
  }

  lemma BadValue(headers: map<string, string>, f: Field)
    requires f.name != "" && ':' !in f.name && ('\r' in f.value || '\n' in f.value)
    ensures AddLine(headers, FieldLine(f)) == Err("malformed header value")
  {
    hide Find, TrimBoth, Lower;
    assert f.name[0..] == f.name;
    FindSeparator(f.name, ':', f.value, 0);
    var line := FieldLine(f);
    assert line[..|f.name|] == f.name && line[|f.name| + 1..] == f.value;
    if '\r' in f.value { TrimLoses(f.value, '\r'); } else { TrimLoses(f.value, '\n'); }
  }

  lemma LengthConflicts(headers: map<string, string>, f: Field)
    requires FieldOk(f) && Lower(f.name) == "content-length"
    requires "content-length" in headers && headers["content-length"] != TrimBoth(f.value)
    ensures AddLine(headers, FieldLine(f)) == Err("conflicting content-length headers")
  {
    hide TrimBoth, Lower;
    FieldLineParses(headers, f);
    TrimKeeps(f.value, '\r');
    TrimKeeps(f.value, '\n');
    assert |Lower(f.name)| == |f.name|;
  }

  /** After a good request line and good fields, the first header line that is not good decides: no
      name before a colon, a line break in the value, or a second length that differs. */
  lemma HeaderLineErrors(first: string, fields: seq<Field>, bad: string, later: seq<string>, rest: string,
                         maxHeader: nat, maxBody: nat)
    requires Lines([first] + (FieldLines(fields) + ([bad] + later))) && ParseRequestLine(first).Ok?
    requires |JoinLines([first] + (FieldLines(fields) + ([bad] + later)))| + 4 <= maxHeader
    requires (forall f :: f in fields ==> FieldOk(f)) && Agree(map[], fields)
    ensures ':' !in bad || bad[0] == ':' ==>
              OneShot(Stream([first] + (FieldLines(fields) + ([bad] + later)), rest), maxHeader, maxBody)
              == Error("malformed header")
    ensures forall f: Field ::
              bad == FieldLine(f) && f.name != "" && ':' !in f.name && ('\r' in f.value || '\n' in f.value) ==>
                OneShot(Stream([first] + (FieldLines(fields) + ([bad] + later)), rest), maxHeader, maxBody)
                == Error("malformed header value")
    ensures forall f: Field ::
              bad == FieldLine(f) && FieldOk(f) && Lower(f.name) == "content-length"
              && ValuesOf(fields, "content-length") != []
              && ValuesOf(fields, "content-length")[0] != TrimBoth(f.value) ==>
                OneShot(Stream([first] + (FieldLines(fields) + ([bad] + later)), rest), maxHeader, maxBody)
                == Error("conflicting content-length headers")
  {
    hide JoinLines, OneLine, SplitLines, ParseRequestLine, OneShot, AddLines, Stream, FieldLines, AddLine, ValuesOf,
         FieldOk, Agree, TrimBoth, Lower, FieldLine, Names;
    var others := FieldLines(fields) + ([bad] + later);
    StreamHead([first] + others, rest, maxHeader, maxBody);
    assert ([first] + others)[0] == first && ([first] + others)[1..] == others;
    if ':' !in bad || bad[0] == ':' {
      NoColon(HeadersOf(fields), bad);
      FirstBadLine(fields, bad, later, "malformed header");
    }
    forall f: Field | bad == FieldLine(f) && f.name != "" && ':' !in f.name && ('\r' in f.value || '\n' in f.value)
      ensures OneShot(Stream([first] + others, rest), maxHeader, maxBody) == Error("malformed header value")
    {
      BadValue(HeadersOf(fields), f);
      FirstBadLine(fields, bad, later, "malformed header value");
    }
    forall f: Field |
      && bad == FieldLine(f) && FieldOk(f) && Lower(f.name) == "content-length"
      && ValuesOf(fields, "content-length") != [] && ValuesOf(fields, "content-length")[0] != TrimBoth(f.value)
      ensures OneShot(Stream([first] + others, rest), maxHeader, maxBody) == Error("conflicting content-length headers")
    {
      NamesHaveValues(fields, "content-length");
      LengthConflicts(HeadersOf(fields), f);
      FirstBadLine(fields, bad, later, "conflicting content-length headers");
    }
  }

  // ---- Body framing ---------------------------------------------------------------------------------

  /** With a good request line and good fields, the framing decides: a transfer coding, a length that is
      not a number below 2^64, or one over the limit. */
  lemma FramingErrors(first: string, fields: seq<Field>, rest: string, maxHeader: nat, maxBody: nat)
    requires Lines([first] + FieldLines(fields)) && ParseRequestLine(first).Ok? && fields != []
    requires |JoinLines([first] + FieldLines(fields))| + 4 <= maxHeader
    requires (forall f :: f in fields ==> FieldOk(f)) && Agree(map[], fields)
    ensures var lengths := ValuesOf(fields, "content-length");
            var result := OneShot(Stream([first] + FieldLines(fields), rest), maxHeader, maxBody);
            if ValuesOf(fields, "transfer-encoding") != [] then result == Error("transfer-encoding is unsupported")
            else if lengths == [] then result.Complete?
            else if lengths[0] == "" || !AllDigits(lengths[0]) || Number(lengths[0]) >= 0x1_0000_0000_0000_0000
            then result == Error("invalid content-length")
            else if Number(lengths[0]) > maxBody then result == Error("body exceeds configured size limit")
            else if |rest| < Number(lengths[0]) then result.Incomplete?
            else result.Complete?
  {
    hide JoinLines, OneLine, SplitLines, ParseRequestLine, AddLines, FieldLines, ValuesOf, FieldOk, Agree, Names, Find,
         Number, AllDigits, CommaJoin;
    var lines := [first] + FieldLines(fields);
    StreamHead(lines, rest, maxHeader, maxBody);
    assert lines[0] == first && lines[1..] == FieldLines(fields);
    HeadersCombine(fields);
    NamesHaveValues(fields, "transfer-encoding");
    NamesHaveValues(fields, "content-length");
    HeadEndFound(lines, rest);
    var n := |JoinLines(lines)|;
    assert Stream(lines, rest)[..n] == JoinLines(lines) && Stream(lines, rest)[n + 4..] == rest;
  }
}
