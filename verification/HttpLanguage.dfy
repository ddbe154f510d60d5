/** Exactly which streams the parser accepts: those that begin with a rendered well-formed
    request. The converse of the round trip, piece by piece. */
module HttpLanguage {
  import opened Options
  import opened Decimals
  import opened HttpText
  import opened HttpModel
  import opened HttpRoundTrip

  // ---- Lines ------------------------------------------------------------------------------

  /** A part of a line is a line. */
  lemma SliceOneLine(s: string, from: nat, upto: nat)
    requires OneLine(s) && from <= upto <= |s|
    ensures OneLine(s[from..upto])
  {
    forall k: nat ensures !MatchAt(s[from..upto], CRLF, k) {
      LineEndChars(s[from..upto], k);
      LineEndChars(s, from + k);
    }
  }

  /** Text up to the first line end has none inside. */
  lemma BeforeLineEnd(s: string, n: nat)
    requires n <= |s| && (Find(s, CRLF, 0).None? || n <= Find(s, CRLF, 0).value)
    ensures OneLine(s[..n])
  {
    hide Find;
    forall k: nat ensures !MatchAt(s[..n], CRLF, k) {
      LineEndChars(s[..n], k);
      LineEndChars(s, k);
      if MatchAt(s, CRLF, k) { FindFirst(s, CRLF, 0, k); }
    }
  }

  /** Splitting gives lines, and joining them gives the text back. */
  lemma {:induction false} JoinSplit(s: string)
    ensures JoinLines(SplitLines(s)) == s
    ensures forall i :: 0 <= i < |SplitLines(s)| ==> OneLine(SplitLines(s)[i])
    decreases |s|
  {
    hide Find, OneLine;
    var found := Find(s, CRLF, 0);
    if found.None? {
      BeforeLineEnd(s, |s|);
      assert s[..|s|] == s;
    } else {
      var i := found.value;
      BeforeLineEnd(s, i);
      JoinSplit(s[i + 2..]);
      assert s[i..i + 2] == CRLF;
      assert s == s[..i] + CRLF + s[i + 2..];
      assert SplitLines(s)[1..] == SplitLines(s[i + 2..]);
    }
  }

  // ---- Header lines -------------------------------------------------------------------------

  /** Trimming takes away blanks alone. */
  lemma {:induction false} TrimLeftLoses(s: string, c: char)
    requires c in s && !IsBlank(c)
    ensures c in TrimLeft(s)
    decreases |s|
  {
    if IsBlank(s[0]) { TrimLeftLoses(s[1..], c); }
  }

  lemma {:induction false} TrimRightLoses(s: string, c: char)
    requires c in s && !IsBlank(c)
    ensures c in TrimRight(s)
    decreases |s|
  {
    if IsBlank(s[|s| - 1]) { TrimRightLoses(s[..|s| - 1], c); }
  }

  lemma TrimLoses(s: string, c: char)
    requires c in s && !IsBlank(c)
    ensures c in TrimBoth(s)
  {
    hide TrimLeft, TrimRight;
    TrimLeftLoses(s, c);
    TrimRightLoses(TrimLeft(s), c);
  }

  /** A header line that is added is the line of a good field. */
  lemma FieldOnly(headers: map<string, string>, line: string) returns (f: Field)
    requires AddLine(headers, line).Ok? && OneLine(line)
    ensures FieldLine(f) == line && FieldOk(f)
    ensures AddLine(headers, line) == AddField(headers, Lower(f.name), TrimBoth(f.value))
  {
    hide Find, TrimBoth, Lower, OneLine;
    var c := Find(line, ":", 0).value;
    assert line[c..c + 1] == ":";
    NoneBefore(line, ':', 0, c);
    f := Field(line[..c], line[c + 1..]);
    assert line[0..c] == line[..c];
    SliceOneLine(line, 0, c);
    if '\r' in f.value { TrimLoses(f.value, '\r'); }
    if '\n' in f.value { TrimLoses(f.value, '\n'); }
  }

  lemma FieldsCons(f: Field, fields: seq<Field>)
    ensures FieldLines([f] + fields) == [FieldLine(f)] + FieldLines(fields)
    ensures ([f] + fields)[0] == f && ([f] + fields)[1..] == fields
  {
    assert ([f] + fields)[1..] == fields;
  }

  /** Length fields that are all added agree. */
  lemma AgreeCons(headers: map<string, string>, next: map<string, string>, f: Field, fields: seq<Field>)
    requires AddField(headers, Lower(f.name), TrimBoth(f.value)) == Ok(next) && Agree(next, fields)
    ensures Agree(headers, [f] + fields)
  {
    hide Lower, TrimBoth;
    var n, v := Lower(f.name), TrimBoth(f.value);
    var rest, all := ValuesOf(fields, CONTENT_LENGTH), ValuesOf([f] + fields, CONTENT_LENGTH);
    FieldsCons(f, fields);
    if n == CONTENT_LENGTH {
      assert all == [v] + rest;
      assert Some(v) == Lookup(next, CONTENT_LENGTH);
      assert forall u :: u in rest ==> u == v;
      assert forall u :: u in all ==> u == v;
      assert CONTENT_LENGTH in headers ==> headers[CONTENT_LENGTH] == v;
    } else {
      assert all == rest && Lookup(next, CONTENT_LENGTH) == Lookup(headers, CONTENT_LENGTH);
    }
  }

  /** Header lines that are all added are the lines of good fields with agreeing lengths. */
  lemma {:induction false} FieldsOnly(headers: map<string, string>, lines: seq<string>) returns (fields: seq<Field>)
    requires AddLines(headers, lines).Ok? && forall i :: 0 <= i < |lines| ==> OneLine(lines[i])
    ensures FieldLines(fields) == lines && (forall f :: f in fields ==> FieldOk(f)) && Agree(headers, fields)
    decreases |lines|
  {
    hide AddLine, AddField, OneLine, FieldOk, Agree, TrimBoth, Lower;
    if lines == [] {
      fields := [];
      NothingDisagrees(headers);
    } else {
      var f := FieldOnly(headers, lines[0]);
      var next := AddLine(headers, lines[0]).value;
      var more := FieldsOnly(next, lines[1..]);
      fields := [f] + more;
      FieldsCons(f, more);
      AgreeCons(headers, next, f, more);
      assert lines == [lines[0]] + lines[1..];
    }
  }

  lemma NothingDisagrees(headers: map<string, string>)
    ensures Agree(headers, [])
  {}

  // ---- The head and the body ------------------------------------------------------------------

  /** A body length that is accepted is what the fields say. */
  lemma LengthOnly(fields: seq<Field>, maxBody: nat, n: nat)
    requires Agree(map[], fields) && BodyLength(HeadersOf(fields), maxBody) == Ok(n)
    ensures ValuesOf(fields, TRANSFER_ENCODING) == [] && LengthsSay(ValuesOf(fields, CONTENT_LENGTH), n)
    ensures n <= maxBody && n < SIZE_T_LIMIT
  {
    hide ValuesOf, Names, Number, CommaJoin;
    NamesHaveValues(fields, TRANSFER_ENCODING);
    NamesHaveValues(fields, CONTENT_LENGTH);
    var lengths := ValuesOf(fields, CONTENT_LENGTH);
    if lengths != [] { assert lengths[0] in lengths; }
  }

  /** The parts of a request line that is one line are. */
  lemma PartsOneLine(w: Wire)
    requires OneLine(RequestLine(w))
    ensures OneLine(w.verb) && OneLine(w.path) && (w.query.Some? ==> OneLine(w.query.value))
  {
    hide OneLine;
    var line, v, p := RequestLine(w), |w.verb|, |w.path|;
    SliceOneLine(line, 0, v);
    assert line[0..v] == w.verb;
    SliceOneLine(line, v + 1, v + 1 + p);
    assert line[v + 1..v + 1 + p] == w.path;
    if w.query.Some? {
      var q := |w.query.value|;
      SliceOneLine(line, v + p + 2, v + p + 2 + q);
      assert line[v + p + 2..v + p + 2 + q] == w.query.value;
    }
  }

  /** A head that parses is the head of a wire request, in all but the body. */
  lemma HeadOnly(head: string, maxBody: nat) returns (w: Wire)
    requires ParseHead(head, maxBody).Ok?
    ensures HeadText(w) == head && w.fields != [] && (forall f :: f in w.fields ==> FieldOk(f))
    ensures w.verb != "" && ' ' !in w.verb && OneLine(w.verb)
    ensures w.path != "" && ' ' !in w.path && '?' !in w.path && OneLine(w.path)
    ensures w.query.Some? ==> ' ' !in w.query.value && OneLine(w.query.value)
    ensures w.version == "HTTP/1.0" || w.version == "HTTP/1.1"
    ensures Agree(map[], w.fields)
    ensures BodyLength(HeadersOf(w.fields), maxBody) == Ok(ParseHead(head, maxBody).value.length)
  {
    hide SplitLines, ParseRequestLine, AddLines, BodyLength, RequestLine, FieldLines, JoinLines, HeadersOf, FieldOk,
         Agree, OneLine;
    var lines := SplitLines(head);
    JoinSplit(head);
    var first := RequestLineOnly(lines[0]);
    assert OneLine(lines[0]);
    PartsOneLine(first);
    var fields := FieldsOnly(map[], lines[1..]);
    HeadersCombine(fields);
    w := first.(fields := fields);
    SameRequestLine(first, w);
    assert lines == [lines[0]] + lines[1..];
    NoFields(fields);
  }

  lemma SameRequestLine(a: Wire, b: Wire)
    requires a.verb == b.verb && a.path == b.path && a.query == b.query && a.version == b.version
    ensures RequestLine(a) == RequestLine(b)
  {}

  lemma NoFields(fields: seq<Field>)
    ensures fields == [] ==> FieldLines(fields) == []
  {}

  /** A complete stream begins with a well-formed request. */
  lemma CompleteOnly(s: string, maxHeader: nat, maxBody: nat) returns (w: Wire, extra: string)
    requires OneShot(s, maxHeader, maxBody).Complete?
    ensures WellFormed(w, maxHeader, maxBody) && s == Render(w) + extra
  {
    hide Find, ParseHead, HeadText, HeadersOf, ValuesOf, LengthsSay, FieldOk, Agree, OneLine, BodyLength;
    var e := Find(s, HEAD_END, 0).value;
    var n := ParseHead(s[..e], maxBody).value.length;
    var head := HeadOnly(s[..e], maxBody);
    LengthOnly(head.fields, maxBody, n);
    var rest := s[e + 4..];
    w, extra := head.(body := rest[..n]), rest[n..];
    SameHead(head, w);
    FoundEnd(s, e);
    assert rest == rest[..n] + rest[n..];
    assert s[..e] + HEAD_END + (w.body + extra) == (s[..e] + HEAD_END + w.body) + extra;
  }

  lemma SameHead(a: Wire, b: Wire)
    requires b == a.(body := b.body)
    ensures HeadText(a) == HeadText(b)
  {
    SameRequestLine(a, b);
  }

  lemma FoundEnd(s: string, e: nat)
    requires MatchAt(s, HEAD_END, e)
    ensures s == s[..e] + HEAD_END + s[e + 4..]
  {}

  /** The accepted language: a stream is complete if and only if it begins with the rendering of a
      well-formed request, and the request reported is then that one. */
  lemma AcceptedExactly(s: string, maxHeader: nat, maxBody: nat)
    ensures OneShot(s, maxHeader, maxBody).Complete?
            <==> exists w: Wire, extra: string :: WellFormed(w, maxHeader, maxBody) && s == Render(w) + extra
    ensures forall w: Wire, extra: string :: WellFormed(w, maxHeader, maxBody) && s == Render(w) + extra ==>
              OneShot(s, maxHeader, maxBody)
              == Complete(Request(w.verb, w.path, QueryText(w), HeadersOf(w.fields), w.body))
  {
    hide OneShot, WellFormed, Render, HeadersOf;
    forall w: Wire, extra: string | WellFormed(w, maxHeader, maxBody) && s == Render(w) + extra
      ensures OneShot(s, maxHeader, maxBody)
              == Complete(Request(w.verb, w.path, QueryText(w), HeadersOf(w.fields), w.body))
    {
      RenderParse(w, extra, maxHeader, maxBody);
    }
    if OneShot(s, maxHeader, maxBody).Complete? {
      var w, extra := CompleteOnly(s, maxHeader, maxBody);
    }
  }
}
