/** Rendering a well-formed request and parsing it gives the request back. */
module HttpRoundTrip {
  import opened Options
  import opened Decimals
  import opened HttpText
  import opened HttpModel

  datatype Field = Field(name: string, value: string)

  /** A request as a client writes it: header lines in order, names in any case,
      blanks around values, repeats allowed. */
  datatype Wire = Wire(verb: string, path: string, query: Option<string>, version: string, fields: seq<Field>,
                       body: string)

  function RequestLine(w: Wire): string {
    w.verb + " " + TargetText(w) + " " + w.version
  }

  function TargetText(w: Wire): string { TargetOf(w.path, w.query) }

  function TargetOf(path: string, query: Option<string>): string {
    if query.Some? then path + "?" + query.value else path
  }

  function FieldLine(f: Field): string { f.name + ":" + f.value }

  function FieldLines(fields: seq<Field>): (lines: seq<string>)
    ensures |lines| == |fields|
  {
    if fields == [] then [] else [FieldLine(fields[0])] + FieldLines(fields[1..])
  }

  function JoinLines(lines: seq<string>): string
    requires lines != []
  {
    if |lines| == 1 then lines[0] else lines[0] + CRLF + JoinLines(lines[1..])
  }

  function HeadText(w: Wire): string { JoinLines([RequestLine(w)] + FieldLines(w.fields)) }

  function Render(w: Wire): string { HeadText(w) + HEAD_END + w.body }

  // ---- What the headers mean ----------------------------------------------------------------

  /** The trimmed values given for a lower-case name, in order. */
  function ValuesOf(fields: seq<Field>, name: string): seq<string> {
    if fields == [] then []
    else if Lower(fields[0].name) == name then [TrimBoth(fields[0].value)] + ValuesOf(fields[1..], name)
    else ValuesOf(fields[1..], name)
  }

  function CommaJoin(values: seq<string>): string
    requires values != []
  {
    if |values| == 1 then values[0] else CommaJoin(values[..|values| - 1]) + "," + values[|values| - 1]
  }

  /** Section 5.2 of RFC 9110: repeated fields are the comma join of their values. */
  function HeadersOf(fields: seq<Field>): map<string, string> {
    map name | name in Names(fields) && ValuesOf(fields, name) != [] ::
      if name == CONTENT_LENGTH then ValuesOf(fields, name)[0] else CommaJoin(ValuesOf(fields, name))
  }

  function Names(fields: seq<Field>): set<string> {
    if fields == [] then {} else {Lower(fields[0].name)} + Names(fields[1..])
  }

  // ---- Well-formedness ------------------------------------------------------------------------

  /** No line ends inside; a lone carriage return or line feed is an ordinary character. */
  ghost predicate OneLine(s: string) { forall k: nat :: !MatchAt(s, CRLF, k) }

  ghost predicate FieldOk(f: Field) {
    f.name != "" && ':' !in f.name && OneLine(f.name) && '\r' !in f.value && '\n' !in f.value
  }

  ghost predicate WellFormed(w: Wire, maxHeader: nat, maxBody: nat) {
    && w.verb != "" && ' ' !in w.verb && OneLine(w.verb)
    && w.path != "" && ' ' !in w.path && '?' !in w.path && OneLine(w.path)
    && (w.query.Some? ==> ' ' !in w.query.value && OneLine(w.query.value))
    && (w.version == "HTTP/1.0" || w.version == "HTTP/1.1")
    && w.fields != [] && (forall f :: f in w.fields ==> FieldOk(f))
    && ValuesOf(w.fields, TRANSFER_ENCODING) == []
    && LengthsSay(ValuesOf(w.fields, CONTENT_LENGTH), |w.body|)
    && |HeadText(w)| + 4 <= maxHeader && |w.body| <= maxBody && |w.body| < SIZE_T_LIMIT
  }

  /** The Content-Length values, if any, are identical digits and spell the body's length;
      without one there is no body. */
  predicate LengthsSay(values: seq<string>, length: nat) {
    if values == [] then length == 0
    else
      && (forall v :: v in values ==> v == values[0])
      && values[0] != "" && AllDigits(values[0]) && Number(values[0]) == length
  }

  // ---- Lines ------------------------------------------------------------------------------------

  /** A line end is its two characters. */
  lemma LineEndChars(s: string, k: nat)
    ensures MatchAt(s, CRLF, k) <==> k + 2 <= |s| && s[k] == '\r' && s[k + 1] == '\n'
  {
    if k + 2 <= |s| {
      assert s[k..k + 2][0] == s[k] && s[k..k + 2][1] == s[k + 1];
      if s[k] == '\r' && s[k + 1] == '\n' { assert s[k..k + 2] == CRLF; }
    }
  }

  /** A blank line begins with a line end, and another follows. */
  lemma HeadEndChars(s: string, k: nat)
    requires MatchAt(s, HEAD_END, k)
    ensures MatchAt(s, CRLF, k) && MatchAt(s, CRLF, k + 2)
  {
    assert s[k..k + 4][0] == s[k] && s[k..k + 4][1] == s[k + 1];
    assert s[k..k + 4][2] == s[k + 2] && s[k..k + 4][3] == s[k + 3];
    LineEndChars(s, k);
    LineEndChars(s, k + 2);
  }

  /** Inside a line, whatever follows it except a line feed, no line end begins. */
  lemma NoneInside(l: string, after: string, k: nat)
    requires OneLine(l) && k < |l| && (after == "" || after[0] != '\n')
    ensures !MatchAt(l + after, CRLF, k)
  {
    LineEndChars(l, k);
    LineEndChars(l + after, k);
  }

  lemma WithoutReturns(s: string)
    requires '\r' !in s
    ensures OneLine(s)
  {
    forall k: nat ensures !MatchAt(s, CRLF, k) {
      LineEndChars(s, k);
    }
  }

  /** Two lines with another character between them are one line. */
  lemma JoinOneLine(a: string, c: char, b: string)
    requires OneLine(a) && OneLine(b) && c != '\r' && c != '\n'
    ensures OneLine(a + [c] + b)
  {
    var s := a + [c] + b;
    forall k: nat ensures !MatchAt(s, CRLF, k) {
      LineEndChars(s, k);
      if k < |a| {
        LineEndChars(a, k);
      } else if k > |a| {
        LineEndChars(b, k - |a| - 1);
      }
    }
  }

  lemma {:induction false} SplitJoin(lines: seq<string>)
    requires lines != [] && forall i :: 0 <= i < |lines| ==> OneLine(lines[i])
    ensures SplitLines(JoinLines(lines)) == lines
    decreases |lines|
  {
    hide Find, MatchAt;
    var s := JoinLines(lines);
    var l := lines[0];
    assert OneLine(l);
    if |lines| == 1 {
      FindNone(s, CRLF, 0);
    } else {
      var rest := JoinLines(lines[1..]);
      SplitJoin(lines[1..]);
      FirstLineEnd(l, rest);
      assert s[..|l|] == l && s[|l| + 2..] == rest;
      assert lines == [l] + lines[1..];
    }
  }

  lemma FirstLineEnd(l: string, rest: string)
    requires OneLine(l)
    ensures Find(l + CRLF + rest, CRLF, 0) == Some(|l|)
  {
    hide Find, OneLine;
    var s := l + CRLF + rest;
    LineEndChars(s, |l|);
    assert s == l + (CRLF + rest);
    forall k | 0 <= k < |l| ensures !MatchAt(s, CRLF, k) { NoneInside(l, CRLF + rest, k); }
    FindIs(s, CRLF, 0, |l|);
  }

  /** Joined nonempty lines do not begin with a line end. */
  lemma StartsInLine(lines: seq<string>, rest: string)
    requires lines != [] && OneLine(lines[0]) && lines[0] != ""
    ensures !MatchAt(JoinLines(lines) + HEAD_END + rest, CRLF, 0)
  {
    hide OneLine;
    var l, s := lines[0], JoinLines(lines) + HEAD_END + rest;
    var after := s[|l|..];
    assert s == l + after;
    NoneInside(l, after, 0);
  }

  /** In joined nonempty lines no blank line begins before the end. */
  lemma {:induction false} NoBlankLine(lines: seq<string>, rest: string, k: nat)
    requires lines != [] && forall i :: 0 <= i < |lines| ==> OneLine(lines[i]) && lines[i] != ""
    requires k < |JoinLines(lines)|
    ensures !MatchAt(JoinLines(lines) + HEAD_END + rest, HEAD_END, k)
    decreases |lines|
  {
    hide OneLine, MatchAt;
    var l := lines[0];
    var s := JoinLines(lines) + HEAD_END + rest;
    assert OneLine(l);
    if k < |l| {
      assert s == l + s[|l|..];
      NoneInside(l, s[|l|..], k);
      if MatchAt(s, HEAD_END, k) { HeadEndChars(s, k); }
    } else {
      var t := JoinLines(lines[1..]);
      var later := t + HEAD_END + rest;
      assert s == (l + CRLF) + later;
      if k == |l| {
        StartsInLine(lines[1..], rest);
        LineEndChars(later, 0);
        LineEndChars(s, k + 2);
        if MatchAt(s, HEAD_END, k) { HeadEndChars(s, k); }
      } else if k == |l| + 1 {
        LineEndChars(s, k);
        if MatchAt(s, HEAD_END, k) { HeadEndChars(s, k); }
      } else {
        NoBlankLine(lines[1..], rest, k - |l| - 2);
        MatchShift(l + CRLF, later, k - |l| - 2);
      }
    }
  }

  lemma MatchShift(a: string, b: string, k: nat)
    ensures MatchAt(a + b, HEAD_END, |a| + k) == MatchAt(b, HEAD_END, k)
  {
    if k + 4 <= |b| { assert (a + b)[|a| + k..|a| + k + 4] == b[k..k + 4]; }
  }

  lemma HeadEndFound(lines: seq<string>, rest: string)
    requires lines != [] && forall i :: 0 <= i < |lines| ==> OneLine(lines[i]) && lines[i] != ""
    ensures Find(JoinLines(lines) + HEAD_END + rest, HEAD_END, 0) == Some(|JoinLines(lines)|)
  {
    hide JoinLines, OneLine, Find;
    var n := |JoinLines(lines)|;
    var s := JoinLines(lines) + HEAD_END + rest;
    assert s[n..n + 4] == HEAD_END;
    forall k | 0 <= k < n ensures !MatchAt(s, HEAD_END, k) { NoBlankLine(lines, rest, k); }
    FindIs(s, HEAD_END, 0, n);
  }

  // ---- Pieces of a line ---------------------------------------------------------------------------

  /** The first separator character comes right after text without it. */
  lemma FindSeparator(before: string, c: char, after: string, from: nat)
    requires from <= |before| && c !in before[from..]
    ensures Find(before + [c] + after, [c], from) == Some(|before|)
  {
    var s := before + [c] + after;
    assert s[|before|..|before| + 1] == [c];
    forall k | from <= k < |before| ensures !MatchAt(s, [c], k) {
      assert s[k] == before[from..][k - from] && before[from..][k - from] in before[from..];
      assert s[k..k + 1][0] == s[k];
    }
    FindIs(s, [c], from, |before|);
  }

  lemma NoSeparator(s: string, c: char)
    requires c !in s
    ensures Find(s, [c], 0) == None
  {
    forall k: nat ensures !MatchAt(s, [c], k) {
      if k < |s| { assert s[k..k + 1][0] == s[k] && s[k] in s; }
    }
    FindNone(s, [c], 0);
  }

  function QueryText(w: Wire): string { if w.query.Some? then w.query.value else "" }

  lemma TargetParses(w: Wire)
    requires w.path != "" && '?' !in w.path
    ensures ParseTarget(w.verb, TargetText(w)) == Ok(Target(w.verb, w.path, QueryText(w)))
  {
    hide Find;
    if w.query.Some? {
      assert w.path[0..] == w.path;
      FindSeparator(w.path, '?', w.query.value, 0);
      var t := TargetText(w);
      assert t[..|w.path|] == w.path && t[|w.path| + 1..] == w.query.value;
    } else {
      NoSeparator(w.path, '?');
    }
  }

  lemma NoBlankInTarget(w: Wire)
    requires ' ' !in w.path && (w.query.Some? ==> ' ' !in w.query.value)
    ensures ' ' !in TargetText(w)
  {}

  lemma RequestLineParses(w: Wire)
    requires w.verb != "" && ' ' !in w.verb && w.path != "" && '?' !in w.path && ' ' !in w.path
    requires w.query.Some? ==> ' ' !in w.query.value
    requires w.version == "HTTP/1.0" || w.version == "HTTP/1.1"
    ensures ParseRequestLine(RequestLine(w)) == Ok(Target(w.verb, w.path, QueryText(w)))
  {
    hide Find, ParseTarget;
    var line, t := RequestLine(w), TargetText(w);
    NoBlankInTarget(w);
    var m := |w.verb|;
    assert w.verb[0..] == w.verb;
    FindSeparator(w.verb, ' ', t + " " + w.version, 0);
    assert line == w.verb + " " + (t + " " + w.version);
    var before := w.verb + " " + t;
    assert before[m + 1..] == t;
    FindSeparator(before, ' ', w.version, m + 1);
    assert line == before + " " + w.version;
    var p := |before|;
    assert line[..m] == w.verb && line[m + 1..p] == t && line[p + 1..] == w.version;
    TargetIsLonger(w);
    TargetParses(w);
  }

  lemma NoneBefore(s: string, c: char, from: nat, upto: nat)
    requires from <= upto <= |s| && (Find(s, [c], from).None? || Find(s, [c], from).value >= upto)
    ensures c !in s[from..upto]
  {
    forall k | from <= k < upto ensures s[k] != c {
      if s[k] == c {
        assert s[k..k + 1] == [c];
        FindFirst(s, [c], from, k);
      }
    }
  }

  lemma TargetOnly(verb: string, target: string) returns (path: string, query: Option<string>)
    requires ParseTarget(verb, target).Ok?
    ensures TargetOf(path, query) == target && path != "" && '?' !in path
    ensures ParseTarget(verb, target) == Ok(Target(verb, path, if query.Some? then query.value else ""))
  {
    hide Find;
    var q := Find(target, "?", 0);
    if q.None? {
      NoneBefore(target, '?', 0, |target|);
      assert target[0..|target|] == target;
      path, query := target, None;
    } else {
      NoneBefore(target, '?', 0, q.value);
      assert target[0..q.value] == target[..q.value] && target[q.value..q.value + 1] == "?";
      path, query := target[..q.value], Some(target[q.value + 1..]);
    }
  }

  lemma NoBlankInParts(path: string, query: Option<string>)
    requires ' ' !in TargetOf(path, query)
    ensures ' ' !in path && (query.Some? ==> ' ' !in query.value)
  {
    var t := TargetOf(path, query);
    assert forall i :: 0 <= i < |path| ==> path[i] == t[i];
    if query.Some? {
      assert forall i :: 0 <= i < |query.value| ==> query.value[i] == t[|path| + 1 + i];
    }
  }

  /** The two blanks of a line that parses. */
  lemma LineOnly(line: string, m: nat, p: nat)
    requires Find(line, " ", 0) == Some(m) && Find(line, " ", m + 1) == Some(p)
    ensures m < p < |line| && line == line[..m] + " " + line[m + 1..p] + " " + line[p + 1..]
    ensures ' ' !in line[..m] && ' ' !in line[m + 1..p]
  {
    hide Find;
    assert line[m..m + 1] == " " && line[p..p + 1] == " ";
    NoneBefore(line, ' ', 0, m);
    NoneBefore(line, ' ', m + 1, p);
    assert line[0..m] == line[..m];
    CutTwice(line, m, p);
  }

  lemma CutTwice(line: string, m: nat, p: nat)
    requires m < p < |line|
    ensures line == line[..m] + line[m..m + 1] + line[m + 1..p] + line[p..p + 1] + line[p + 1..]
  {}

  /** Whatever parses as a request line is the line of a well-formed one, and of that one. */
  lemma RequestLineOnly(line: string) returns (w: Wire)
    requires ParseRequestLine(line).Ok?
    ensures RequestLine(w) == line && ParseRequestLine(line) == Ok(Target(w.verb, w.path, QueryText(w)))
    ensures w.verb != "" && ' ' !in w.verb && w.path != "" && ' ' !in w.path && '?' !in w.path
    ensures (w.query.Some? ==> ' ' !in w.query.value) && (w.version == "HTTP/1.0" || w.version == "HTTP/1.1")
  {
    hide Find, ParseTarget, TargetOf;
    var m := Find(line, " ", 0).value;
    var p := Find(line, " ", m + 1).value;
    LineOnly(line, m, p);
    var path, query := TargetOnly(line[..m], line[m + 1..p]);
    NoBlankInParts(path, query);
    w := Wire(line[..m], path, query, line[p + 1..], [], "");
  }

  lemma TargetIsLonger(w: Wire)
    requires w.path != ""
    ensures |TargetText(w)| > 0
  {}

  // ---- Combining the fields ---------------------------------------------------------------------------

  lemma FieldLineParses(headers: map<string, string>, f: Field)
    requires FieldOk(f)
    ensures AddLine(headers, FieldLine(f)) == AddField(headers, Lower(f.name), TrimBoth(f.value))
  {
    hide Find, TrimBoth, Lower, AddField;
    assert f.name[0..] == f.name;
    FindSeparator(f.name, ':', f.value, 0);
    var line := FieldLine(f);
    assert line[..|f.name|] == f.name && line[|f.name| + 1..] == f.value;
  }

  lemma {:induction false} TrimLeftKeeps(s: string, c: char)
    requires c !in s
    ensures c !in TrimLeft(s)
  {
    if s != "" { TrimLeftKeeps(s[1..], c); }
  }

  lemma {:induction false} TrimRightKeeps(s: string, c: char)
    requires c !in s
    ensures c !in TrimRight(s)
  {
    if s != "" { TrimRightKeeps(s[..|s| - 1], c); }
  }

  lemma TrimKeeps(s: string, c: char)
    requires c !in s
    ensures c !in TrimBoth(s)
  {
    hide TrimLeft, TrimRight;
    TrimLeftKeeps(s, c);
    TrimRightKeeps(TrimLeft(s), c);
  }

  /** Adding values to what a name already has. */
  function Accumulate(have: Option<string>, name: string, values: seq<string>): Option<string>
    decreases |values|
  {
    if values == [] then have
    else if have.None? then Accumulate(Some(values[0]), name, values[1..])
    else if name == CONTENT_LENGTH then Accumulate(have, name, values[1..])
    else Accumulate(Some(have.value + "," + values[0]), name, values[1..])
  }

  function Lookup(headers: map<string, string>, name: string): Option<string> {
    if name in headers then Some(headers[name]) else None
  }

  /** Content-Length values still to come agree with the one there. */
  ghost predicate Agree(headers: map<string, string>, fields: seq<Field>) {
    var lengths := ValuesOf(fields, CONTENT_LENGTH);
    forall v, u :: v in lengths && (u in lengths || Some(u) == Lookup(headers, CONTENT_LENGTH)) ==> v == u
  }

  lemma {:induction false} FieldsCombine(headers: map<string, string>, fields: seq<Field>, name: string)
    requires (forall f :: f in fields ==> FieldOk(f)) && Agree(headers, fields)
    ensures AddLines(headers, FieldLines(fields)).Ok?
    ensures Lookup(AddLines(headers, FieldLines(fields)).value, name)
            == Accumulate(Lookup(headers, name), name, ValuesOf(fields, name))
    decreases |fields|
  {
    hide AddLine, TrimBoth, Lower;
    if fields != [] {
      var f := fields[0];
      assert FieldOk(f);
      var n, v := Lower(f.name), TrimBoth(f.value);
      FieldLineParses(headers, f);
      FieldAdds(headers, fields);
      var next := AddField(headers, n, v).value;
      assert FieldLines(fields)[1..] == FieldLines(fields[1..]) && FieldLines(fields)[0] == FieldLine(f);
      assert forall g :: g in fields[1..] ==> g in fields;
      FieldsCombine(next, fields[1..], name);
      AccumulateStep(headers, next, fields, name);
    }
  }

  lemma FieldAdds(headers: map<string, string>, fields: seq<Field>)
    requires fields != [] && FieldOk(fields[0]) && Agree(headers, fields)
    ensures var n, v := Lower(fields[0].name), TrimBoth(fields[0].value);
            && AddField(headers, n, v).Ok?
            && Agree(AddField(headers, n, v).value, fields[1..])
  {
    hide TrimBoth;
    var f := fields[0];
    var n, v := Lower(f.name), TrimBoth(f.value);
    TrimKeeps(f.value, '\r');
    TrimKeeps(f.value, '\n');
    var all, rest := ValuesOf(fields, CONTENT_LENGTH), ValuesOf(fields[1..], CONTENT_LENGTH);
    if n == CONTENT_LENGTH {
      assert all == [v] + rest;
      assert v in all;
      if n in headers { assert Some(headers[n]) == Lookup(headers, CONTENT_LENGTH); }
    }
    assert |n| == |f.name|;
    forall x | x in rest ensures x in all {}
  }

  lemma AccumulateStep(headers: map<string, string>, next: map<string, string>, fields: seq<Field>, name: string)
    requires fields != [] && FieldOk(fields[0]) && Agree(headers, fields)
    requires AddField(headers, Lower(fields[0].name), TrimBoth(fields[0].value)) == Ok(next)
    ensures Accumulate(Lookup(headers, name), name, ValuesOf(fields, name))
            == Accumulate(Lookup(next, name), name, ValuesOf(fields[1..], name))
  {
    hide TrimBoth, Lower, FieldOk;
    var n, v, rest := Lower(fields[0].name), TrimBoth(fields[0].value), ValuesOf(fields[1..], name);
    if n == name {
      assert ValuesOf(fields, name) == [v] + rest && ([v] + rest)[1..] == rest;
      AccumulateCons(Lookup(headers, name), name, v, rest);
      if name !in headers {
        assert Lookup(next, name) == Some(v);
      } else if name == CONTENT_LENGTH {
        assert next == headers;
      } else {
        assert Lookup(next, name) == Some(headers[name] + "," + v);
      }
    } else {
      assert ValuesOf(fields, name) == rest;
      assert Lookup(next, name) == Lookup(headers, name);
    }
  }

  lemma AccumulateCons(have: Option<string>, name: string, v: string, rest: seq<string>)
    ensures have.None? ==> Accumulate(have, name, [v] + rest) == Accumulate(Some(v), name, rest)
    ensures have.Some? && name == CONTENT_LENGTH ==> Accumulate(have, name, [v] + rest) == Accumulate(have, name, rest)
    ensures have.Some? && name != CONTENT_LENGTH ==>
              Accumulate(have, name, [v] + rest) == Accumulate(Some(have.value + "," + v), name, rest)
  {
    assert ([v] + rest)[0] == v && ([v] + rest)[1..] == rest;
  }

  lemma {:induction false} AccumulateFrom(first: string, name: string, values: seq<string>)
    requires name != CONTENT_LENGTH
    ensures Accumulate(Some(first), name, values) == Some(CommaJoin([first] + values))
    decreases |values|
  {
    if values == [] {
      assert [first] + [] == [first];
    } else {
      var joined := first + "," + values[0];
      AccumulateFrom(joined, name, values[1..]);
      CommaJoinHead(first, values[0], values[1..]);
      assert [first] + values == [first, values[0]] + values[1..];
    }
  }

  lemma {:induction false} CommaJoinHead(a: string, b: string, rest: seq<string>)
    ensures CommaJoin([a + "," + b] + rest) == CommaJoin([a, b] + rest)
    decreases |rest|
  {
    if rest == [] {
      assert [a, b] + rest == [a, b] && [a + "," + b] + rest == [a + "," + b];
      assert CommaJoin([a, b]) == CommaJoin([a, b][..1]) + "," + b;
    } else {
      var n := |rest| - 1;
      CommaJoinHead(a, b, rest[..n]);
      assert ([a + "," + b] + rest)[..n + 1] == [a + "," + b] + rest[..n];
      assert ([a, b] + rest)[..n + 2] == [a, b] + rest[..n];
    }
  }

  lemma {:induction false} AccumulateLength(first: string, values: seq<string>)
    ensures Accumulate(Some(first), CONTENT_LENGTH, values) == Some(first)
    decreases |values|
  {
    if values != [] { AccumulateLength(first, values[1..]); }
  }

  /** The values of one name, accumulated from nothing. */
  lemma AccumulateAll(name: string, values: seq<string>)
    requires values != []
    ensures Accumulate(None, name, values) == Some(if name == CONTENT_LENGTH then values[0] else CommaJoin(values))
  {
    if name == CONTENT_LENGTH {
      AccumulateLength(values[0], values[1..]);
    } else {
      AccumulateFrom(values[0], name, values[1..]);
      assert [values[0]] + values[1..] == values;
    }
  }

  lemma {:induction false} NamesHaveValues(fields: seq<Field>, name: string)
    ensures name in Names(fields) <==> ValuesOf(fields, name) != []
  {
    if fields != [] { NamesHaveValues(fields[1..], name); }
  }

  /** Any list of good fields with agreeing lengths parses to the combined headers. */
  lemma HeadersCombine(fields: seq<Field>)
    requires (forall f :: f in fields ==> FieldOk(f)) && Agree(map[], fields)
    ensures AddLines(map[], FieldLines(fields)) == Ok(HeadersOf(fields))
  {
    hide AddLines, ValuesOf, Names, Agree, FieldLines, FieldOk, CommaJoin;
    FieldsCombine(map[], fields, "");
    var h := AddLines(map[], FieldLines(fields)).value;
    forall name ensures Lookup(h, name) == Lookup(HeadersOf(fields), name) {
      FieldsCombine(map[], fields, name);
      NamesHaveValues(fields, name);
      if ValuesOf(fields, name) != [] { AccumulateAll(name, ValuesOf(fields, name)); }
    }
    SameMap(h, HeadersOf(fields));
  }

  lemma SameMap(a: map<string, string>, b: map<string, string>)
    requires forall name :: Lookup(a, name) == Lookup(b, name)
    ensures a == b
  {
    forall name ensures name in a <==> name in b { assert Lookup(a, name) == Lookup(b, name); }
    forall name | name in a ensures a[name] == b[name] { assert Lookup(a, name) == Lookup(b, name); }
  }

  // ---- The round trip -------------------------------------------------------------------------------------

  lemma {:induction false} LinesAreGood(fields: seq<Field>, i: nat)
    requires (forall f :: f in fields ==> FieldOk(f)) && i < |fields|
    ensures OneLine(FieldLines(fields)[i]) && FieldLines(fields)[i] != ""
    decreases |fields|
  {
    hide OneLine;
    if i > 0 {
      LinesAreGood(fields[1..], i - 1);
    } else {
      var f := fields[0];
      assert FieldOk(f);
      WithoutReturns(f.value);
      JoinOneLine(f.name, ':', f.value);
    }
  }

  lemma RequestLineGood(w: Wire)
    requires w.verb != "" && OneLine(w.verb) && OneLine(w.path) && (w.query.Some? ==> OneLine(w.query.value))
    requires w.version == "HTTP/1.0" || w.version == "HTTP/1.1"
    ensures OneLine(RequestLine(w)) && RequestLine(w) != ""
  {
    hide OneLine;
    if w.query.Some? { JoinOneLine(w.path, '?', w.query.value); }
    WithoutReturns(w.version);
    JoinOneLine(w.verb, ' ', TargetText(w));
    JoinOneLine(w.verb + " " + TargetText(w), ' ', w.version);
  }

  lemma AllLinesGood(w: Wire, maxHeader: nat, maxBody: nat, lines: seq<string>)
    requires WellFormed(w, maxHeader, maxBody) && lines == [RequestLine(w)] + FieldLines(w.fields)
    ensures forall i :: 0 <= i < |lines| ==> OneLine(lines[i]) && lines[i] != ""
  {
    hide JoinLines, LengthsSay, ValuesOf, FieldLines, FieldOk, RequestLine, OneLine;
    forall i | 0 <= i < |lines| ensures OneLine(lines[i]) && lines[i] != "" {
      if i > 0 {
        LinesAreGood(w.fields, i - 1);
        assert lines[i] == FieldLines(w.fields)[i - 1];
      } else {
        RequestLineGood(w);
      }
    }
  }

  lemma LengthParses(w: Wire, maxHeader: nat, maxBody: nat)
    requires WellFormed(w, maxHeader, maxBody)
    ensures Agree(map[], w.fields)
    ensures BodyLength(HeadersOf(w.fields), maxBody) == Ok(|w.body|)
  {
    hide JoinLines, Names, Number, CommaJoin, FieldLines;
    NamesHaveValues(w.fields, TRANSFER_ENCODING);
    NamesHaveValues(w.fields, CONTENT_LENGTH);
  }

  lemma HeadParses(w: Wire, maxHeader: nat, maxBody: nat)
    requires WellFormed(w, maxHeader, maxBody)
    ensures ParseHead(HeadText(w), maxBody)
            == Ok(Head(Request(w.verb, w.path, QueryText(w), HeadersOf(w.fields), ""), |w.body|))
  {
    hide SplitLines, ParseRequestLine, AddLines, BodyLength, RequestLine, FieldLines, JoinLines, HeadersOf,
         LengthsSay, ValuesOf, FieldOk, Agree, OneLine;
    var lines := [RequestLine(w)] + FieldLines(w.fields);
    AllLinesGood(w, maxHeader, maxBody, lines);
    SplitJoin(lines);
    assert lines[1..] == FieldLines(w.fields);
    RequestLineParses(w);
    LengthParses(w, maxHeader, maxBody);
    HeadersCombine(w.fields);
  }

  /** Rendering any well-formed request with at least one header line, followed by
      anything, parses back to its method, path, query, combined headers and body. */
  lemma RenderParse(w: Wire, extra: string, maxHeader: nat, maxBody: nat)
    requires WellFormed(w, maxHeader, maxBody)
    ensures OneShot(Render(w) + extra, maxHeader, maxBody)
            == Complete(Request(w.verb, w.path, QueryText(w), HeadersOf(w.fields), w.body))
  {
    hide Find, ParseHead, JoinLines, RequestLine, FieldLines, HeadersOf, LengthsSay, ValuesOf, FieldOk, OneLine;
    var lines := [RequestLine(w)] + FieldLines(w.fields);
    var s := Render(w) + extra;
    AllLinesGood(w, maxHeader, maxBody, lines);
    HeadEndFound(lines, w.body + extra);
    var n := |HeadText(w)|;
    assert s == HeadText(w) + HEAD_END + (w.body + extra);
    assert s[..n] == HeadText(w) && s[n + 4..] == w.body + extra && (w.body + extra)[..|w.body|] == w.body;
    HeadParses(w, maxHeader, maxBody);
  }

  /** The same through the incremental parser, however the bytes arrive, if and only if every
      chunk fits where it arrives. */
  lemma RenderFeed(w: Wire, extra: string, chunks: seq<string>, maxHeader: nat, maxBody: nat)
    requires WellFormed(w, maxHeader, maxBody) && Join(chunks) == Render(w) + extra
    ensures StatusOf(FeedAll(NewParser(maxHeader, maxBody), chunks))
            == Complete(Request(w.verb, w.path, QueryText(w), HeadersOf(w.fields), w.body))
            <==> AllFit("", chunks, maxHeader, maxBody)
  {
    hide *;
    ChunkingInvariance(maxHeader, maxBody, chunks);
    RenderParse(w, extra, maxHeader, maxBody);
  }

  /** A good request that arrives in one piece with more after it than both limits together
      hold is complete to the specification parser and too large to the incremental one. */
  lemma OversizedChunk(w: Wire, extra: string, maxHeader: nat, maxBody: nat)
    requires WellFormed(w, maxHeader, maxBody) && |Render(w) + extra| > maxHeader + maxBody
    ensures OneShot(Render(w) + extra, maxHeader, maxBody).Complete?
    ensures StatusOf(Feed(NewParser(maxHeader, maxBody), Render(w) + extra)) == Error(TOO_LARGE)
  {
    hide Render, WellFormed, OneShot, Find, ParseHead;
    RenderParse(w, extra, maxHeader, maxBody);
  }

  /** Such a request, of 23 bytes. */
  const SHORT_REQUEST := Wire("GET", "/", None, "HTTP/1.1", [Field("a", "b")], "")

  lemma ShortHead()
    ensures |HeadText(SHORT_REQUEST)| == 19
  {
    assert SHORT_REQUEST.fields[1..] == [];
    assert FieldLine(Field("a", "b")) == "a:b";
    assert FieldLines(SHORT_REQUEST.fields) == ["a:b"] + FieldLines([]);
    var lines := [RequestLine(SHORT_REQUEST)] + FieldLines(SHORT_REQUEST.fields);
    assert |RequestLine(SHORT_REQUEST)| == 14;
    assert lines[1..] == ["a:b"];
    assert JoinLines(["a:b"]) == "a:b";
  }

  lemma ShortFields(name: string)
    requires |name| > 1
    ensures ValuesOf(SHORT_REQUEST.fields, name) == []
  {
    hide TrimBoth, Lower;
    assert |Lower("a")| == 1;
    assert SHORT_REQUEST.fields[1..] == [];
  }

  /** With limits 23 and 0 and one byte of the next request behind it. */
  lemma OversizedChunkExists()
    ensures WellFormed(SHORT_REQUEST, 23, 0)
    ensures OneShot(Render(SHORT_REQUEST) + "G", 23, 0).Complete?
    ensures StatusOf(Feed(NewParser(23, 0), Render(SHORT_REQUEST) + "G"))
            == Error("request exceeds configured size limit")
  {
    hide OneShot, Feed, HeadText, ValuesOf, OneLine;
    ShortHead();
    ShortFields(TRANSFER_ENCODING);
    ShortFields(CONTENT_LENGTH);
    WithoutReturns("GET");
    WithoutReturns("/");
    WithoutReturns("a");
    OversizedChunk(SHORT_REQUEST, "G", 23, 0);
  }
}
