/** JSON text as the server writes it, and a reader for it that knows nothing of the writer:
    strings by section 7 of RFC 8259, non-negative integers, arrays and objects. Characters
    stand for the bytes of a std::string. */
module Json {
  import opened Sequences
  import opened Options
  import opened Decimals

  datatype Value = Num(n: nat) | Str(text: string) | Arr(items: seq<Value>) | Obj(members: seq<Member>)

  datatype Member = Member(key: string, value: Value)

  datatype Parsed<+T> = Parsed(value: T, rest: string)

  // ---- Escaping ---------------------------------------------------------------------------

  const HEX := "0123456789abcdef"

  function EscapeChar(c: char): (r: string)
    ensures r != ""
  {
    if c == '\"' then "\\\""
    else if c == '\\' then "\\\\"
    else if c == 8 as char then "\\b"
    else if c == 12 as char then "\\f"
    else if c == '\n' then "\\n"
    else if c == '\r' then "\\r"
    else if c == '\t' then "\\t"
    else if c < ' ' then "\\u00" + [HEX[c as int / 16], HEX[c as int % 16]]
    else [c]
  }

  function Escape(value: string): string {
    if value == "" then "" else EscapeChar(value[0]) + Escape(value[1..])
  }

  /** `json_escape`. */
  method JsonEscape(value: string) returns (escaped: string)
    ensures escaped == Escape(value)
    ensures Unescape(escaped) == Some(value)
  {
    hide EscapeChar;
    escaped := "";
    assert value[0..] == value;
    for i := 0 to |value|
      invariant escaped + Escape(value[i..]) == Escape(value)
    {
      assert value[i..] == [value[i]] + value[i + 1..];
      EscapeFirst(value[i], value[i + 1..]);
      Assoc(escaped, EscapeChar(value[i]), Escape(value[i + 1..]));
      escaped := escaped + EscapeChar(value[i]);
    }
    UnescapeEscape(value);
  }

  // ---- Strings: section 7 of RFC 8259 -----------------------------------------------------

  function HexValue(c: char): (r: Option<nat>)
    ensures r.Some? ==> r.value < 16
  {
    if '0' <= c <= '9' then Some((c - '0') as nat)
    else if 'a' <= c <= 'f' then Some((c - 'a') as nat + 10)
    else if 'A' <= c <= 'F' then Some((c - 'A') as nat + 10)
    else None
  }

  /** The code unit of four hexadecimal digits. */
  function HexUnit(s: string): (r: Option<nat>)
    requires |s| == 4
    ensures r.Some? ==> r.value < 0x1_0000
  {
    var a, b, c, d := HexValue(s[0]), HexValue(s[1]), HexValue(s[2]), HexValue(s[3]);
    if a.None? || b.None? || c.None? || d.None? then None
    else Some(4096 * a.value + 256 * b.value + 16 * c.value + d.value)
  }

  /** UTF-8 of one code unit; a surrogate alone has none. */
  function Utf8(unit: nat): Option<string>
    requires unit < 0x1_0000
  {
    if unit < 0x80 then Some([unit as char])
    else if unit < 0x800 then Some([(0xC0 + unit / 64) as char, (0x80 + unit % 64) as char])
    else if 0xD800 <= unit < 0xE000 then None
    else Some([(0xE0 + unit / 4096) as char, (0x80 + unit / 64 % 64) as char, (0x80 + unit % 64) as char])
  }

  /** UTF-8 of the character a surrogate pair stands for. */
  function Utf8Pair(high: nat, low: nat): string
    requires 0xD800 <= high < 0xDC00 <= low < 0xE000
  {
    var code := 0x1_0000 + (high - 0xD800) * 1024 + (low - 0xDC00);
    [(0xF0 + code / 0x4_0000) as char, (0x80 + code / 4096 % 64) as char,
     (0x80 + code / 64 % 64) as char, (0x80 + code % 64) as char]
  }

  function ShortEscape(c: char): Option<string> {
    if c == '\"' || c == '\\' || c == '/' then Some([c])
    else if c == 'b' then Some([8 as char])
    else if c == 'f' then Some([12 as char])
    else if c == 'n' then Some("\n")
    else if c == 'r' then Some("\r")
    else if c == 't' then Some("\t")
    else None
  }

  /** One character of a string's inside, escaped or not. */
  function ScanChar(s: string): (r: Option<Parsed<string>>)
    requires s != ""
    ensures r.Some? ==> |r.value.rest| < |s|
  {
    if s[0] < ' ' || s[0] == '\"' then None
    else if s[0] != '\\' then Some(Parsed([s[0]], s[1..]))
    else if |s| < 2 then None
    else if s[1] != 'u' then
      (match ShortEscape(s[1])
       case None => None
       case Some(text) => Some(Parsed(text, s[2..])))
    else if |s| < 6 then None
    else
      var unit := HexUnit(s[2..6]);
      if unit.None? then None
      else if Utf8(unit.value).Some? then Some(Parsed(Utf8(unit.value).value, s[6..]))
      else if unit.value < 0xDC00 && |s| >= 12 && s[6..8] == "\\u" then
        var low := HexUnit(s[8..12]);
        if low.Some? && 0xDC00 <= low.value < 0xE000 then Some(Parsed(Utf8Pair(unit.value, low.value), s[12..]))
        else None
      else None
  }

  /** From just after the opening quote to just after the closing one. */
  function ScanString(s: string): (r: Option<Parsed<string>>)
    ensures r.Some? ==> |r.value.rest| < |s|
    decreases |s|
  {
    if s == "" then None
    else if s[0] == '\"' then Some(Parsed("", s[1..]))
    else
      var first := ScanChar(s);
      if first.None? then None
      else
        var more := ScanString(first.value.rest);
        if more.None? then None else Some(Parsed(first.value.value + more.value.value, more.value.rest))
  }

  /** What the inside of a quoted string stands for. */
  function Unescape(s: string): Option<string> {
    var r := ScanString(s + "\"");
    if r.Some? && r.value.rest == "" then Some(r.value.value) else None
  }

  // ---- The round trip of strings -------------------------------------------------------------

  lemma EscapeFirst(c: char, rest: string)
    ensures Escape([c] + rest) == EscapeChar(c) + Escape(rest)
  {
    assert ([c] + rest)[1..] == rest;
  }

  lemma HexDigits(n: nat)
    requires n < 16
    ensures HexValue(HEX[n]) == Some(n)
  {}

  lemma ControlUnit(c: char, rest: string)
    requires c < ' '
    ensures var s := "\\u00" + [HEX[c as int / 16], HEX[c as int % 16]] + rest;
            |s| >= 6 && s[6..] == rest && HexUnit(s[2..6]) == Some(c as nat)
  {
    HexDigits(c as int / 16);
    HexDigits(c as int % 16);
  }

  lemma EscapedCharScans(c: char, rest: string)
    ensures ScanChar(EscapeChar(c) + rest) == Some(Parsed([c], rest))
    ensures EscapeChar(c)[0] != '\"'
  {
    hide ScanChar;
    if |EscapeChar(c)| == 1 {
      PlainScans(c, rest);
    } else if |EscapeChar(c)| == 2 {
      ShortScans(c, rest);
    } else {
      ControlScans(c, rest);
    }
  }

  lemma PlainScans(c: char, rest: string)
    requires |EscapeChar(c)| == 1
    ensures ScanChar(EscapeChar(c) + rest) == Some(Parsed([c], rest))
  {
    hide HexUnit, Utf8;
    var s := EscapeChar(c) + rest;
    assert s[0] == c && s[1..] == rest;
  }

  lemma ShortScans(c: char, rest: string)
    requires |EscapeChar(c)| == 2
    ensures ScanChar(EscapeChar(c) + rest) == Some(Parsed([c], rest))
  {
    hide HexUnit, Utf8;
    var s := EscapeChar(c) + rest;
    assert s[0] == '\\' && s[1] == EscapeChar(c)[1] && s[2..] == rest;
  }

  lemma ControlScans(c: char, rest: string)
    requires |EscapeChar(c)| > 2
    ensures ScanChar(EscapeChar(c) + rest) == Some(Parsed([c], rest))
  {
    hide HexUnit, ShortEscape;
    var s := EscapeChar(c) + rest;
    ControlUnit(c, rest);
    assert s[0] == '\\' && s[1] == 'u';
  }

  /** Wherever an escaped string stands, the scanner restores it and stops at its closing quote. */
  lemma {:induction false} EscapedScans(value: string, rest: string)
    ensures ScanString(Escape(value) + "\"" + rest) == Some(Parsed(value, rest))
    decreases |value|
  {
    hide EscapeChar, ScanChar;
    if value == "" {
      assert Escape(value) + "\"" + rest == "\"" + rest;
      assert ("\"" + rest)[1..] == rest;
    } else {
      var c, tail := value[0], value[1..];
      var after := Escape(tail) + "\"" + rest;
      EscapedScans(tail, rest);
      EscapedCharScans(c, after);
      assert Escape(value) + "\"" + rest == EscapeChar(c) + after;
      assert [c] + tail == value;
    }
  }

  lemma UnescapeEscape(value: string)
    ensures Unescape(Escape(value)) == Some(value)
  {
    EscapedScans(value, "");
    assert Escape(value) + "\"" + "" == Escape(value) + "\"";
  }

  // ---- Values -------------------------------------------------------------------------------------

  function Quoted(s: string): string { "\"" + Escape(s) + "\"" }

  function Render(v: Value): string {
    match v
    case Num(n) => Decimal(n)
    case Str(text) => Quoted(text)
    case Arr(items) => "[" + RenderItems(items)
    case Obj(members) => "{" + RenderMembers(members)
  }

  /** The items and the closing bracket. */
  function RenderItems(items: seq<Value>): string {
    if items == [] then "]" else Render(items[0]) + ItemsTail(items[1..])
  }

  function ItemsTail(items: seq<Value>): string {
    if items == [] then "]" else "," + Render(items[0]) + ItemsTail(items[1..])
  }

  function RenderMembers(members: seq<Member>): string {
    if members == [] then "}" else RenderMember(members[0]) + MembersTail(members[1..])
  }

  function MembersTail(members: seq<Member>): string {
    if members == [] then "}" else "," + RenderMember(members[0]) + MembersTail(members[1..])
  }

  function RenderMember(m: Member): string { Quoted(m.key) + ":" + Render(m.value) }

  /** The leading run of digits. */
  function Digits(s: string): (n: nat)
    ensures n <= |s| && AllDigits(s[..n])
  {
    if s == "" || !IsDigit(s[0]) then 0
    else
      var n := Digits(s[1..]);
      assert s[..n + 1] == [s[0]] + s[1..][..n];
      n + 1
  }

  function ParseNumber(s: string): (r: Option<Parsed<Value>>)
    ensures r.Some? ==> |r.value.rest| < |s|
  {
    var n := Digits(s);
    if n == 0 || (s[0] == '0' && n > 1) then None else Some(Parsed(Num(Number(s[..n])), s[n..]))
  }

  function ParseValue(s: string): (r: Option<Parsed<Value>>)
    ensures r.Some? ==> |r.value.rest| < |s|
    decreases |s|, 1
  {
    if s == "" then None
    else if s[0] == '\"' then
      (match ScanString(s[1..])
       case None => None
       case Some(p) => Some(Parsed(Str(p.value), p.rest)))
    else if s[0] == '[' then
      if |s| > 1 && s[1] == ']' then Some(Parsed(Arr([]), s[2..]))
      else (match ParseItems(s[1..])
            case None => None
            case Some(p) => Some(Parsed(Arr(p.value), p.rest)))
    else if s[0] == '{' then
      if |s| > 1 && s[1] == '}' then Some(Parsed(Obj([]), s[2..]))
      else (match ParseMembers(s[1..])
            case None => None
            case Some(p) => Some(Parsed(Obj(p.value), p.rest)))
    else ParseNumber(s)
  }

  /** One or more values up to the closing bracket. */
  function ParseItems(s: string): (r: Option<Parsed<seq<Value>>>)
    ensures r.Some? ==> |r.value.rest| < |s|
    decreases |s|, 2
  {
    var first := ParseValue(s);
    if first.None? || first.value.rest == "" then None
    else if first.value.rest[0] == ']' then Some(Parsed([first.value.value], first.value.rest[1..]))
    else if first.value.rest[0] != ',' then None
    else
      var more := ParseItems(first.value.rest[1..]);
      if more.None? then None else Some(Parsed([first.value.value] + more.value.value, more.value.rest))
  }

  function ParseMember(s: string): (r: Option<Parsed<Member>>)
    ensures r.Some? ==> |r.value.rest| < |s|
    decreases |s|, 2
  {
    if s == "" || s[0] != '\"' then None
    else
      var key := ScanString(s[1..]);
      if key.None? || key.value.rest == "" || key.value.rest[0] != ':' then None
      else
        var value := ParseValue(key.value.rest[1..]);
        if value.None? then None else Some(Parsed(Member(key.value.value, value.value.value), value.value.rest))
  }

  function ParseMembers(s: string): (r: Option<Parsed<seq<Member>>>)
    ensures r.Some? ==> |r.value.rest| < |s|
    decreases |s|, 3
  {
    var first := ParseMember(s);
    if first.None? || first.value.rest == "" then None
    else if first.value.rest[0] == '}' then Some(Parsed([first.value.value], first.value.rest[1..]))
    else if first.value.rest[0] != ',' then None
    else
      var more := ParseMembers(first.value.rest[1..]);
      if more.None? then None else Some(Parsed([first.value.value] + more.value.value, more.value.rest))
  }

  function ParseText(s: string): Option<Value> {
    var r := ParseValue(s);
    if r.Some? && r.value.rest == "" then Some(r.value.value) else None
  }

  // ---- The round trip of values -------------------------------------------------------------------

  /** A number may stand before this. */
  predicate Ends(rest: string) { rest == "" || !IsDigit(rest[0]) }

  lemma {:induction false} DigitsRun(s: string, rest: string)
    requires AllDigits(s) && Ends(rest)
    ensures Digits(s + rest) == |s|
    decreases |s|
  {
    if s == "" {
      assert s + rest == rest;
    } else {
      assert IsDigit(s[0]);
      assert forall i :: 0 <= i < |s[1..]| ==> s[1..][i] == s[i + 1];
      DigitsRun(s[1..], rest);
      assert (s + rest)[1..] == s[1..] + rest;
    }
  }

  lemma {:induction false} NoLeadingZero(n: nat)
    ensures n > 0 ==> Decimal(n)[0] != '0'
    ensures n == 0 ==> Decimal(n) == "0"
  {
    if n >= 10 { NoLeadingZero(n / 10); }
  }

  lemma NumberParses(n: nat, rest: string)
    requires Ends(rest)
    ensures ParseValue(Decimal(n) + rest) == Some(Parsed(Num(n), rest))
  {
    hide Decimal, Number, Digits;
    var s := Decimal(n) + rest;
    DigitsRun(Decimal(n), rest);
    NoLeadingZero(n);
    DecimalNumber(n);
    assert s[..|Decimal(n)|] == Decimal(n) && s[|Decimal(n)|..] == rest;
    assert s[0] == Decimal(n)[0] && IsDigit(s[0]);
  }

  lemma QuotedScans(text: string, rest: string)
    ensures var s := Quoted(text) + rest; s != "" && s[0] == '\"' && ScanString(s[1..]) == Some(Parsed(text, rest))
  {
    hide Escape, ScanString;
    EscapedScans(text, rest);
    assert (Quoted(text) + rest)[1..] == Escape(text) + "\"" + rest;
  }

  /** How a value's text begins. */
  lemma RenderBegins(v: Value)
    ensures Render(v) != "" && Render(v)[0] != ']' && Render(v)[0] != '}'
  {
    hide Escape, Decimal, RenderItems, RenderMembers;
    if v.Num? { assert IsDigit(Decimal(v.n)[0]); }
  }

  /** Reading what was written gives the value back and leaves what follows it. */
  lemma {:induction false} RenderParses(v: Value, rest: string)
    requires Ends(rest)
    ensures ParseValue(Render(v) + rest) == Some(Parsed(v, rest))
    decreases v, 0
  {
    hide Escape, ScanString, Decimal, RenderItems, RenderMembers, Quoted, ParseItems, ParseMembers, ParseNumber;
    var s := Render(v) + rest;
    match v
    case Num(n) => NumberParses(n, rest);
    case Str(text) => QuotedScans(text, rest);
    case Arr(items) =>
      assert s[1..] == RenderItems(items) + rest;
      if items == [] { EmptyBody(rest); assert s[2..] == rest; } else { ItemsParse(items, rest); }
    case Obj(members) =>
      assert s[1..] == RenderMembers(members) + rest;
      if members == [] { EmptyBody(rest); assert s[2..] == rest; } else { MembersParse(members, rest); }
  }

  lemma EmptyBody(rest: string)
    ensures RenderItems([]) + rest == "]" + rest && RenderMembers([]) + rest == "}" + rest
  {}

  lemma {:induction false} ItemsParse(items: seq<Value>, rest: string)
    requires items != []
    ensures ParseItems(RenderItems(items) + rest) == Some(Parsed(items, rest))
    ensures RenderItems(items)[0] != ']'
    decreases items, 1
  {
    hide ParseValue, Render;
    var first, more := items[0], items[1..];
    var tail := ItemsTail(more) + rest;
    assert RenderItems(items) + rest == Render(first) + tail;
    RenderParses(first, tail);
    RenderBegins(first);
    assert items == [first] + more;
    if more == [] {
      assert items == [first];
      assert tail[1..] == rest;
    } else {
      assert tail[1..] == RenderItems(more) + rest;
      ItemsParse(more, rest);
    }
  }

  lemma {:induction false} MembersParse(members: seq<Member>, rest: string)
    requires members != []
    ensures ParseMembers(RenderMembers(members) + rest) == Some(Parsed(members, rest))
    ensures RenderMembers(members)[0] != '}'
    decreases members, 1
  {
    hide ParseMember, RenderMember;
    var first, more := members[0], members[1..];
    var tail := MembersTail(more) + rest;
    assert RenderMembers(members) + rest == RenderMember(first) + tail;
    MemberParses(first, tail);
    assert members == [first] + more;
    if more == [] {
      assert members == [first];
      assert tail[1..] == rest;
    } else {
      assert tail[1..] == RenderMembers(more) + rest;
      MembersParse(more, rest);
    }
  }

  lemma {:induction false} MemberParses(m: Member, rest: string)
    requires Ends(rest)
    ensures ParseMember(RenderMember(m) + rest) == Some(Parsed(m, rest))
    ensures RenderMember(m) != "" && RenderMember(m)[0] == '\"'
    decreases m, 1
  {
    hide ScanString, Escape, ParseValue, Render;
    var after := ":" + Render(m.value) + rest;
    assert RenderMember(m) + rest == Quoted(m.key) + after;
    QuotedScans(m.key, after);
    assert after[1..] == Render(m.value) + rest;
    RenderParses(m.value, rest);
  }

  lemma TextParses(v: Value)
    ensures ParseText(Render(v)) == Some(v)
  {
    hide ParseValue, Render;
    RenderParses(v, "");
    assert Render(v) + "" == Render(v);
  }
}
