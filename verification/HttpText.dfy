/** Text helpers of the HTTP parser: searching, trimming, lower-casing, splitting
    into lines, and decimal numbers. */
module HttpText {
  import opened Options
  import opened Decimals

  const CRLF := "\r\n"
  const HEAD_END := "\r\n\r\n"
  const SIZE_T_LIMIT := 0x1_0000_0000_0000_0000

  predicate MatchAt(s: string, pattern: string, i: nat) {
    i + |pattern| <= |s| && s[i..i + |pattern|] == pattern
  }

  /** `std::string::find`: the first match at or after `from`. */
  function Find(s: string, pattern: string, from: nat): (r: Option<nat>)
    ensures r.Some? ==> from <= r.value && MatchAt(s, pattern, r.value)
    decreases |s| - from
  {
    if from + |pattern| > |s| then None
    else if MatchAt(s, pattern, from) then Some(from)
    else Find(s, pattern, from + 1)
  }

  /** It is the first one: nothing before it matches, and `None` means no match. */
  lemma {:induction false} FindFirst(s: string, pattern: string, from: nat, i: nat)
    requires from <= i && MatchAt(s, pattern, i)
    ensures Find(s, pattern, from).Some? && Find(s, pattern, from).value <= i
    decreases |s| - from
  {
    if !MatchAt(s, pattern, from) {
      FindFirst(s, pattern, from + 1, i);
    }
  }

  /** Being the first match determines the result. */
  lemma FindIs(s: string, pattern: string, from: nat, i: nat)
    requires from <= i && MatchAt(s, pattern, i)
    requires forall k :: from <= k < i ==> !MatchAt(s, pattern, k)
    ensures Find(s, pattern, from) == Some(i)
  {
    FindFirst(s, pattern, from, i);
  }

  lemma FindNone(s: string, pattern: string, from: nat)
    requires forall k :: from <= k ==> !MatchAt(s, pattern, k)
    ensures Find(s, pattern, from) == None
  {}

  /** A match found stays the first one when bytes arrive. */
  lemma FindGrows(s: string, more: string, pattern: string, from: nat)
    requires Find(s, pattern, from).Some?
    ensures Find(s + more, pattern, from) == Find(s, pattern, from)
  {
    var i := Find(s, pattern, from).value;
    forall k | from <= k <= i ensures MatchAt(s + more, pattern, k) == MatchAt(s, pattern, k) {
      assert (s + more)[k..k + |pattern|] == s[k..k + |pattern|];
    }
    forall k | from <= k < i ensures !MatchAt(s, pattern, k) {
      if MatchAt(s, pattern, k) { FindFirst(s, pattern, from, k); }
    }
    FindIs(s + more, pattern, from, i);
  }

  /** A match in the grown text that was not there before ends beyond the old end. */
  lemma FindLate(s: string, more: string, pattern: string, from: nat)
    requires Find(s, pattern, from).None? && Find(s + more, pattern, from).Some?
    ensures Find(s + more, pattern, from).value + |pattern| > |s|
  {
    var i := Find(s + more, pattern, from).value;
    if i + |pattern| <= |s| {
      assert s[i..i + |pattern|] == (s + more)[i..i + |pattern|];
      FindFirst(s, pattern, from, i);
    }
  }

  // ---- Characters ------------------------------------------------------------------

  predicate IsBlank(c: char) { c == ' ' || c == '\t' }

  function TrimLeft(s: string): string {
    if s != "" && IsBlank(s[0]) then TrimLeft(s[1..]) else s
  }

  function TrimRight(s: string): string {
    if s != "" && IsBlank(s[|s| - 1]) then TrimRight(s[..|s| - 1]) else s
  }

  function TrimBoth(s: string): string { TrimRight(TrimLeft(s)) }

  function LowerChar(c: char): char {
    if 'A' <= c <= 'Z' then c - 'A' + 'a' else c
  }

  function Lower(s: string): (r: string)
    ensures |r| == |s|
  {
    seq(|s|, i requires 0 <= i < |s| => LowerChar(s[i]))
  }

  /** `trim`: advance past the blanks at the front, then back over those at the end. */
  method Trim(value: string) returns (r: string)
    ensures r == TrimBoth(value)
  {
    var first := 0;
    assert value[0..] == value;
    while first < |value| && IsBlank(value[first])
      invariant 0 <= first <= |value| && TrimLeft(value[first..]) == TrimLeft(value)
    {
      assert value[first..][1..] == value[first + 1..];
      first := first + 1;
    }
    ghost var front := value[first..];
    assert TrimLeft(front) == front;
    var last := |value|;
    assert value[first..last] == front;
    while last > first && IsBlank(value[last - 1])
      invariant first <= last <= |value| && TrimRight(value[first..last]) == TrimRight(front)
    {
      assert value[first..last][..last - first - 1] == value[first..last - 1];
      last := last - 1;
    }
    r := value[first..last];
  }

  /** `lowercase`. */
  method Lowercase(value: string) returns (r: string)
    ensures r == Lower(value)
  {
    r := "";
    for i := 0 to |value|
      invariant |r| == i && forall k :: 0 <= k < i ==> r[k] == LowerChar(value[k])
    {
      r := r + [LowerChar(value[i])];
    }
  }

  // ---- Lines --------------------------------------------------------------------------

  /** The pieces between the line ends. */
  function SplitLines(s: string): (lines: seq<string>)
    ensures lines != []
    decreases |s|
  {
    match Find(s, CRLF, 0)
    case None => [s]
    case Some(i) => [s[..i]] + SplitLines(s[i + 2..])
  }

  // ---- Decimal numbers ------------------------------------------------------------------

  /** `std::from_chars` into a size_t, required to use up the whole text. */
  function ParseSize(s: string): Option<nat> {
    if s != "" && AllDigits(s) && Number(s) < SIZE_T_LIMIT then Some(Number(s)) else None
  }

  /** `std::from_chars`, with the test that it used up the whole text. */
  method FromChars(s: string) returns (r: Option<nat>)
    ensures r == ParseSize(s)
  {
    var used, value := 0, 0;
    while used < |s| && IsDigit(s[used])
      invariant used <= |s| && AllDigits(s[..used]) && value == Number(s[..used])
    {
      assert s[..used + 1][..used] == s[..used];
      value := 10 * value + (s[used] - '0') as nat;
      used := used + 1;
    }
    assert s[..|s|] == s;
    if used == 0 || used != |s| || value >= SIZE_T_LIMIT {
      return None;
    }
    return Some(value);
  }
}
