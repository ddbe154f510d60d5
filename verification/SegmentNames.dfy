/** Segment file names, `log-%08u.seg`: exactly the ids below 10^8 have one, and
    it is theirs alone, so a directory listing is determined by its ids. */
module SegmentNames {
  import opened Decimals

  const PREFIX := "log-"
  const SUFFIX := ".seg"
  const DIGITS := 8

  datatype ParsedId = NotASegment | SegmentId(id: nat)

  function Pow10(n: nat): (p: nat)
    ensures p > 0
  {
    if n == 0 then 1 else 10 * Pow10(n - 1)
  }

  function DigitChar(d: nat): char
    requires d < 10
  {
    '0' + d as char
  }

  /** The low `width` decimal digits, most significant first. */
  function Padded(value: nat, width: nat): (s: string)
    ensures |s| == width && AllDigits(s)
  {
    if width == 0 then [] else Padded(value / 10, width - 1) + [DigitChar(value % 10)]
  }

  /** `segment_path`, for the ids the log uses. */
  function SegmentName(id: nat): string { PREFIX + Padded(id, DIGITS) + SUFFIX }

  /** `parse_segment_id`: prefix and suffix, then the digits. */
  method ParseSegmentId(name: string) returns (r: ParsedId)
    ensures r == Parse(name)
  {
    hide Number;
    if |name| != 16 || name[..4] != PREFIX || name[12..] != SUFFIX {
      return NotASegment;
    }
    r := ParseDigits(name[4..12]);
  }

  /** The digit loop, folding the digits in from the left. */
  method ParseDigits(digits: string) returns (r: ParsedId)
    ensures r == if AllDigits(digits) then SegmentId(Number(digits)) else NotASegment
  {
    hide Number, AllDigits;
    var parsed := 0;
    NoDigits(digits);
    for index := 0 to |digits|
      invariant AllDigits(digits[..index]) && parsed == Number(digits[..index])
    {
      if digits[index] < '0' || digits[index] > '9' {
        NotAllDigits(digits, index);
        return NotASegment;
      }
      NumberSnoc(digits[..index], digits[index]);
      assert digits[..index + 1] == digits[..index] + [digits[index]];
      parsed := parsed * 10 + (digits[index] - '0') as nat;
    }
    assert digits[..|digits|] == digits;
    return SegmentId(parsed);
  }

  lemma NoDigits(s: string)
    ensures AllDigits(s[..0]) && Number(s[..0]) == 0
  {}

  lemma NotAllDigits(s: string, i: nat)
    requires i < |s| && !IsDigit(s[i])
    ensures !AllDigits(s)
  {}

  lemma NumberSnoc(s: string, c: char)
    requires AllDigits(s) && IsDigit(c)
    ensures AllDigits(s + [c]) && Number(s + [c]) == 10 * Number(s) + (c - '0') as nat
  {
    assert (s + [c])[..|s|] == s;
  }

  function Parse(name: string): ParsedId {
    if |name| == 16 && name[..4] == PREFIX && name[12..] == SUFFIX && AllDigits(name[4..12])
    then SegmentId(Number(name[4..12]))
    else NotASegment
  }

  lemma {:induction false} NumberPadded(value: nat, width: nat)
    requires value < Pow10(width)
    ensures Number(Padded(value, width)) == value
  {
    if width > 0 {
      NumberPadded(value / 10, width - 1);
      assert Padded(value, width)[..width - 1] == Padded(value / 10, width - 1);
    }
  }

  lemma {:induction false} PaddedNumber(s: string)
    requires AllDigits(s)
    ensures Number(s) < Pow10(|s|) && Padded(Number(s), |s|) == s
  {
    if s != [] {
      PaddedNumber(s[..|s| - 1]);
      assert s == s[..|s| - 1] + [s[|s| - 1]];
    }
  }

  lemma EightDigits()
    ensures Pow10(DIGITS) == 100_000_000
  {}

  /** A name parses to `id` exactly when it is the name of `id`. */
  lemma NamesAreUnique(name: string, id: nat)
    requires id < 100_000_000
    ensures Parse(name) == SegmentId(id) <==> name == SegmentName(id)
  {
    hide Number, Padded;
    EightDigits();
    NumberPadded(id, DIGITS);
    var own := SegmentName(id);
    assert own[..4] == PREFIX && own[4..12] == Padded(id, DIGITS) && own[12..] == SUFFIX;
    if Parse(name) == SegmentId(id) {
      PaddedNumber(name[4..12]);
      assert name == name[..4] + name[4..12] + name[12..];
    }
  }

  /** Every segment file found has an id that the format can spell. */
  lemma ParsedIdsFit(name: string)
    ensures Parse(name).SegmentId? ==> Parse(name).id < 100_000_000
  {
    hide Number, Padded;
    EightDigits();
    if Parse(name).SegmentId? {
      PaddedNumber(name[4..12]);
    }
  }
}
