/** The CRC-32/IEEE checksum, bit by bit as the log computes it, and what it
    is guaranteed to detect: any change confined to four consecutive bytes. */
module Crc32 {
  import opened Bytes

  const POLYNOMIAL: bv32 := 0xedb88320
  const SEED: bv32 := 0xffff_ffff

  /** The low `k` bits of `n`, as a register value. */
  function Bits(n: nat, k: nat): bv32 {
    if k == 0 then 0
    else if n % 2 == 1 then Join(Bits(n / 2, k - 1), 1)
    else Join(Bits(n / 2, k - 1), 0)
  }

  function Join(high: bv32, low: bv32): bv32 { (high << 1) | low }

  /** A byte zero-extended to the register width. */
  function Widen(b: byte): bv32 { Bits(b as nat, 8) }

  function BitStep(crc: bv32): bv32 {
    (crc >> 1) ^ (POLYNOMIAL & (0 - (crc & 1)))
  }

  function BitSteps(crc: bv32, n: nat): bv32
    decreases n
  {
    if n == 0 then crc else BitStep(BitSteps(crc, n - 1))
  }

  function Mix(crc: bv32, b: byte): bv32 { crc ^ Widen(b) }

  function ByteStep(crc: bv32, b: byte): bv32 { BitSteps(Mix(crc, b), 8) }

  function Update(crc: bv32, bytes: seq<byte>): bv32
    decreases |bytes|
  {
    if bytes == [] then crc else Update(ByteStep(crc, bytes[0]), bytes[1..])
  }

  /** The register complemented, as the number that is stored. */
  function Finish(crc: bv32): (c: nat)
    ensures c < U32_LIMIT
  {
    (crc ^ SEED) as int
  }

  function Checksum(bytes: seq<byte>): (c: nat)
    ensures c < U32_LIMIT
  {
    Finish(Update(SEED, bytes))
  }

  lemma {:induction false} UpdateConcat(crc: bv32, a: seq<byte>, b: seq<byte>)
    ensures Update(crc, a + b) == Update(Update(crc, a), b)
    decreases |a|
  {
    if a == [] {
      assert a + b == b;
    } else {
      UpdateConcat(ByteStep(crc, a[0]), a[1..], b);
      assert (a + b)[1..] == a[1..] + b;
    }
  }

  /** The inner loop of `crc32_update`: eight conditional shifts. */
  method MixByte(initial: bv32, b: byte) returns (crc: bv32)
    ensures crc == ByteStep(initial, b)
  {
    crc := Mix(initial, b);
    ghost var mixed := crc;
    for bit := 0 to 8
      invariant crc == BitSteps(mixed, bit)
    {
      var mask := 0 - (crc & 1);
      crc := (crc >> 1) ^ (POLYNOMIAL & mask);
    }
  }

  /** `crc32_update`: the loop over the bytes. */
  method Crc32Update(initial: bv32, bytes: seq<byte>) returns (crc: bv32)
    ensures crc == Update(initial, bytes)
  {
    hide ByteStep;
    crc := initial;
    assert bytes[0..] == bytes;
    for index := 0 to |bytes|
      invariant Update(crc, bytes[index..]) == Update(initial, bytes)
    {
      crc := MixByte(crc, bytes[index]);
      assert bytes[index..][1..] == bytes[index + 1..];
    }
    assert bytes[|bytes|..] == [];
  }

  // ---- Injectivity of the register update ----------------------------------

  lemma BitStepInjective(x: bv32, y: bv32)
    requires BitStep(x) == BitStep(y)
    ensures x == y
  {}

  lemma {:induction false} BitStepsInjective(x: bv32, y: bv32, n: nat)
    requires BitSteps(x, n) == BitSteps(y, n)
    ensures x == y
    decreases n
  {
    hide BitStep;
    if n > 0 {
      BitStepInjective(BitSteps(x, n - 1), BitSteps(y, n - 1));
      BitStepsInjective(x, y, n - 1);
    }
  }

  lemma MixInjective(x: bv32, y: bv32, b: byte)
    requires Mix(x, b) == Mix(y, b)
    ensures x == y
  {}

  lemma ByteStepInjective(x: bv32, y: bv32, b: byte)
    requires ByteStep(x, b) == ByteStep(y, b)
    ensures x == y
  {
    hide BitSteps, Mix;
    BitStepsInjective(Mix(x, b), Mix(y, b), 8);
    MixInjective(x, y, b);
  }

  /** Equal bytes cannot reconcile two different registers. */
  lemma {:induction false} UpdateInjective(x: bv32, y: bv32, bytes: seq<byte>)
    requires Update(x, bytes) == Update(y, bytes)
    ensures x == y
    decreases |bytes|
  {
    hide ByteStep;
    if bytes != [] {
      UpdateInjective(ByteStep(x, bytes[0]), ByteStep(y, bytes[0]), bytes[1..]);
      ByteStepInjective(x, y, bytes[0]);
    }
  }

  // ---- Bursts of up to four bytes --------------------------------------------
  // Running the register backwards: a small difference after a step was that
  // difference shifted left before it, because the polynomial's top bit is set.

  function Diff(x: bv32, y: bv32): bv32 { x ^ y }

  function Twice(d: bv32): bv32 { d << 1 }

  /** Fits below the top `n` bits. */
  predicate Under(d: bv32, n: nat)
    requires 1 <= n <= 8
  {
    match n
    case 1 => d < 0x8000_0000
    case 2 => d < 0x4000_0000
    case 3 => d < 0x2000_0000
    case 4 => d < 0x1000_0000
    case 5 => d < 0x800_0000
    case 6 => d < 0x400_0000
    case 7 => d < 0x200_0000
    case 8 => d < 0x100_0000
  }

  lemma BitStepBack(x: bv32, y: bv32)
    requires Under(Diff(BitStep(x), BitStep(y)), 1)
    ensures Diff(x, y) == Twice(Diff(BitStep(x), BitStep(y)))
  {}

  lemma TwiceUnder(d: bv32, n: nat)
    requires 1 <= n <= 8 && Under(d, n)
    ensures Under(d, 1) && (n > 1 ==> Under(Twice(d), n - 1))
  {}

  lemma {:induction false} BitStepsBack(x: bv32, y: bv32, n: nat)
    requires n <= 8 && (n > 0 ==> Under(Diff(BitSteps(x, n), BitSteps(y, n)), n))
    ensures Diff(x, y) == Shift(Diff(BitSteps(x, n), BitSteps(y, n)), n)
    decreases n
  {
    hide BitStep, Diff, Twice, Under;
    if n > 0 {
      var d := Diff(BitSteps(x, n), BitSteps(y, n));
      TwiceUnder(d, n);
      BitStepBack(BitSteps(x, n - 1), BitSteps(y, n - 1));
      BitStepsBack(x, y, n - 1);
      ShiftFirst(d, n - 1);
    }
  }

  function Shift(d: bv32, n: nat): bv32
    decreases n
  {
    if n == 0 then d else Twice(Shift(d, n - 1))
  }

  lemma {:induction false} ShiftFirst(d: bv32, n: nat)
    ensures Shift(Twice(d), n) == Shift(d, n + 1)
    decreases n
  {
    hide Twice;
    if n > 0 { ShiftFirst(d, n - 1); }
  }

  lemma ShiftEight(d: bv32)
    ensures Shift(d, 8) == d << 8
  {
    EightDoublings(d);
    hide Twice;
    assert Shift(d, 4) == Twice(Twice(Twice(Twice(d))));
  }

  lemma EightDoublings(d: bv32)
    ensures Twice(Twice(Twice(Twice(Twice(Twice(Twice(Twice(d)))))))) == d << 8
  {}

  function ByteDiff(b: byte, c: byte): bv32 { Diff(Widen(b), Widen(c)) }

  /** The register difference before a byte, given the one after it. */
  function Back(after: bv32, byteDiff: bv32): bv32 { Diff(after << 8, byteDiff) }

  predicate ByteSized(e: bv32) { e < 0x100 }

  /** One byte back: the register difference before it, from the one after. */
  lemma ByteStepBack(x: bv32, y: bv32, b: byte, c: byte)
    requires Under(Diff(ByteStep(x, b), ByteStep(y, c)), 8)
    ensures Diff(x, y) == Back(Diff(ByteStep(x, b), ByteStep(y, c)), ByteDiff(b, c))
  {
    hide Diff, ByteStep, Under, Widen;
    BitStepsOfMix(x, y, b, c);
    Unmix(x, y, b, c, Diff(ByteStep(x, b), ByteStep(y, c)) << 8);
  }

  lemma BitStepsOfMix(x: bv32, y: bv32, b: byte, c: byte)
    requires Under(Diff(ByteStep(x, b), ByteStep(y, c)), 8)
    ensures Diff(Mix(x, b), Mix(y, c)) == Diff(ByteStep(x, b), ByteStep(y, c)) << 8
  {
    hide BitSteps, Mix, Diff, Under;
    BitStepsBack(Mix(x, b), Mix(y, c), 8);
    ShiftEight(Diff(ByteStep(x, b), ByteStep(y, c)));
  }

  lemma Unmix(x: bv32, y: bv32, b: byte, c: byte, d: bv32)
    requires Diff(Mix(x, b), Mix(y, c)) == d
    ensures Diff(x, y) == Diff(d, Diff(Widen(b), Widen(c)))
  {
    hide Widen;
    XorSwap(x, y, Widen(b), Widen(c), d);
  }

  lemma XorSwap(x: bv32, y: bv32, v: bv32, w: bv32, d: bv32)
    requires (x ^ v) ^ (y ^ w) == d
    ensures x ^ y == d ^ (v ^ w)
  {}

  /** Below 2^k. */
  predicate Fits(x: bv32, k: nat)
    requires k <= 8
  {
    match k
    case 0 => x == 0
    case 1 => x < 2
    case 2 => x < 4
    case 3 => x < 8
    case 4 => x < 0x10
    case 5 => x < 0x20
    case 6 => x < 0x40
    case 7 => x < 0x80
    case 8 => x < 0x100
  }

  lemma JoinFits(x: bv32, low: bv32, k: nat)
    requires k < 8 && Fits(x, k) && low <= 1
    ensures Fits(Join(x, low), k + 1)
  {}

  lemma JoinInjective(x: bv32, y: bv32, p: bv32, q: bv32, k: nat)
    requires k < 8 && Fits(x, k) && Fits(y, k) && p <= 1 && q <= 1 && Join(x, p) == Join(y, q)
    ensures x == y && p == q
  {}

  lemma {:induction false} BitsFit(n: nat, k: nat)
    requires k <= 8
    ensures Fits(Bits(n, k), k)
  {
    hide Join;
    if k > 0 {
      BitsFit(n / 2, k - 1);
      JoinFits(Bits(n / 2, k - 1), if n % 2 == 1 then 1 else 0, k - 1);
    }
  }

  function Pow2(k: nat): nat { if k == 0 then 1 else 2 * Pow2(k - 1) }

  lemma {:induction false} BitsInjective(m: nat, n: nat, k: nat)
    requires k <= 8 && m < Pow2(k) && n < Pow2(k) && Bits(m, k) == Bits(n, k)
    ensures m == n
  {
    hide Join, Fits;
    if k > 0 {
      BitsFit(m / 2, k - 1);
      BitsFit(n / 2, k - 1);
      JoinInjective(Bits(m / 2, k - 1), Bits(n / 2, k - 1), if m % 2 == 1 then 1 else 0, if n % 2 == 1 then 1 else 0,
                    k - 1);
      BitsInjective(m / 2, n / 2, k - 1);
    }
  }

  lemma ShiftValue(x: bv32)
    requires x < 0x80
    ensures (x << 1) as int == 2 * (x as int)
  {}

  lemma OrValue(x: bv32)
    requires x < 0x80
    ensures ((x << 1) | 1) as int == (x << 1) as int + 1 && (x << 1) | 0 == x << 1
  {}

  lemma JoinValue(x: bv32, odd: bool)
    requires x < 0x80
    ensures Join(x, if odd then 1 else 0) as int == 2 * (x as int) + (if odd then 1 else 0)
  {
    ShiftValue(x);
    OrValue(x);
  }

  lemma FitsHalf(x: bv32, k: nat)
    requires k < 8 && Fits(x, k)
    ensures x < 0x80
  {}

  lemma {:induction false} BitsValue(n: nat, k: nat)
    requires k <= 8 && n < Pow2(k)
    ensures Bits(n, k) as int == n
  {
    hide Join, Fits;
    if k > 0 {
      BitsFit(n / 2, k - 1);
      FitsHalf(Bits(n / 2, k - 1), k - 1);
      BitsValue(n / 2, k - 1);
      JoinValue(Bits(n / 2, k - 1), n % 2 == 1);
    }
  }

  /** The widened byte is the byte's value. */
  lemma WidenValue(b: byte)
    ensures Widen(b) as int == b as int && Widen(b) == b as int as bv32
  {
    hide Bits;
    assert Pow2(8) == 256;
    BitsValue(b as nat, 8);
    WordRoundTrip(Widen(b));
  }

  lemma WidenDiff(b: byte, c: byte)
    ensures ByteSized(ByteDiff(b, c))
    ensures ByteDiff(b, c) == 0 ==> b == c
  {
    hide Bits;
    BitsFit(b as nat, 8);
    BitsFit(c as nat, 8);
    SmallDiff(Widen(b), Widen(c));
    if ByteDiff(b, c) == 0 {
      DiffZero(Widen(b), Widen(c));
      assert Pow2(8) == 256;
      BitsInjective(b as nat, c as nat, 8);
    }
  }

  lemma SmallDiff(v: bv32, w: bv32)
    requires v < 0x100 && w < 0x100
    ensures ByteSized(Diff(v, w))
  {}

  lemma DiffZero(x: bv32, y: bv32)
    ensures Diff(x, y) == 0 <==> x == y
  {
    if x ^ y == 0 { XorZero(x, y); } else if x == y { XorSelf(x); }
  }

  lemma XorSelf(x: bv32)
    ensures x ^ x == 0
  {}

  lemma XorZero(x: bv32, y: bv32)
    requires x ^ y == 0
    ensures x == y
  {}

  lemma BurstBounds(e1: bv32, e2: bv32, e3: bv32)
    requires ByteSized(e1) && ByteSized(e2) && ByteSized(e3)
    ensures Under(0, 8) && Under(Back(0, e3), 8)
    ensures Under(Back(Back(0, e3), e2), 8) && Under(Back(Back(Back(0, e3), e2), e1), 8)
  {}

  /** The arithmetic end of the burst argument, on the four byte differences. */
  lemma BurstArithmetic(e0: bv32, e1: bv32, e2: bv32, e3: bv32)
    requires ByteSized(e0) && ByteSized(e1) && ByteSized(e2) && ByteSized(e3)
    requires Back(Back(Back(Back(0, e3), e2), e1), e0) == 0
    ensures e0 == 0 && e1 == 0 && e2 == 0 && e3 == 0
  {}

  /** For a fixed register, four bytes are determined by the register after them. */
  lemma FourBytesInjective(crc: bv32, u: seq<byte>, v: seq<byte>)
    requires |u| == |v| == 4 && Update(crc, u) == Update(crc, v)
    ensures u == v
  {
    hide Diff, ByteDiff, ByteSized, ByteStep, Under, Back;
    Unfold4(crc, u);
    Unfold4(crc, v);
    var x1, y1 := ByteStep(crc, u[0]), ByteStep(crc, v[0]);
    var x2, y2 := ByteStep(x1, u[1]), ByteStep(y1, v[1]);
    var x3, y3 := ByteStep(x2, u[2]), ByteStep(y2, v[2]);
    var e0, e1, e2, e3 := ByteDiff(u[0], v[0]), ByteDiff(u[1], v[1]), ByteDiff(u[2], v[2]), ByteDiff(u[3], v[3]);
    forall i | 0 <= i < 4 ensures ByteSized(ByteDiff(u[i], v[i])) && (ByteDiff(u[i], v[i]) == 0 ==> u[i] == v[i]) {
      WidenDiff(u[i], v[i]);
    }
    DiffZero(ByteStep(x3, u[3]), ByteStep(y3, v[3]));
    DiffZero(crc, crc);
    BurstBounds(e1, e2, e3);
    ByteStepBack(x3, y3, u[3], v[3]);
    ByteStepBack(x2, y2, u[2], v[2]);
    ByteStepBack(x1, y1, u[1], v[1]);
    ByteStepBack(crc, crc, u[0], v[0]);
    BurstArithmetic(e0, e1, e2, e3);
  }

  lemma Unfold4(crc: bv32, u: seq<byte>)
    requires |u| == 4
    ensures Update(crc, u) == ByteStep(ByteStep(ByteStep(ByteStep(crc, u[0]), u[1]), u[2]), u[3])
  {
    hide ByteStep;
    var c1 := ByteStep(crc, u[0]);
    var c2 := ByteStep(c1, u[1]);
    var c3 := ByteStep(c2, u[2]);
    assert u[1..][1..] == u[2..] && u[2..][1..] == u[3..] && u[3..][1..] == [];
    assert Update(crc, u) == Update(c1, u[1..]) == Update(c2, u[2..]);
    assert Update(c2, u[2..]) == Update(c3, u[3..]) == Update(ByteStep(c3, u[3]), []);
  }

  /** The same for up to four bytes: pad both sides with equal zero bytes. */
  lemma BurstInjective(crc: bv32, u: seq<byte>, v: seq<byte>)
    requires |u| == |v| <= 4 && Update(crc, u) == Update(crc, v)
    ensures u == v
  {
    var pad := Zeros(4 - |u|);
    UpdateConcat(crc, u, pad);
    UpdateConcat(crc, v, pad);
    FourBytesInjective(crc, u + pad, v + pad);
    assert u == (u + pad)[..|u|] && v == (v + pad)[..|u|];
  }

  /** Detection: two strings that differ only inside a window of at most four
      consecutive bytes never share a checksum. */
  lemma BurstDetected(prefix: seq<byte>, u: seq<byte>, v: seq<byte>, suffix: seq<byte>)
    requires |u| == |v| <= 4 && u != v
    ensures Checksum(prefix + u + suffix) != Checksum(prefix + v + suffix)
  {
    if Checksum(prefix + u + suffix) == Checksum(prefix + v + suffix) {
      ChecksumRegister(prefix + u + suffix, prefix + v + suffix);
      UpdateConcat(SEED, prefix + u, suffix);
      UpdateConcat(SEED, prefix + v, suffix);
      UpdateInjective(Update(SEED, prefix + u), Update(SEED, prefix + v), suffix);
      UpdateConcat(SEED, prefix, u);
      UpdateConcat(SEED, prefix, v);
      BurstInjective(Update(SEED, prefix), u, v);
    }
  }

  lemma ChecksumRegister(a: seq<byte>, b: seq<byte>)
    requires Checksum(a) == Checksum(b)
    ensures Update(SEED, a) == Update(SEED, b)
  {
    hide Update, Finish;
    FinishInjective(Update(SEED, a), Update(SEED, b));
  }

  lemma FinishInjective(x: bv32, y: bv32)
    requires Finish(x) == Finish(y)
    ensures x == y
  {
    WordRoundTrip(x ^ SEED);
    WordRoundTrip(y ^ SEED);
    Complement(x, y);
  }

  lemma WordRoundTrip(w: bv32)
    ensures (w as int) as bv32 == w
  {}

  lemma Complement(x: bv32, y: bv32)
    requires x ^ SEED == y ^ SEED
    ensures x == y
  {}
}
