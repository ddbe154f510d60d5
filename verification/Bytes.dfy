/** Bytes and the little-endian integer fields of the on-disk format.
    The sequence functions are the specification; the two methods are the
    loops of `put_u32`/`put_u64` and `get_u32`/`get_u64`, with the width as a
    parameter (4 or 8) and shifts and masks read as division and remainder. */
module Bytes {
  newtype byte = x: int | 0 <= x < 256

  const U32_LIMIT := 0x1_0000_0000
  const U64_LIMIT := 0x1_0000_0000_0000_0000

  function Pow256(n: nat): (p: nat)
    ensures p > 0
  {
    if n == 0 then 1 else 256 * Pow256(n - 1)
  }

  lemma WordLimits()
    ensures Pow256(4) == U32_LIMIT && Pow256(8) == U64_LIMIT
  {
    assert Pow256(4) == 256 * (256 * (256 * (256 * Pow256(0))));
    assert Pow256(8) == 256 * (256 * (256 * (256 * Pow256(4))));
  }

  function PutLE(value: nat, width: nat): (bytes: seq<byte>)
    ensures |bytes| == width
  {
    if width == 0 then [] else [(value % 256) as byte] + PutLE(value / 256, width - 1)
  }

  function GetLE(bytes: seq<byte>): nat {
    if bytes == [] then 0 else bytes[0] as nat + 256 * GetLE(bytes[1..])
  }

  /** Decoding undoes encoding, for every value that fits the width. */
  lemma {:induction false} GetPut(value: nat, width: nat)
    requires value < Pow256(width)
    ensures GetLE(PutLE(value, width)) == value
  {
    if width > 0 {
      GetPut(value / 256, width - 1);
      assert PutLE(value, width)[1..] == PutLE(value / 256, width - 1);
    }
  }

  /** Encoding undoes decoding: a field has exactly one spelling. */
  lemma {:induction false} PutGet(bytes: seq<byte>)
    ensures GetLE(bytes) < Pow256(|bytes|)
    ensures PutLE(GetLE(bytes), |bytes|) == bytes
  {
    if bytes != [] {
      PutGet(bytes[1..]);
      SplitLow(bytes[0] as nat, GetLE(bytes[1..]));
      assert bytes == [bytes[0]] + bytes[1..];
    }
  }

  lemma SplitLow(low: nat, high: nat)
    requires low < 256
    ensures (low + 256 * high) % 256 == low && (low + 256 * high) / 256 == high
  {}

  predicate AllZero(bytes: seq<byte>) {
    forall i :: 0 <= i < |bytes| ==> bytes[i] == 0
  }

  function Zeros(n: nat): (bytes: seq<byte>)
    ensures |bytes| == n && AllZero(bytes)
  {
    seq(n, _ => 0 as byte)
  }

  lemma {:induction false} GetZero(bytes: seq<byte>)
    ensures GetLE(bytes) == 0 <==> AllZero(bytes)
  {
    if bytes != [] {
      GetZero(bytes[1..]);
      assert AllZero(bytes) ==> AllZero(bytes[1..]);
      if GetLE(bytes) == 0 {
        forall i | 0 <= i < |bytes| ensures bytes[i] == 0 {
          if i > 0 { assert bytes[i] == bytes[1..][i - 1]; }
        }
      }
    }
  }

  /** `value >> (8 * n)` on an unsigned value. */
  function Shr8(value: nat, n: nat): nat {
    if n == 0 then value else Shr8(value, n - 1) / 256
  }

  /** `value << (8 * n)`, before any bits fall off. */
  function Shl8(value: nat, n: nat): nat {
    if n == 0 then value else 256 * Shl8(value, n - 1)
  }

  lemma {:induction false} ShrFirst(value: nat, n: nat)
    ensures Shr8(value / 256, n) == Shr8(value, n + 1)
  {
    if n > 0 { ShrFirst(value, n - 1); }
  }

  /** Byte `i` of a field is the value shifted right by `8 i` and masked. */
  lemma {:induction false} PutAt(value: nat, width: nat, i: nat)
    requires i < width
    ensures PutLE(value, width)[i] as nat == Shr8(value, i) % 256
  {
    if i > 0 {
      PutAt(value / 256, width - 1, i - 1);
      ShrFirst(value, i - 1);
    }
  }

  /** `put_u32` and `put_u64`: the field is spelled at `at`, nothing else moves. */
  method Put(destination: array<byte>, at: nat, value: nat, width: nat)
    requires at + width <= destination.Length
    modifies destination
    ensures destination[..] == old(destination[..at]) + PutLE(value, width) + old(destination[at + width..])
  {
    ghost var before := destination[..];
    for index := 0 to width
      invariant forall k :: 0 <= k < destination.Length && !(at <= k < at + index) ==> destination[k] == before[k]
      invariant forall k :: 0 <= k < index ==> destination[at + k] == PutLE(value, width)[k]
    {
      PutAt(value, width, index);
      destination[at + index] := (Shr8(value, index) % 256) as byte;
    }
    assert destination[..] == before[..at] + PutLE(value, width) + before[at + width..];
  }

  /** `get_u32` and `get_u64`: the bytes are or-ed in from the low end. */
  method Get(source: seq<byte>) returns (value: nat)
    ensures value == GetLE(source)
  {
    value := 0;
    assert source[..0] == [];
    for index := 0 to |source|
      invariant value == GetLE(source[..index])
    {
      GetSnoc(source[..index], source[index]);
      assert source[..index + 1] == source[..index] + [source[index]];
      value := value + Shl8(source[index] as nat, index);
    }
    assert source[..|source|] == source;
  }

  lemma {:induction false} GetSnoc(bytes: seq<byte>, last: byte)
    ensures GetLE(bytes + [last]) == GetLE(bytes) + Shl8(last as nat, |bytes|)
  {
    if bytes == [] {
      assert bytes + [last] == [last];
      assert GetLE([last]) == last as nat + 256 * GetLE([last][1..]);
    } else {
      GetSnoc(bytes[1..], last);
      assert (bytes + [last])[1..] == bytes[1..] + [last];
    }
  }

  /** A memory image after the byte stores `(address, value)`, in order. */
  datatype Store = Store(address: nat, value: byte)

  function ApplyStores(memory: seq<byte>, stores: seq<Store>): (after: seq<byte>)
    ensures |after| == |memory|
  {
    if stores == [] then memory
    else
      var before := ApplyStores(memory, stores[..|stores| - 1]);
      var s := stores[|stores| - 1];
      if s.address < |before| then before[s.address := s.value] else before
  }
}
