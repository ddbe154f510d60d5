/** The record encoding: a 32-byte little-endian header, then the payload.
    `EncodeRecord` is what `append` writes; `DecodeRecord` is the validity test
    of `scan_segment`. The two lemmas at the end make them inverse. */
module RecordFormat {
  import opened Options
  import opened Bytes
  import opened Crc32

  const RECORD_MAGIC := 0x31434552
  const RECORD_HEADER_SIZE := 32
  const CRC_COVERAGE := 28

  /** A logged message. The source also stores `payload_length`, which is always
      the payload's size. */
  datatype Message = Message(offset: nat, timestampNs: nat, payload: seq<byte>)

  function RecordSize(m: Message): nat { RECORD_HEADER_SIZE + |m.payload| }

  /** The fields fit their on-disk widths. */
  predicate Representable(m: Message) {
    m.offset < U64_LIMIT && m.timestampNs < U64_LIMIT && |m.payload| < U32_LIMIT
  }

  /** The checksummed part of the header. */
  function HeaderFields(offset: nat, timestampNs: nat, length: nat): (h: seq<byte>)
    ensures |h| == CRC_COVERAGE
  {
    PutLE(RECORD_MAGIC, 4) + PutLE(RECORD_HEADER_SIZE, 4) + PutLE(offset, 8) + PutLE(timestampNs, 8) + PutLE(length, 4)
  }

  function RecordCrc(header: seq<byte>, payload: seq<byte>): (c: nat)
    ensures c < U32_LIMIT
  {
    Checksum(header + payload)
  }

  function EncodeHeader(m: Message): (h: seq<byte>)
    ensures |h| == RECORD_HEADER_SIZE
  {
    var fields := HeaderFields(m.offset, m.timestampNs, |m.payload|);
    fields + PutLE(RecordCrc(fields, m.payload), 4)
  }

  function EncodeRecord(m: Message): (r: seq<byte>)
    ensures |r| == RecordSize(m)
  {
    EncodeHeader(m) + m.payload
  }

  /** The record at the front of `rest` if it is valid and continues at `offset`. */
  function DecodeRecord(rest: seq<byte>, offset: nat): (r: Option<Message>)
    requires |rest| >= RECORD_HEADER_SIZE
    ensures r.Some? ==> RecordSize(r.value) <= |rest| && r.value.offset == offset
  {
    var length := GetLE(rest[24..28]);
    if GetLE(rest[..4]) == RECORD_MAGIC
       && GetLE(rest[4..8]) == RECORD_HEADER_SIZE
       && GetLE(rest[8..16]) == offset
       && RECORD_HEADER_SIZE + length <= |rest|
       && GetLE(rest[28..32]) == RecordCrc(rest[..28], rest[32..32 + length])
    then Some(Message(offset, GetLE(rest[16..24]), rest[32..32 + length]))
    else None
  }

  lemma HeaderLayout(offset: nat, timestampNs: nat, length: nat)
    ensures var h := HeaderFields(offset, timestampNs, length);
            && h[..4] == PutLE(RECORD_MAGIC, 4)
            && h[4..8] == PutLE(RECORD_HEADER_SIZE, 4)
            && h[8..16] == PutLE(offset, 8)
            && h[16..24] == PutLE(timestampNs, 8)
            && h[24..28] == PutLE(length, 4)
  {
    hide PutLE;
    FiveFields(PutLE(RECORD_MAGIC, 4), PutLE(RECORD_HEADER_SIZE, 4), PutLE(offset, 8), PutLE(timestampNs, 8),
               PutLE(length, 4));
  }

  lemma FiveFields(a: seq<byte>, b: seq<byte>, c: seq<byte>, d: seq<byte>, e: seq<byte>)
    requires |a| == |b| == |e| == 4 && |c| == |d| == 8
    ensures var h := a + b + c + d + e;
            h[..4] == a && h[4..8] == b && h[8..16] == c && h[16..24] == d && h[24..28] == e
  {
    var h := a + b + c + d + e;
    assert h[..4] == a;
    assert h[4..8] == b;
    assert h[8..16] == c;
    assert h[16..24] == d;
    assert h[24..28] == e;
  }

  lemma HeaderValues(m: Message)
    requires Representable(m)
    ensures var h := EncodeHeader(m);
            && h[..28] == HeaderFields(m.offset, m.timestampNs, |m.payload|)
            && GetLE(h[..4]) == RECORD_MAGIC
            && GetLE(h[4..8]) == RECORD_HEADER_SIZE
            && GetLE(h[8..16]) == m.offset
            && GetLE(h[16..24]) == m.timestampNs
            && GetLE(h[24..28]) == |m.payload|
            && GetLE(h[28..32]) == RecordCrc(h[..28], m.payload)
  {
    hide PutLE, GetLE, RecordCrc, HeaderFields, Pow256;
    WordLimits();
    var f := HeaderFields(m.offset, m.timestampNs, |m.payload|);
    var h := EncodeHeader(m);
    HeaderLayout(m.offset, m.timestampNs, |m.payload|);
    GetPut(RECORD_MAGIC, 4);
    GetPut(RECORD_HEADER_SIZE, 4);
    GetPut(m.offset, 8);
    GetPut(m.timestampNs, 8);
    GetPut(|m.payload|, 4);
    GetPut(RecordCrc(f, m.payload), 4);
    assert h[..28] == f;
    assert h[..4] == f[..4] && h[4..8] == f[4..8] && h[8..16] == f[8..16];
    assert h[16..24] == f[16..24] && h[24..28] == f[24..28];
    assert h[28..32] == PutLE(RecordCrc(f, m.payload), 4);
  }

  /** A written record decodes to the message, whatever follows it. */
  lemma DecodeEncode(m: Message, suffix: seq<byte>)
    requires Representable(m)
    ensures DecodeRecord(EncodeRecord(m) + suffix, m.offset) == Some(m)
  {
    hide PutLE, GetLE, RecordCrc, HeaderFields, EncodeHeader;
    HeaderValues(m);
    var h := EncodeHeader(m);
    var rest := EncodeRecord(m) + suffix;
    assert rest[..28] == h[..28] && rest[28..32] == h[28..32];
    assert rest[..4] == h[..4] && rest[4..8] == h[4..8] && rest[8..16] == h[8..16];
    assert rest[16..24] == h[16..24] && rest[24..28] == h[24..28];
    assert rest[32..32 + |m.payload|] == m.payload;
  }

  /** A checksummed header prefix with the right constants has one reading. */
  lemma HeaderCanonical(h: seq<byte>)
    requires |h| == 28 && GetLE(h[..4]) == RECORD_MAGIC && GetLE(h[4..8]) == RECORD_HEADER_SIZE
    ensures h == HeaderFields(GetLE(h[8..16]), GetLE(h[16..24]), GetLE(h[24..28]))
  {
    hide PutLE, GetLE;
    PutGet(h[..4]);
    PutGet(h[4..8]);
    PutGet(h[8..16]);
    PutGet(h[16..24]);
    PutGet(h[24..28]);
    assert h == h[..4] + h[4..8] + h[8..16] + h[16..24] + h[24..28];
  }

  /** Whatever decodes is, byte for byte, the encoding of what it decodes to. */
  lemma EncodeDecode(rest: seq<byte>, offset: nat)
    requires |rest| >= RECORD_HEADER_SIZE && DecodeRecord(rest, offset).Some?
    ensures var m := DecodeRecord(rest, offset).value;
            Representable(m) && EncodeRecord(m) <= rest
  {
    hide PutLE, GetLE, RecordCrc, HeaderFields, Pow256;
    var h := rest[..28];
    var m := DecodeRecord(rest, offset).value;
    assert h[..4] == rest[..4] && h[4..8] == rest[4..8] && h[8..16] == rest[8..16];
    assert h[16..24] == rest[16..24] && h[24..28] == rest[24..28];
    HeaderCanonical(h);
    PutGet(rest[28..32]);
    PutGet(rest[8..16]);
    PutGet(rest[16..24]);
    PutGet(rest[24..28]);
    WordLimits();
    assert EncodeHeader(m) == rest[..28] + rest[28..32];
    assert rest[..RecordSize(m)] == rest[..28] + rest[28..32] + rest[32..RecordSize(m)];
  }
}
