/** One segment file: its header, its body of records, and the recovery scan.
    `ScanBody` is the specification of the record loop of `scan_segment` on the
    bytes after the header; the lemmas say it finds exactly the longest run of
    valid, offset-contiguous records. */
module SegmentScan {
  import opened Sequences
  import opened Bytes
  import opened Crc32
  import opened RecordFormat

  const SEGMENT_HEADER_SIZE := 40
  const SEGMENT_VERSION := 1
  const SEGMENT_MAGIC: seq<byte> := [0x49, 0x4f, 0x54, 0x4c, 0x4f, 0x47, 0x30, 0x31]

  // ---- Runs of records --------------------------------------------------------

  function Size(messages: seq<Message>): nat {
    if messages == [] then 0 else RecordSize(messages[0]) + Size(messages[1..])
  }

  function EncodeAll(messages: seq<Message>): (bytes: seq<byte>)
    ensures |bytes| == Size(messages)
  {
    if messages == [] then [] else EncodeRecord(messages[0]) + EncodeAll(messages[1..])
  }

  /** Representable messages whose offsets follow each other from `offset`. */
  predicate Chained(messages: seq<Message>, offset: nat) {
    messages == [] ||
    (messages[0].offset == offset && Representable(messages[0]) &&
     Chained(messages[1..], offset + RecordSize(messages[0])))
  }

  lemma {:induction false} SizeConcat(a: seq<Message>, b: seq<Message>)
    ensures Size(a + b) == Size(a) + Size(b)
  {
    if a == [] {
      assert a + b == b;
    } else {
      SizeConcat(a[1..], b);
      assert (a + b)[1..] == a[1..] + b;
    }
  }

  lemma {:induction false} EncodeConcat(a: seq<Message>, b: seq<Message>)
    ensures EncodeAll(a + b) == EncodeAll(a) + EncodeAll(b)
  {
    hide EncodeRecord;
    if a == [] {
      assert a + b == b;
    } else {
      EncodeConcat(a[1..], b);
      assert (a + b)[1..] == a[1..] + b;
      Assoc(EncodeRecord(a[0]), EncodeAll(a[1..]), EncodeAll(b));
    }
  }

  lemma EncodeOne(m: Message)
    ensures EncodeAll([m]) == EncodeRecord(m) && Size([m]) == RecordSize(m)
  {
    hide EncodeRecord;
    assert EncodeAll([m]) == EncodeRecord(m) + EncodeAll([m][1..]);
  }

  lemma ChainedOne(m: Message)
    requires Representable(m)
    ensures Chained([m], m.offset)
  {}

  lemma {:induction false} ChainedConcat(a: seq<Message>, b: seq<Message>, offset: nat)
    ensures Chained(a + b, offset) <==> Chained(a, offset) && Chained(b, offset + Size(a))
  {
    if a == [] {
      assert a + b == b;
    } else {
      ChainedConcat(a[1..], b, offset + RecordSize(a[0]));
      assert (a + b)[1..] == a[1..] + b;
    }
  }

  // ---- The record loop ---------------------------------------------------------

  /** Why the record loop stopped. */
  datatype Verdict = Clean | CorruptTail | CorruptRecord | TruncatedRecord | OffsetOverflow

  datatype Scan = Scan(messages: seq<Message>, verdict: Verdict)

  function ScanBody(rest: seq<byte>, offset: nat): (s: Scan)
    ensures Size(s.messages) <= |rest|
    decreases |rest|
  {
    if |rest| < RECORD_HEADER_SIZE then
      Scan([], if AllZero(rest) then Clean else TruncatedRecord)
    else if GetLE(rest[..4]) == 0 then
      Scan([], if AllZero(rest) then Clean else CorruptTail)
    else
      match DecodeRecord(rest, offset)
      case None => Scan([], CorruptRecord)
      case Some(m) =>
        if offset + RecordSize(m) >= U64_LIMIT then Scan([], OffsetOverflow)
        else Prepend(m, ScanBody(rest[RecordSize(m)..], offset + RecordSize(m)))
  }

  function Prepend(m: Message, s: Scan): (r: Scan)
    ensures Size(r.messages) == RecordSize(m) + Size(s.messages)
  {
    assert ([m] + s.messages)[1..] == s.messages;
    Scan([m] + s.messages, s.verdict)
  }

  lemma ScanZero(zeros: seq<byte>, offset: nat)
    requires AllZero(zeros)
    ensures ScanBody(zeros, offset) == Scan([], Clean)
  {
    if |zeros| >= RECORD_HEADER_SIZE {
      GetZero(zeros[..4]);
    }
  }

  lemma ScanStep(m: Message, rest: seq<byte>)
    requires Representable(m) && m.offset + RecordSize(m) < U64_LIMIT
    ensures ScanBody(EncodeRecord(m) + rest, m.offset) == Prepend(m, ScanBody(rest, m.offset + RecordSize(m)))
  {
    hide EncodeRecord, DecodeRecord, GetLE;
    var all := EncodeRecord(m) + rest;
    DecodeEncode(m, rest);
    MagicIsNotZero(m, rest);
    assert all[RecordSize(m)..] == rest;
  }

  lemma MagicIsNotZero(m: Message, rest: seq<byte>)
    requires Representable(m)
    ensures GetLE((EncodeRecord(m) + rest)[..4]) == RECORD_MAGIC
  {
    hide GetLE, EncodeHeader;
    HeaderValues(m);
    assert (EncodeRecord(m) + rest)[..4] == EncodeHeader(m)[..4];
  }

  /** The scan passes over written records and goes on with what follows. */
  lemma {:induction false} ScanWritten(messages: seq<Message>, rest: seq<byte>, offset: nat)
    requires Chained(messages, offset) && offset + Size(messages) < U64_LIMIT
    ensures var tail := ScanBody(rest, offset + Size(messages));
            ScanBody(EncodeAll(messages) + rest, offset) == Scan(messages + tail.messages, tail.verdict)
  {
    hide EncodeRecord, ScanBody, RecordSize, Representable;
    if messages == [] {
      assert EncodeAll(messages) + rest == rest;
    } else {
      var m := messages[0];
      ScanWritten(messages[1..], rest, offset + RecordSize(m));
      ScanStep(m, EncodeAll(messages[1..]) + rest);
      Assoc(EncodeRecord(m), EncodeAll(messages[1..]), rest);
      Assoc([m], messages[1..], ScanBody(rest, offset + Size(messages)).messages);
      assert messages == [m] + messages[1..];
    }
  }

  lemma PrefixConcat<T>(a: seq<T>, b: seq<T>, s: seq<T>)
    requires a <= s && b <= s[|a|..]
    ensures a + b <= s
  {}

  /** What the scan returns is on disk, contiguous and in range; a clean verdict
      means nothing but zeros follows. */
  lemma {:induction false} ScanSound(rest: seq<byte>, offset: nat)
    requires offset < U64_LIMIT
    ensures var s := ScanBody(rest, offset);
            && Chained(s.messages, offset) && offset + Size(s.messages) < U64_LIMIT
            && EncodeAll(s.messages) <= rest
            && (s.verdict == Clean ==> AllZero(rest[Size(s.messages)..]))
    decreases |rest|
  {
    hide EncodeRecord, DecodeRecord, GetLE, AllZero;
    var s := ScanBody(rest, offset);
    if s.messages == [] {
      assert rest[0..] == rest;
    } else {
      var m := DecodeRecord(rest, offset).value;
      var after := rest[RecordSize(m)..];
      var t := ScanBody(after, offset + RecordSize(m));
      ScanSound(after, offset + RecordSize(m));
      EncodeDecode(rest, offset);
      PrependSound(rest, offset, m, t);
    }
  }

  /** A record and a sound scan of what follows it. */
  lemma PrependSound(rest: seq<byte>, offset: nat, m: Message, t: Scan)
    requires RecordSize(m) <= |rest| && EncodeRecord(m) <= rest && Representable(m) && m.offset == offset
    requires Chained(t.messages, offset + RecordSize(m))
    requires EncodeAll(t.messages) <= rest[RecordSize(m)..] && Size(t.messages) <= |rest| - RecordSize(m)
    requires t.verdict == Clean ==> AllZero(rest[RecordSize(m)..][Size(t.messages)..])
    ensures var s := Prepend(m, t);
            && Chained(s.messages, offset) && EncodeAll(s.messages) <= rest
            && Size(s.messages) <= |rest| && (s.verdict == Clean ==> AllZero(rest[Size(s.messages)..]))
  {
    hide EncodeRecord, AllZero;
    var s := Prepend(m, t);
    assert s.messages[1..] == t.messages;
    PrefixConcat(EncodeRecord(m), EncodeAll(t.messages), rest);
    assert rest[Size(s.messages)..] == rest[RecordSize(m)..][Size(t.messages)..];
  }

  /** A run of records the bytes begin with and that the offset space can hold. */
  predicate ReadableRun(messages: seq<Message>, rest: seq<byte>, offset: nat) {
    Chained(messages, offset) && offset + Size(messages) < U64_LIMIT && EncodeAll(messages) <= rest
  }

  /** The scan returns the longest readable run: a run is readable exactly when
      it is a prefix of the one returned. */
  lemma {:induction false} ScanLongest(messages: seq<Message>, rest: seq<byte>, offset: nat)
    requires offset < U64_LIMIT
    ensures ReadableRun(messages, rest, offset) <==> messages <= ScanBody(rest, offset).messages
  {
    hide EncodeRecord, ScanBody, Chained, Size, EncodeAll;
    var found := ScanBody(rest, offset).messages;
    ScanSound(rest, offset);
    if ReadableRun(messages, rest, offset) {
      var after := rest[Size(messages)..];
      assert rest == EncodeAll(messages) + after;
      ScanWritten(messages, after, offset);
    }
    if messages <= found {
      var more := found[|messages|..];
      assert found == messages + more;
      SizeConcat(messages, more);
      EncodeConcat(messages, more);
      ChainedConcat(messages, more, offset);
      assert EncodeAll(messages) <= EncodeAll(found);
    }
  }

  // ---- The segment header -----------------------------------------------------

  function HeaderWords(id: nat, base: nat, segmentSize: nat): (h: seq<byte>)
    ensures |h| == 32
  {
    SEGMENT_MAGIC + PutLE(SEGMENT_VERSION, 4) + PutLE(id, 4) + PutLE(base, 8) + PutLE(segmentSize, 8)
  }

  /** The header `create_segment` writes; the last four bytes are reserved. */
  function SegmentHeader(id: nat, base: nat, segmentSize: nat): (h: seq<byte>)
    ensures |h| == SEGMENT_HEADER_SIZE
  {
    var words := HeaderWords(id, base, segmentSize);
    words + PutLE(Checksum(words), 4) + Zeros(4)
  }

  /** The header test of `scan_segment`; the reserved bytes are not looked at. */
  predicate HeaderOk(header: seq<byte>, id: nat, segmentSize: nat)
    requires |header| == SEGMENT_HEADER_SIZE
  {
    && header[..8] == SEGMENT_MAGIC
    && GetLE(header[8..12]) == SEGMENT_VERSION
    && GetLE(header[12..16]) == id
    && GetLE(header[24..32]) == segmentSize
    && GetLE(header[32..36]) == Checksum(header[..32])
  }

  function BaseOffset(header: seq<byte>): nat
    requires |header| == SEGMENT_HEADER_SIZE
  {
    GetLE(header[16..24])
  }

  /** A created header passes the test of the next open and carries its base. */
  lemma CreatedHeaderOk(id: nat, base: nat, segmentSize: nat)
    requires id < U32_LIMIT && base < U64_LIMIT && segmentSize < U64_LIMIT
    ensures HeaderOk(SegmentHeader(id, base, segmentSize), id, segmentSize)
    ensures BaseOffset(SegmentHeader(id, base, segmentSize)) == base
  {
    hide PutLE, GetLE, Checksum, Pow256, HeaderWords;
    var w := HeaderWords(id, base, segmentSize);
    var h := SegmentHeader(id, base, segmentSize);
    WordLimits();
    GetPut(SEGMENT_VERSION, 4);
    GetPut(id, 4);
    GetPut(base, 8);
    GetPut(segmentSize, 8);
    GetPut(Checksum(w), 4);
    HeaderWordsLayout(id, base, segmentSize);
    assert h[..32] == w && h[32..36] == PutLE(Checksum(w), 4);
    assert h[..8] == w[..8] && h[8..12] == w[8..12] && h[12..16] == w[12..16];
    assert h[16..24] == w[16..24] && h[24..32] == w[24..32];
  }

  lemma HeaderWordsLayout(id: nat, base: nat, segmentSize: nat)
    ensures var w := HeaderWords(id, base, segmentSize);
            && w[..8] == SEGMENT_MAGIC && w[8..12] == PutLE(SEGMENT_VERSION, 4)
            && w[12..16] == PutLE(id, 4) && w[16..24] == PutLE(base, 8)
            && w[24..32] == PutLE(segmentSize, 8)
  {}

  // ---- The whole segment --------------------------------------------------------

  datatype Error =
    | AlreadyOpen | SegmentSizeUnsupported | RecentCapacityZero
    | NotOpen | PayloadTooLong | RecordTooLarge | OffsetSpaceExhausted | SegmentIdsExhausted
    | SegmentGap | HeaderTruncated | HeaderInvalid | BaseDiscontinuous | FileTooLarge
    | CorruptTailInSealed | CorruptRecordInSealed | TruncatedRecordInSealed | OffsetsOverflow

  datatype Result<+T> = Ok(value: T) | Err(error: Error) {
    predicate IsFailure() { Err? }
    function PropagateFailure<U>(): Result<U>
      requires Err?
    {
      Err(error)
    }
    function Extract(): T
      requires Ok?
    {
      value
    }
  }

  /** A scanned segment: the file it leaves behind and its messages. */
  datatype Segment = Segment(file: seq<byte>, messages: seq<Message>)

  function SealedError(v: Verdict): Error
    requires v != Clean && v != OffsetOverflow
  {
    match v
    case CorruptTail => CorruptTailInSealed
    case CorruptRecord => CorruptRecordInSealed
    case TruncatedRecord => TruncatedRecordInSealed
  }

  /** `scan_segment` as a function of the file. */
  function ScanSegment(file: seq<byte>, id: nat, isLatest: bool, offset: nat, segmentSize: nat): Result<Segment> {
    if |file| < SEGMENT_HEADER_SIZE then Err(HeaderTruncated)
    else if !HeaderOk(file[..SEGMENT_HEADER_SIZE], id, segmentSize) then Err(HeaderInvalid)
    else if BaseOffset(file[..SEGMENT_HEADER_SIZE]) != offset then Err(BaseDiscontinuous)
    else if |file| > segmentSize then Err(FileTooLarge)
    else
      var s := ScanBody(file[SEGMENT_HEADER_SIZE..], offset);
      match s.verdict
      case Clean => Ok(Segment(file, s.messages))
      case OffsetOverflow => Err(OffsetsOverflow)
      case _ =>
        if isLatest then Ok(Segment(file[..SEGMENT_HEADER_SIZE + Size(s.messages)], s.messages))
        else Err(SealedError(s.verdict))
  }

  /** The file is a good header for `(id, base)`, then exactly the encodings of
      `messages`, then only zeros. */
  ghost predicate Holds(file: seq<byte>, id: nat, base: nat, messages: seq<Message>, segmentSize: nat) {
    && SEGMENT_HEADER_SIZE + Size(messages) <= |file| <= segmentSize
    && HeaderOk(file[..SEGMENT_HEADER_SIZE], id, segmentSize)
    && BaseOffset(file[..SEGMENT_HEADER_SIZE]) == base
    && Chained(messages, base) && base + Size(messages) < U64_LIMIT
    && EncodeAll(messages) <= file[SEGMENT_HEADER_SIZE..]
    && AllZero(file[SEGMENT_HEADER_SIZE + Size(messages)..])
  }

  /** A segment that holds messages scans to exactly them and is left alone. */
  lemma ScanHeld(file: seq<byte>, id: nat, isLatest: bool, base: nat, messages: seq<Message>, segmentSize: nat)
    requires Holds(file, id, base, messages, segmentSize)
    ensures ScanSegment(file, id, isLatest, base, segmentSize) == Ok(Segment(file, messages))
  {
    hide HeaderOk, BaseOffset, ScanBody, Chained, EncodeAll, Size, AllZero;
    var body := file[SEGMENT_HEADER_SIZE..];
    var zeros := file[SEGMENT_HEADER_SIZE + Size(messages)..];
    assert body == EncodeAll(messages) + zeros;
    ScanWritten(messages, zeros, base);
    ScanZero(zeros, base + Size(messages));
    assert messages + [] == messages;
  }

  /** Writing the next record where the zeros begin extends what is held by it. */
  lemma HoldsAppend(file: seq<byte>, id: nat, base: nat, messages: seq<Message>, segmentSize: nat, m: Message)
    requires Holds(file, id, base, messages, segmentSize)
    requires Representable(m) && m.offset == base + Size(messages) && m.offset + RecordSize(m) < U64_LIMIT
    requires SEGMENT_HEADER_SIZE + Size(messages) + RecordSize(m) <= |file|
    ensures Holds(Overwrite(file, SEGMENT_HEADER_SIZE + Size(messages), EncodeRecord(m)), id, base, messages + [m],
                  segmentSize)
  {
    hide HeaderOk, BaseOffset, EncodeRecord, Representable, Size, EncodeAll, Chained, Overwrite;
    var at := SEGMENT_HEADER_SIZE + Size(messages);
    var after := Overwrite(file, at, EncodeRecord(m));
    SizeConcat(messages, [m]);
    EncodeConcat(messages, [m]);
    ChainedConcat(messages, [m], base);
    EncodeOne(m);
    ChainedOne(m);
    OverwriteLayout(file, at, EncodeRecord(m), SEGMENT_HEADER_SIZE);
    SameRun(file, EncodeAll(messages), SEGMENT_HEADER_SIZE);
    PrefixOf(after, EncodeAll(messages + [m]), SEGMENT_HEADER_SIZE);
    ZeroSuffix(file[at..], RecordSize(m));
    assert file[at..][RecordSize(m)..] == file[at + RecordSize(m)..];
  }

  lemma OverwriteLayout(file: seq<byte>, at: nat, bytes: seq<byte>, from: nat)
    requires at + |bytes| <= |file| && from <= at
    ensures var r := Overwrite(file, at, bytes);
            && r[..from] == file[..from]
            && r[from..at + |bytes|] == file[from..at] + bytes
            && r[at + |bytes|..] == file[at + |bytes|..]
  {}

  lemma SameRun<T>(file: seq<T>, run: seq<T>, from: nat)
    requires from + |run| <= |file|
    ensures run <= file[from..] <==> file[from..from + |run|] == run
  {
    assert file[from..from + |run|] == file[from..][..|run|];
  }

  lemma PrefixOf<T>(file: seq<T>, run: seq<T>, from: nat)
    requires from + |run| <= |file| && file[from..from + |run|] == run
    ensures run <= file[from..]
  {
    SameRun(file, run, from);
  }

  lemma ZeroSuffix(zeros: seq<byte>, n: nat)
    requires AllZero(zeros) && n <= |zeros|
    ensures AllZero(zeros[n..])
  {}

  function Overwrite(file: seq<byte>, at: nat, bytes: seq<byte>): (r: seq<byte>)
    requires at + |bytes| <= |file|
    ensures |r| == |file|
  {
    file[..at] + bytes + file[at + |bytes|..]
  }

  /** The file after recovery has stretched it to `size` bytes with zeros. */
  function Extended(file: seq<byte>, size: nat): seq<byte> {
    if |file| <= size then file + Zeros(size - |file|) else file[..size]
  }

  lemma HoldsExtended(file: seq<byte>, id: nat, base: nat, messages: seq<Message>, segmentSize: nat)
    requires Holds(file, id, base, messages, segmentSize)
    ensures Holds(Extended(file, segmentSize), id, base, messages, segmentSize)
    ensures |Extended(file, segmentSize)| == segmentSize
  {
    hide HeaderOk, BaseOffset, Chained, EncodeAll, Size;
    var e := Extended(file, segmentSize);
    var kept := SEGMENT_HEADER_SIZE + Size(messages);
    var zeros := Zeros(segmentSize - |file|);
    assert e[..SEGMENT_HEADER_SIZE] == file[..SEGMENT_HEADER_SIZE];
    assert e[SEGMENT_HEADER_SIZE..] == file[SEGMENT_HEADER_SIZE..] + zeros;
    assert e[kept..] == file[kept..] + zeros;
  }

  /** A successful scan leaves a file that holds what it returned: the rest is
      zeros or gone, whatever bytes were there. */
  lemma ScanNormalises(file: seq<byte>, id: nat, isLatest: bool, offset: nat, segmentSize: nat)
    requires offset < U64_LIMIT
    requires ScanSegment(file, id, isLatest, offset, segmentSize).Ok?
    ensures var s := ScanSegment(file, id, isLatest, offset, segmentSize).value;
            && s.file <= file
            && s.messages == ScanBody(file[SEGMENT_HEADER_SIZE..], offset).messages
            && Holds(s.file, id, offset, s.messages, segmentSize)
            && (!isLatest ==> s.file == file)
  {
    hide HeaderOk, BaseOffset, ScanBody, Chained, EncodeAll, Size;
    var s := ScanSegment(file, id, isLatest, offset, segmentSize).value;
    var body := file[SEGMENT_HEADER_SIZE..];
    ScanSound(body, offset);
    var kept := SEGMENT_HEADER_SIZE + Size(s.messages);
    assert s.file[..SEGMENT_HEADER_SIZE] == file[..SEGMENT_HEADER_SIZE];
    assert s.file[SEGMENT_HEADER_SIZE..] == body[..|s.file| - SEGMENT_HEADER_SIZE];
    assert AllZero(s.file[kept..]) by {
      if s.file == file {
        if ScanBody(body, offset).verdict == Clean {
          assert file[kept..] == body[Size(s.messages)..];
        }
      }
    }
  }

  /** A segment straight out of `create_segment` holds nothing. */
  lemma FreshHolds(id: nat, base: nat, segmentSize: nat)
    requires id < U32_LIMIT && base < U64_LIMIT && SEGMENT_HEADER_SIZE <= segmentSize < U64_LIMIT
    ensures Holds(SegmentHeader(id, base, segmentSize) + Zeros(segmentSize - SEGMENT_HEADER_SIZE), id, base, [],
                  segmentSize)
  {
    hide HeaderOk, BaseOffset, SegmentHeader;
    CreatedHeaderOk(id, base, segmentSize);
    var file := SegmentHeader(id, base, segmentSize) + Zeros(segmentSize - SEGMENT_HEADER_SIZE);
    assert file[..SEGMENT_HEADER_SIZE] == SegmentHeader(id, base, segmentSize);
    assert file[SEGMENT_HEADER_SIZE..] == Zeros(segmentSize - SEGMENT_HEADER_SIZE);
  }
}
