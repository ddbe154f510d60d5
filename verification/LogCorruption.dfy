/** Corruption of a stored record: a change inside four consecutive bytes that
    leaves the length field alone is always noticed. In the newest segment
    recovery then keeps exactly the earlier records; in a sealed one it refuses. */
module LogCorruption {
  import opened Bytes
  import opened Crc32
  import opened RecordFormat
  import opened SegmentScan
  import opened LogModel
  import opened LogDamage

  /** `change` replaces one to four bytes of the record of `m` at `at`, none of
      them in the length field and not on both sides of the payload's start. */
  predicate Burst(m: Message, at: nat, change: seq<byte>) {
    && |change| <= 4 && at + |change| <= RecordSize(m)
    && (at + |change| <= 24 || (28 <= at && at + |change| <= 32) || 32 <= at)
    && change != EncodeRecord(m)[at..at + |change|]
  }

  /** Cutting a string around a window, and the same string with the window changed. */
  lemma WindowSplit(s: seq<byte>, at: nat, change: seq<byte>)
    requires at + |change| <= |s|
    ensures s == s[..at] + s[at..at + |change|] + s[at + |change|..]
  {}

  /** A burst in the checksummed fields or in the payload changes the checksum. */
  lemma CoveredBurst(covered: seq<byte>, at: nat, change: seq<byte>)
    requires |change| <= 4 && at + |change| <= |covered| && change != covered[at..at + |change|]
    ensures Checksum(Overwrite(covered, at, change)) != Checksum(covered)
  {
    hide Checksum;
    WindowSplit(covered, at, change);
    BurstDetected(covered[..at], change, covered[at..at + |change|], covered[at + |change|..]);
  }

  /** The header and payload the scan reads back from a damaged record. */
  lemma BurstBytes(m: Message, at: nat, change: seq<byte>)
    requires Burst(m, at, change)
    ensures var h, d := EncodeHeader(m), Overwrite(EncodeRecord(m), at, change);
            && d[24..28] == h[24..28]
            && (at + |change| <= 24 ==>
                  d[..28] + d[32..] == Overwrite(h[..28] + m.payload, at, change) && d[28..32] == h[28..32])
            && (28 <= at && at + |change| <= 32 ==>
                  d[..28] == h[..28] && d[32..] == m.payload && d[28..32] != h[28..32])
            && (32 <= at ==>
                  d[..28] + d[32..] == Overwrite(h[..28] + m.payload, at - 4, change) && d[28..32] == h[28..32])
  {
    hide EncodeHeader;
    var h, d := EncodeHeader(m), Overwrite(EncodeRecord(m), at, change);
    if at + |change| <= 24 {
      BurstInFields(h, m.payload, at, change);
    } else if 32 <= at {
      BurstInPayload(h, m.payload, at, change);
    } else {
      BurstInStored(h, m.payload, at, change);
    }
  }

  lemma BurstInFields(h: seq<byte>, payload: seq<byte>, at: nat, change: seq<byte>)
    requires |h| == 32 && at + |change| <= 24
    ensures var d := Overwrite(h + payload, at, change);
            && d[24..28] == h[24..28] && d[28..32] == h[28..32]
            && d[..28] + d[32..] == Overwrite(h[..28] + payload, at, change)
  {
    var d := Overwrite(h + payload, at, change);
    assert d[..28] == Overwrite(h[..28], at, change);
    assert d[32..] == payload;
    assert d[24..28] == h[24..28];
    assert d[28..32] == h[28..32];
  }

  lemma BurstInPayload(h: seq<byte>, payload: seq<byte>, at: nat, change: seq<byte>)
    requires |h| == 32 <= at && at + |change| <= 32 + |payload|
    ensures var d := Overwrite(h + payload, at, change);
            && d[24..28] == h[24..28] && d[28..32] == h[28..32]
            && d[..28] + d[32..] == Overwrite(h[..28] + payload, at - 4, change)
  {
    var d := Overwrite(h + payload, at, change);
    assert d[..28] == h[..28];
    assert d[32..] == Overwrite(payload, at - 32, change);
    assert d[24..28] == h[24..28];
    assert d[28..32] == h[28..32];
  }

  lemma BurstInStored(h: seq<byte>, payload: seq<byte>, at: nat, change: seq<byte>)
    requires |h| == 32 && 28 <= at && at + |change| <= 32 && change != (h + payload)[at..at + |change|]
    ensures var d := Overwrite(h + payload, at, change);
            d[24..28] == h[24..28] && d[..28] == h[..28] && d[32..] == payload && d[28..32] != h[28..32]
  {
    var d := Overwrite(h + payload, at, change);
    var upto := at + |change|;
    assert d[24..28] == h[24..28];
    assert d[..28] == h[..28];
    assert d[32..] == payload;
    WindowShows(h + payload, at, change);
    LeftSlice(h, payload, at, upto);
    SliceOfSlice(h, 28, 32, at, upto);
    SliceOfSlice(d, 28, 32, at, upto);
  }

  lemma WindowShows(s: seq<byte>, at: nat, change: seq<byte>)
    requires at + |change| <= |s|
    ensures Overwrite(s, at, change)[at..at + |change|] == change
  {}

  lemma LeftSlice(a: seq<byte>, b: seq<byte>, i: nat, j: nat)
    requires i <= j <= |a|
    ensures (a + b)[i..j] == a[i..j]
  {}

  lemma SliceOfSlice(s: seq<byte>, a: nat, b: nat, i: nat, j: nat)
    requires a <= i <= j <= b <= |s|
    ensures s[a..b][i - a..j - a] == s[i..j]
  {
    var t := s[a..b];
    forall k | 0 <= k < j - i ensures t[i - a..j - a][k] == s[i..j][k] {
      assert t[i - a + k] == s[i + k];
    }
  }

  /** ... and the window of the covered string really changes. */
  lemma BurstInCovered(m: Message, at: nat, change: seq<byte>)
    requires Burst(m, at, change)
    ensures at + |change| <= 24 ==> change != (EncodeHeader(m)[..28] + m.payload)[at..at + |change|]
    ensures 32 <= at ==> change != (EncodeHeader(m)[..28] + m.payload)[at - 4..at - 4 + |change|]
  {
    hide EncodeHeader;
    var h, upto := EncodeHeader(m), at + |change|;
    if upto <= 24 {
      LeftSlice(h, m.payload, at, upto);
      LeftSlice(h[..28], m.payload, at, upto);
      SliceOfSlice(h, 0, 28, at, upto);
      assert h[0..28] == h[..28];
    } else if 32 <= at {
      RightSlice(h, m.payload, at, upto);
      RightSlice(h[..28], m.payload, at - 4, upto - 4);
    }
  }

  lemma RightSlice(a: seq<byte>, b: seq<byte>, i: nat, j: nat)
    requires |a| <= i <= j <= |a| + |b|
    ensures (a + b)[i..j] == b[i - |a|..j - |a|]
  {}

  /** The checksum test fails on the damaged record. */
  lemma BurstBreaksChecksum(m: Message, at: nat, change: seq<byte>)
    requires Representable(m) && Burst(m, at, change)
    ensures var d := Overwrite(EncodeRecord(m), at, change);
            GetLE(d[24..28]) == |m.payload| && GetLE(d[28..32]) != RecordCrc(d[..28], d[32..])
  {
    hide EncodeRecord, EncodeHeader, GetLE, Overwrite, Checksum, Representable, HeaderFields, Burst;
    BurstWindow(m, at, change);
    var h, d := EncodeHeader(m), Overwrite(EncodeRecord(m), at, change);
    HeaderValues(m);
    BurstBytes(m, at, change);
    BurstInCovered(m, at, change);
    if at + |change| <= 24 {
      CoveredBurst(h[..28] + m.payload, at, change);
    } else if 32 <= at {
      CoveredBurst(h[..28] + m.payload, at - 4, change);
    } else {
      FieldDiffers(d[28..32], h[28..32]);
    }
  }

  lemma BurstWindow(m: Message, at: nat, change: seq<byte>)
    requires Burst(m, at, change)
    ensures |change| <= 4 && at + |change| <= RecordSize(m)
    ensures at + |change| <= 24 || (28 <= at && at + |change| <= 32) || 32 <= at
  {}

  lemma FieldDiffers(a: seq<byte>, b: seq<byte>)
    requires |a| == |b| && a != b
    ensures GetLE(a) != GetLE(b)
  {
    hide GetLE, PutLE;
    PutGet(a);
    PutGet(b);
  }

  /** The scan reads nothing from the damaged record on. */
  lemma BurstStopsScan(m: Message, at: nat, change: seq<byte>, after: seq<byte>)
    requires Representable(m) && Burst(m, at, change)
    ensures var s := ScanBody(Overwrite(EncodeRecord(m), at, change) + after, m.offset);
            s.messages == [] && (s.verdict == CorruptTail || s.verdict == CorruptRecord)
  {
    hide EncodeRecord, GetLE, Overwrite, RecordCrc, Burst, AllZero, Representable;
    BurstWindow(m, at, change);
    var d := Overwrite(EncodeRecord(m), at, change);
    var rest := d + after;
    BurstBreaksChecksum(m, at, change);
    SliceRecord(d, rest, |m.payload|);
    NotAllZero(m, at, change, after);
  }

  lemma SliceRecord(d: seq<byte>, rest: seq<byte>, length: nat)
    requires |d| == 32 + length && d <= rest
    ensures rest[24..28] == d[24..28] && rest[28..32] == d[28..32] && rest[..28] == d[..28]
    ensures rest[32..32 + length] == d[32..]
  {}

  /** No burst can make a record look like unused padding. */
  lemma NotAllZero(m: Message, at: nat, change: seq<byte>, after: seq<byte>)
    requires Burst(m, at, change)
    ensures !AllZero(Overwrite(EncodeRecord(m), at, change) + after)
  {
    hide RecordCrc, GetLE;
    var d := Overwrite(EncodeRecord(m), at, change);
    assert EncodeRecord(m)[0] == PutLE(RECORD_MAGIC, 4)[0];
    assert EncodeRecord(m)[4] == PutLE(RECORD_HEADER_SIZE, 4)[0];
    if at == 0 {
      assert (d + after)[4] == d[4] == EncodeRecord(m)[4];
    } else {
      assert (d + after)[0] == d[0] == EncodeRecord(m)[0];
    }
  }

  // ---- In the log -----------------------------------------------------------------

  /** Segment `i` of the log with record `r` of that segment damaged. */
  function Damaged(img: Image, parts: seq<seq<Message>>, i: nat, r: nat, at: nat, change: seq<byte>): (d: seq<byte>)
    requires i < |parts| && i < |img.files| && r < |parts[i]|
    requires Boundary(parts[i][..r]) + at + |change| <= |img.files[i]|
    ensures |d| == |img.files[i]|
  {
    Overwrite(img.files[i], Boundary(parts[i][..r]) + at, change)
  }

  /** The damaged file: the earlier records, the damaged one, the rest. */
  lemma DamagedLayout(img: Image, parts: seq<seq<Message>>, i: nat, r: nat, at: nat, change: seq<byte>)
    requires i < |parts| && i < |img.files| && r < |parts[i]| && Represents(img, parts)
    requires Burst(parts[i][r], at, change)
    ensures Boundary(parts[i][..r]) + RecordSize(parts[i][r]) <= |img.files[i]|
    ensures var kept, m := parts[i][..r], parts[i][r];
            var file, d := img.files[i], Damaged(img, parts, i, r, at, change);
            && DamagedAfter(file, d, parts[i], kept, img.segmentSize)
            && d[Boundary(kept)..] == Overwrite(EncodeRecord(m), at, change) + file[Boundary(kept) + RecordSize(m)..]
            && Representable(m) && m.offset == Size(Flatten(parts[..i])) + Size(kept)
  {
    hide Tiled, Holds, Flatten, Size, EncodeRecord, Representable, Burst, Overwrite;
    BurstWindow(parts[i][r], at, change);
    TiledLengths(img.files, img.index, parts, 1, 0, img.segmentSize);
    TiledAt(img.files, img.index, parts, i, img.segmentSize);
    RecordPlace(img.files[i], 1 + i, Size(Flatten(parts[..i])), parts[i], r, img.segmentSize);
    DamagePlace(img.files[i], Boundary(parts[i][..r]), EncodeRecord(parts[i][r]), at, change);
  }

  /** Where record `r` of a held segment is. */
  lemma RecordPlace(file: seq<byte>, id: nat, base: nat, messages: seq<Message>, r: nat, segmentSize: nat)
    requires Holds(file, id, base, messages, segmentSize) && r < |messages|
    ensures var p, m := Boundary(messages[..r]), messages[r];
            && p + RecordSize(m) <= |file| <= segmentSize
            && file[p..p + RecordSize(m)] == EncodeRecord(m)
            && Representable(m) && m.offset == base + Size(messages[..r])
  {
    hide HeaderOk, BaseOffset, EncodeRecord, EncodeAll, Chained, Size, AllZero, Representable, RecordSize;
    var kept, m := messages[..r], messages[r];
    assert messages[..r + 1] == kept + [m];
    KeptRun(file, id, base, messages, kept, segmentSize);
    KeptRun(file, id, base, messages, kept + [m], segmentSize);
    EncodeConcat(kept, [m]);
    SizeConcat(kept, [m]);
    EncodeOne(m);
    ChainedConcat(kept, [m], base);
    ChainedHead(m, base + Size(kept));
    var p := Boundary(kept);
    assert file[p..p + RecordSize(m)] == file[SEGMENT_HEADER_SIZE..p + RecordSize(m)][Size(kept)..];
    assert (EncodeAll(kept) + EncodeRecord(m))[Size(kept)..] == EncodeRecord(m);
  }

  lemma ChainedHead(m: Message, offset: nat)
    requires Chained([m], offset)
    ensures Representable(m) && m.offset == offset
  {}

  lemma DamagePlace(file: seq<byte>, p: nat, record: seq<byte>, at: nat, change: seq<byte>)
    requires p + |record| <= |file| && file[p..p + |record|] == record && at + |change| <= |record|
    ensures var d := Overwrite(file, p + at, change);
            d[..p] == file[..p] && d[p..] == Overwrite(record, at, change) + file[p + |record|..]
  {
    var d := Overwrite(file, p + at, change);
    assert record[..at] == file[p..p + at];
    assert record[at + |change|..] == file[p + at + |change|..p + |record|];
  }

  /** Newest segment: recovery keeps exactly the records before the damaged one. */
  lemma CorruptionInNewest(img: Image, parts: seq<seq<Message>>, n: nat, r: nat, at: nat, change: seq<byte>)
    requires n == |parts| - 1 == |img.files| - 1 && r < |parts[n]|
    requires Represents(img, parts) && Burst(parts[n][r], at, change)
    ensures Boundary(parts[n][..r]) + at + |change| <= |img.files[n]| && SupportedSize(img.segmentSize)
    ensures var recovered := Recover(Listing(img.files[n := Damaged(img, parts, n, r, at, change)]), img.segmentSize);
            recovered.Ok? && Represents(recovered.value, parts[n := parts[n][..r]])
  {
    hide Tiled, Holds, Flatten, EncodeRecord, Representable, Burst, Overwrite, ScanBody, Recover, DamagedAfter,
         Extended, Damaged;
    var m, kept := parts[n][r], parts[n][..r];
    BurstWindow(m, at, change);
    DamagedLayout(img, parts, n, r, at, change);
    var d := Damaged(img, parts, n, r, at, change);
    BurstStopsScan(m, at, change, img.files[n][Boundary(kept) + RecordSize(m)..]);
    RecoverLatest(img, parts, n, d, kept, ScanBody(d[Boundary(kept)..], m.offset));
    assert kept + [] == kept;
  }

  /** Sealed segment: recovery refuses to open. */
  lemma CorruptionInSealed(img: Image, parts: seq<seq<Message>>, i: nat, r: nat, at: nat, change: seq<byte>)
    requires i < |parts| - 1 == |img.files| - 1 && r < |parts[i]|
    requires Represents(img, parts) && Burst(parts[i][r], at, change)
    ensures Boundary(parts[i][..r]) + at + |change| <= |img.files[i]| && SupportedSize(img.segmentSize)
    ensures var recovered := Recover(Listing(img.files[i := Damaged(img, parts, i, r, at, change)]), img.segmentSize);
            recovered == Err(CorruptTailInSealed) || recovered == Err(CorruptRecordInSealed)
  {
    hide Tiled, Holds, Flatten, EncodeRecord, Representable, Burst, Overwrite, ScanBody, Recover, DamagedAfter, Damaged;
    var m, kept := parts[i][r], parts[i][..r];
    BurstWindow(m, at, change);
    DamagedLayout(img, parts, i, r, at, change);
    var d := Damaged(img, parts, i, r, at, change);
    BurstStopsScan(m, at, change, img.files[i][Boundary(kept) + RecordSize(m)..]);
    RecoverSealed(img, parts, i, d, kept, ScanBody(d[Boundary(kept)..], m.offset));
  }

  // ---- In a segment header ---------------------------------------------------------

  /** One to four bytes of a segment header: among the words, or from the stored checksum on. */
  predicate HeaderWindow(at: nat, change: seq<byte>) {
    |change| <= 4 && (at + |change| <= 32 || 32 <= at) && at + |change| <= SEGMENT_HEADER_SIZE
  }

  /** A header so changed passes the test exactly when only reserved bytes differ. */
  lemma HeaderBurst(header: seq<byte>, id: nat, segmentSize: nat, at: nat, change: seq<byte>)
    requires |header| == SEGMENT_HEADER_SIZE && HeaderOk(header, id, segmentSize) && HeaderWindow(at, change)
    ensures var d := Overwrite(header, at, change);
            HeaderOk(d, id, segmentSize) <==> d[..36] == header[..36]
  {
    hide GetLE, Checksum;
    var d := Overwrite(header, at, change);
    HeaderSlices(header, d);
    if at + |change| <= 32 {
      assert d[..32] == Overwrite(header[..32], at, change) && d[32..36] == header[32..36];
      if change != header[..32][at..at + |change|] {
        CoveredBurst(header[..32], at, change);
      } else {
        WindowSplit(header, at, change);
        assert header[at..at + |change|] == header[..32][at..at + |change|];
      }
    } else {
      assert d[..32] == header[..32];
      if d[32..36] != header[32..36] { FieldDiffers(d[32..36], header[32..36]); }
    }
  }

  lemma HeaderSlices(a: seq<byte>, b: seq<byte>)
    requires |a| == |b| == SEGMENT_HEADER_SIZE
    ensures a[..36] == b[..36] <==> a[..32] == b[..32] && a[32..36] == b[32..36]
    ensures a[..32] == b[..32] ==>
              a[..8] == b[..8] && a[8..12] == b[8..12] && a[12..16] == b[12..16] && a[24..32] == b[24..32]
  {
    assert a[..36] == a[..32] + a[32..36] && b[..36] == b[..32] + b[32..36];
    assert a[..36][..32] == a[..32] && b[..36][..32] == b[..32];
    assert a[..8] == a[..32][..8] && a[8..12] == a[..32][8..12] && a[12..16] == a[..32][12..16];
    assert b[..8] == b[..32][..8] && b[8..12] == b[..32][8..12] && b[12..16] == b[..32][12..16];
    assert a[24..32] == a[..32][24..32] && b[24..32] == b[..32][24..32];
  }

  /** The header of any segment damaged in its first 36 bytes: recovery refuses to open. */
  lemma CorruptionInHeader(img: Image, parts: seq<seq<Message>>, i: nat, at: nat, change: seq<byte>)
    requires i < |parts| == |img.files| && HeaderWindow(at, change)
    requires SEGMENT_HEADER_SIZE <= |img.files[i]|
    requires Overwrite(img.files[i], at, change)[..36] != img.files[i][..36]
    requires Represents(img, parts)
    ensures Recover(Listing(img.files[i := Overwrite(img.files[i], at, change)]), img.segmentSize) == Err(HeaderInvalid)
  {
    hide Tiled, Flatten, Size, ListingFrom, ScanFrom, ScanSegment, Overwrite, HeaderOk;
    var file, damaged := img.files[i], Overwrite(img.files[i], at, change);
    TiledLengths(img.files, img.index, parts, 1, 0, img.segmentSize);
    TiledAt(img.files, img.index, parts, i, img.segmentSize);
    HeaderFails(file, 1 + i, Size(Flatten(parts[..i])), parts[i], img.segmentSize, at, change, i + 1 == |parts|);
    ScanReaches(img, parts, i, damaged);
    ScanFromErr(ListingFrom([damaged] + img.files[i + 1..], 1 + i), 1 + i, Size(Flatten(parts[..i])),
                img.segmentSize, HeaderInvalid);
  }

  lemma HeaderFails(file: seq<byte>, id: nat, base: nat, messages: seq<Message>, segmentSize: nat,
                    at: nat, change: seq<byte>, isLatest: bool)
    requires SEGMENT_HEADER_SIZE <= |file| && HeaderWindow(at, change)
    requires Overwrite(file, at, change)[..36] != file[..36]
    requires Holds(file, id, base, messages, segmentSize)
    ensures ScanSegment(Overwrite(file, at, change), id, isLatest, base, segmentSize) == Err(HeaderInvalid)
  {
    hide HeaderOk, BaseOffset, Chained, EncodeAll, Size, AllZero, ScanBody;
    var header, damaged := file[..SEGMENT_HEADER_SIZE], Overwrite(file, at, change);
    assert damaged[..SEGMENT_HEADER_SIZE] == Overwrite(header, at, change);
    assert damaged[..36] == damaged[..SEGMENT_HEADER_SIZE][..36] && file[..36] == header[..36];
    HeaderBurst(header, id, segmentSize, at, change);
  }
}
