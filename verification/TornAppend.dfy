/** A crash inside `append`. The append is its byte stores in order, payload
    first and header last; a crash keeps a prefix of them. */
module TornAppend {
  import opened Sequences
  import opened Options
  import opened Bytes
  import opened RecordFormat
  import opened SegmentScan
  import opened LogModel
  import opened LogDamage

  // ---- The stores of one append ------------------------------------------------

  /** `memcpy`, low address first. */
  function CopyStores(at: nat, bytes: seq<byte>): (s: seq<Store>)
    ensures |s| == |bytes|
  {
    seq(|bytes|, i requires 0 <= i < |bytes| => Store(at + i, bytes[i]))
  }

  function AppendStores(position: nat, m: Message): (s: seq<Store>)
    ensures |s| == RecordSize(m)
  {
    CopyStores(position + RECORD_HEADER_SIZE, m.payload) + CopyStores(position, EncodeHeader(m))
  }

  /** The file after the first `k` stores of the append. */
  function TornFile(file: seq<byte>, position: nat, m: Message, k: nat): (torn: seq<byte>)
    requires k <= RecordSize(m)
    ensures |torn| == |file|
  {
    ApplyStores(file, AppendStores(position, m)[..k])
  }

  lemma {:induction false} ApplyConcat(memory: seq<byte>, a: seq<Store>, b: seq<Store>)
    ensures ApplyStores(memory, a + b) == ApplyStores(ApplyStores(memory, a), b)
    decreases |b|
  {
    if b == [] {
      assert a + b == a;
    } else {
      var n := |b| - 1;
      ApplyConcat(memory, a, b[..n]);
      assert (a + b)[..|a + b| - 1] == a + b[..n];
    }
  }

  lemma {:induction false} CopyPrefix(memory: seq<byte>, at: nat, bytes: seq<byte>, k: nat)
    requires at + |bytes| <= |memory| && k <= |bytes|
    ensures ApplyStores(memory, CopyStores(at, bytes)[..k]) == Overwrite(memory, at, bytes[..k])
    decreases k
  {
    if k == 0 {
      assert CopyStores(at, bytes)[..0] == [];
      assert Overwrite(memory, at, bytes[..0]) == memory;
    } else {
      CopyPrefix(memory, at, bytes, k - 1);
      var stores := CopyStores(at, bytes)[..k];
      assert stores[..k - 1] == CopyStores(at, bytes)[..k - 1];
      assert stores[k - 1] == Store(at + (k - 1), bytes[k - 1]);
      OverwriteNext(memory, at, bytes, k);
    }
  }

  lemma OverwriteNext(memory: seq<byte>, at: nat, bytes: seq<byte>, k: nat)
    requires at + |bytes| <= |memory| && 0 < k <= |bytes|
    ensures Overwrite(memory, at, bytes[..k - 1])[at + (k - 1) := bytes[k - 1]] == Overwrite(memory, at, bytes[..k])
  {}

  /** The torn file when the header copy has not begun. */
  lemma TornPayload(file: seq<byte>, position: nat, m: Message, k: nat)
    requires position + RecordSize(m) <= |file| && k <= |m.payload|
    ensures TornFile(file, position, m, k) == Overwrite(file, position + RECORD_HEADER_SIZE, m.payload[..k])
  {
    hide EncodeHeader, ApplyStores, Overwrite;
    var copy := CopyStores(position + RECORD_HEADER_SIZE, m.payload);
    assert AppendStores(position, m)[..k] == copy[..k];
    CopyPrefix(file, position + RECORD_HEADER_SIZE, m.payload, k);
  }

  /** The torn file after `j` header bytes. */
  lemma TornHeader(file: seq<byte>, position: nat, m: Message, j: nat)
    requires position + RecordSize(m) <= |file| && j <= RECORD_HEADER_SIZE
    ensures TornFile(file, position, m, |m.payload| + j)
            == Overwrite(Overwrite(file, position + RECORD_HEADER_SIZE, m.payload), position, EncodeHeader(m)[..j])
  {
    hide EncodeHeader, ApplyStores, Overwrite;
    var copy := CopyStores(position + RECORD_HEADER_SIZE, m.payload);
    var head := CopyStores(position, EncodeHeader(m));
    assert AppendStores(position, m)[..|m.payload| + j] == copy + head[..j];
    ApplyConcat(file, copy, head[..j]);
    assert copy == copy[..|m.payload|] && m.payload == m.payload[..|m.payload|];
    CopyPrefix(file, position + RECORD_HEADER_SIZE, m.payload, |m.payload|);
    CopyPrefix(Overwrite(file, position + RECORD_HEADER_SIZE, m.payload), position, EncodeHeader(m), j);
  }

  // ---- What the scan sees at the write position ----------------------------------

  function PartialHeader(m: Message, j: nat): (h: seq<byte>)
    requires j <= RECORD_HEADER_SIZE
    ensures |h| == RECORD_HEADER_SIZE
  {
    EncodeHeader(m)[..j] + Zeros(RECORD_HEADER_SIZE - j)
  }

  /** The bytes from the write position on, when the file was zero there. */
  lemma TornRest(file: seq<byte>, position: nat, m: Message, j: nat)
    requires position + RecordSize(m) <= |file| && j <= RECORD_HEADER_SIZE && AllZero(file[position..])
    ensures var t := TornFile(file, position, m, |m.payload| + j);
            && t[..position] == file[..position]
            && t[position..] == PartialHeader(m, j) + m.payload + Zeros(|file| - position - RecordSize(m))
  {
    hide EncodeHeader, ApplyStores;
    TornHeader(file, position, m, j);
    var zeros := file[position..];
    var mid := Overwrite(file, position + RECORD_HEADER_SIZE, m.payload);
    assert mid[..position] == file[..position];
    assert mid[position..] == Zeros(RECORD_HEADER_SIZE) + m.payload + Zeros(|file| - position - RecordSize(m)) by {
      assert forall i :: 0 <= i < |zeros| ==> file[position + i] == zeros[i];
    }
    var t := TornFile(file, position, m, |m.payload| + j);
    assert t[position..] == EncodeHeader(m)[..j] + mid[position + j..];
    assert mid[position + j..] == mid[position..][j..];
    assert mid[position..][j..]
      == Zeros(RECORD_HEADER_SIZE - j) + (m.payload + Zeros(|file| - position - RecordSize(m)));
    Assoc(EncodeHeader(m)[..j], Zeros(RECORD_HEADER_SIZE - j), m.payload + Zeros(|file| - position - RecordSize(m)));
    Assoc(PartialHeader(m, j), m.payload, Zeros(|file| - position - RecordSize(m)));
  }

  lemma FirstByte(m: Message, j: nat, rest: seq<byte>)
    requires 0 < j <= RECORD_HEADER_SIZE && PartialHeader(m, j) <= rest
    ensures GetLE(rest[..4]) != 0
  {
    hide RecordCrc, GetLE;
    GetZero(rest[..4]);
    assert rest[..4][0] == PartialHeader(m, j)[0] == EncodeHeader(m)[0] == PutLE(RECORD_MAGIC, 4)[0];
  }

  /** A header cut after `j < 28` bytes that is not the whole header, yet whose
      own fields continue the log and whose own checksum is the zero left in the
      checksum field. */
  predicate PartialHeaderPasses(m: Message, j: nat) {
    j < CRC_COVERAGE &&
    var fields := PartialHeader(m, j)[..CRC_COVERAGE];
    var length := GetLE(fields[24..28]);
    && fields != EncodeHeader(m)[..CRC_COVERAGE]
    && GetLE(fields[..4]) == RECORD_MAGIC
    && GetLE(fields[4..8]) == RECORD_HEADER_SIZE
    && GetLE(fields[8..16]) == m.offset
    && length <= |m.payload|
    && RecordCrc(fields, m.payload[..length]) == 0
  }

  lemma {:induction false} ZeroedTailIsSmaller(a: seq<byte>, b: seq<byte>)
    ensures GetLE(a + Zeros(|b|)) <= GetLE(a + b)
    decreases |a|
  {
    if a == [] {
      assert a + Zeros(|b|) == Zeros(|b|) && a + b == b;
      GetZero(Zeros(|b|));
    } else {
      ZeroedTailIsSmaller(a[1..], b);
      assert (a + Zeros(|b|))[1..] == a[1..] + Zeros(|b|) && (a + b)[1..] == a[1..] + b;
    }
  }

  /** The length field of a cut header never exceeds the payload's length. */
  lemma PartialLength(m: Message, j: nat)
    requires j <= RECORD_HEADER_SIZE && Representable(m)
    ensures GetLE(PartialHeader(m, j)[24..28]) <= |m.payload|
  {
    hide GetLE, EncodeHeader, Representable, RecordCrc, HeaderFields, Zeros;
    HeaderValues(m);
    var whole := EncodeHeader(m)[24..28];
    var c := if j <= 24 then 0 else if j <= 28 then j - 24 else 4;
    Cut(whole, c);
    CutField(EncodeHeader(m), j, c);
    ZeroedTailIsSmaller(whole[..c], whole[c..]);
  }

  lemma CutField(h: seq<byte>, j: nat, c: nat)
    requires |h| == 32 && j <= 32 && c == if j <= 24 then 0 else if j <= 28 then j - 24 else 4
    ensures (h[..j] + Zeros(32 - j))[24..28] == h[24..28][..c] + Zeros(4 - c)
  {
    if j <= 24 {
      assert (h[..j] + Zeros(32 - j))[24..28] == Zeros(4);
    } else if j >= 28 {
      assert (h[..j] + Zeros(32 - j))[24..28] == h[24..28];
    } else {
      assert (h[..j] + Zeros(32 - j))[24..28] == h[24..j] + Zeros(28 - j);
      assert h[24..28][..c] == h[24..j];
    }
  }

  // ---- Decoding a cut header -----------------------------------------------------

  lemma SliceFields(h: seq<byte>, rest: seq<byte>)
    requires |h| == 32 && h <= rest
    ensures rest[..4] == h[..28][..4] && rest[4..8] == h[..28][4..8] && rest[8..16] == h[..28][8..16]
    ensures rest[24..28] == h[..28][24..28] && rest[..28] == h[..28] && rest[28..32] == h[28..32]
  {}

  /** A cut header that is not the whole one decodes exactly when it passes its
      own check, and then to a different message. */
  lemma CutHeaderDecodes(m: Message, j: nat, pad: seq<byte>)
    requires Representable(m) && j <= RECORD_HEADER_SIZE && PartialHeader(m, j) != EncodeHeader(m)
    ensures var rest := PartialHeader(m, j) + m.payload + pad;
            && (DecodeRecord(rest, m.offset).Some? <==> PartialHeaderPasses(m, j))
            && DecodeRecord(rest, m.offset) != Some(m)
  {
    hide GetLE, EncodeHeader, RecordCrc, HeaderFields, Representable;
    var h := PartialHeader(m, j);
    var rest := h + m.payload + pad;
    assert h <= rest;
    SliceFields(h, rest);
    PartialLength(m, j);
    var length := GetLE(rest[24..28]);
    assert length <= |m.payload| && h[..28][24..28] == h[24..28];
    assert rest[32..32 + length] == m.payload[..length];
    assert m.payload[..|m.payload|] == m.payload;
    if j < CRC_COVERAGE {
      CutChecksumIsZero(m, j);
      HeaderValues(m);
      assert EncodeHeader(m)[..28][24..28] == EncodeHeader(m)[24..28];
      if DecodeRecord(rest, m.offset).Some? && h[..28] == EncodeHeader(m)[..28] {
        WholeAfterAll(m, j);
      }
    } else {
      CutInChecksum(m, j);
    }
    if DecodeRecord(rest, m.offset) == Some(m) {
      EncodeDecode(rest, m.offset);
      OneHeader(m, h, rest);
    }
  }

  lemma OneHeader(m: Message, h: seq<byte>, rest: seq<byte>)
    requires |h| == RECORD_HEADER_SIZE && h <= rest && EncodeRecord(m) <= rest
    ensures h == EncodeHeader(m)
  {
    hide EncodeHeader;
    assert h == rest[..32] && EncodeHeader(m) == EncodeRecord(m)[..32];
  }

  lemma CutChecksumIsZero(m: Message, j: nat)
    requires j < CRC_COVERAGE
    ensures GetLE(PartialHeader(m, j)[28..32]) == 0
  {
    GetZero(PartialHeader(m, j)[28..32]);
  }

  /** Cut inside the checksum field: the stored checksum is wrong. */
  lemma CutInChecksum(m: Message, j: nat)
    requires Representable(m) && CRC_COVERAGE <= j <= RECORD_HEADER_SIZE && PartialHeader(m, j) != EncodeHeader(m)
    ensures var h := PartialHeader(m, j);
            && h[..28] == EncodeHeader(m)[..28]
            && GetLE(h[24..28]) == |m.payload|
            && GetLE(h[28..32]) != RecordCrc(h[..28], m.payload)
  {
    hide GetLE, EncodeHeader, RecordCrc, HeaderFields, PutLE, Representable;
    var h, w := PartialHeader(m, j), EncodeHeader(m);
    HeaderValues(m);
    assert h[..28] == w[..28];
    assert h[24..28] == h[..28][24..28] && w[24..28] == w[..28][24..28];
    assert h == h[..28] + h[28..32] && w == w[..28] + w[28..32];
    PutGet(h[28..32]);
    PutGet(w[28..32]);
  }

  /** Cut before the checksum with nothing missing: all that was cut was zero. */
  lemma WholeAfterAll(m: Message, j: nat)
    requires Representable(m) && j < CRC_COVERAGE
    requires PartialHeader(m, j)[..28] == EncodeHeader(m)[..28]
    requires RecordCrc(EncodeHeader(m)[..28], m.payload) == 0
    ensures PartialHeader(m, j) == EncodeHeader(m)
  {
    hide GetLE, EncodeHeader, RecordCrc, HeaderFields, PutLE, Representable;
    var h, w := PartialHeader(m, j), EncodeHeader(m);
    HeaderValues(m);
    GetZero(w[28..32]);
    assert h[28..32] == w[28..32];
    assert h == h[..28] + h[28..32] && w == w[..28] + w[28..32];
  }

  // ---- Recovery after the crash ------------------------------------------------------

  /** The message fits where `append` is about to store it. */
  ghost predicate Fits(img: Image, parts: seq<seq<Message>>, m: Message) {
    && Represents(img, parts) && Representable(m) && m.offset == img.next
    && img.writePosition + RecordSize(m) <= img.segmentSize && img.next + RecordSize(m) < U64_LIMIT
  }

  /** What the next open finds when the crash keeps the first `k` stores. */
  function AfterCrash(img: Image, m: Message, k: nat): Result<Image>
    requires Shaped(img) && k <= RecordSize(m)
  {
    var n := |img.files| - 1;
    Recover(Listing(img.files[n := TornFile(img.files[n], img.writePosition, m, k)]), img.segmentSize)
  }

  /** The newest file of an image: zeros from the write position on. */
  lemma NewestFile(img: Image, parts: seq<seq<Message>>, n: nat)
    requires Represents(img, parts) && n == |parts| - 1
    ensures |img.files| == |parts| && |img.files[n]| == img.segmentSize
    ensures img.writePosition == Boundary(parts[n]) <= img.segmentSize
    ensures AllZero(img.files[n][img.writePosition..])
    ensures img.next == Size(Flatten(parts[..n])) + Size(parts[n])
  {
    hide Tiled, Flatten, Size, HeaderOk, BaseOffset, Chained, EncodeAll, AllZero;
    TiledLengths(img.files, img.index, parts, 1, 0, img.segmentSize);
    TiledAt(img.files, img.index, parts, n, img.segmentSize);
    FlattenSplit(parts, n, parts[n]);
    SizeConcat(Flatten(parts[..n]), parts[n]);
  }

  /** If the bytes after the write position read as no record at all, recovery
      rebuilds exactly the old image. */
  lemma DiscardTail(img: Image, parts: seq<seq<Message>>, n: nat, damaged: seq<byte>)
    requires n == |parts| - 1 == |img.files| - 1 && |img.files[n]| == |damaged| == img.segmentSize
    requires img.writePosition <= img.segmentSize && SupportedSize(img.segmentSize)
    requires damaged[..img.writePosition] == img.files[n][..img.writePosition]
    requires ScanBody(damaged[img.writePosition..], img.next).messages == []
    requires ScanBody(damaged[img.writePosition..], img.next).verdict != OffsetOverflow
    requires Represents(img, parts)
    ensures Recover(Listing(img.files[n := damaged]), img.segmentSize) == Ok(img)
  {
    hide Tiled, Holds, Flatten, ListingFrom, ScanFrom, ScanBody, AllZero, Zeros, Recover, Size;
    NewestFile(img, parts, n);
    var wp := img.writePosition;
    var t := ScanBody(damaged[wp..], img.next);
    RecoverLatest(img, parts, n, damaged, parts[n], t);
    var r := Recover(Listing(img.files[n := damaged]), img.segmentSize).value;
    ScanSound(damaged[wp..], img.next);
    SizeNil();
    assert damaged[wp..][0..] == damaged[wp..];
    if t.verdict == Clean {
      SameByZeros(damaged, img.files[n], wp);
    } else {
      StretchBack(img.files[n], wp);
      assert damaged[..wp + 0] == damaged[..wp];
    }
    assert Extended(img.files[n], img.segmentSize) == img.files[n] by { StretchNone(img.files[n]); }
    SetSame(img.files, n);
    assert parts[n] + [] == parts[n];
    SetSame(parts, n);
    SameImage(r, img, parts);
  }

  lemma SameByZeros(a: seq<byte>, b: seq<byte>, at: nat)
    requires |a| == |b| && at <= |a| && a[..at] == b[..at] && AllZero(a[at..]) && AllZero(b[at..])
    ensures a == b
  {
    assert a[at..] == b[at..];
    Cut(a, at);
    Cut(b, at);
  }

  lemma StretchBack(file: seq<byte>, at: nat)
    requires at <= |file| && AllZero(file[at..])
    ensures Extended(file[..at], |file|) == file
  {
    Cut(file, at);
    assert file[at..] == Zeros(|file| - at);
  }

  lemma StretchNone(file: seq<byte>)
    ensures Extended(file, |file|) == file
  {}

  /** Crash before the header copy begins: the old log, with no assumption on
      checksums. */
  lemma CrashInPayload(img: Image, parts: seq<seq<Message>>, m: Message, k: nat)
    requires Fits(img, parts, m) && k <= |m.payload|
    ensures AfterCrash(img, m, k) == Ok(img)
  {
    hide Tiled, Holds, Flatten, ListingFrom, ScanFrom, AllZero, Recover, TornFile, Overwrite, Size;
    var n, wp := |parts| - 1, img.writePosition;
    NewestFile(img, parts, n);
    var torn := TornFile(img.files[n], wp, m, k);
    TornPayload(img.files[n], wp, m, k);
    PayloadBytes(img.files[n], wp, m.payload[..k]);
    HeaderStillZero(torn[wp..], img.next);
    DiscardTail(img, parts, n, torn);
  }

  lemma PayloadBytes(file: seq<byte>, at: nat, bytes: seq<byte>)
    requires at + RECORD_HEADER_SIZE + |bytes| <= |file| && AllZero(file[at..])
    ensures var t := Overwrite(file, at + RECORD_HEADER_SIZE, bytes);
            t[..at] == file[..at] && AllZero(t[at..][..4])
  {
    var t := Overwrite(file, at + RECORD_HEADER_SIZE, bytes);
    assert t[at..][..4] == file[at..][..4];
  }

  lemma HeaderStillZero(rest: seq<byte>, offset: nat)
    requires |rest| >= RECORD_HEADER_SIZE && AllZero(rest[..4])
    ensures ScanBody(rest, offset).messages == [] && ScanBody(rest, offset).verdict != OffsetOverflow
  {
    GetZero(rest[..4]);
  }

  /** All stores done: the new log. */
  lemma CrashAfterHeader(img: Image, parts: seq<seq<Message>>, m: Message, j: nat)
    requires Fits(img, parts, m) && j <= RECORD_HEADER_SIZE && PartialHeader(m, j) == EncodeHeader(m)
    ensures AfterCrash(img, m, |m.payload| + j) == Ok(StoreRecord(img, m))
  {
    hide Tiled, Holds, Flatten, ListingFrom, ScanFrom, AllZero, Recover, TornFile, Overwrite, Size, EncodeHeader, Zeros;
    var n, wp := |parts| - 1, img.writePosition;
    NewestFile(img, parts, n);
    var torn := TornFile(img.files[n], wp, m, |m.payload| + j);
    TornRest(img.files[n], wp, m, j);
    WholeRecord(img.files[n], torn, wp, EncodeRecord(m));
    StoreRepresents(img, parts, m);
    ReopenRestores(StoreRecord(img, m), parts[n := parts[n] + [m]]);
  }

  lemma WholeRecord(file: seq<byte>, torn: seq<byte>, at: nat, record: seq<byte>)
    requires at + |record| <= |file| && AllZero(file[at..])
    requires |torn| == |file| && torn[..at] == file[..at] && torn[at..] == record + Zeros(|file| - at - |record|)
    ensures torn == Overwrite(file, at, record)
  {
    Cut(torn, at);
    assert file[at + |record|..] == file[at..][|record|..];
    assert file[at + |record|..] == Zeros(|file| - at - |record|);
  }

  /** A cut header that fails its own check is truncated away: the old log. */
  lemma CrashInHeader(img: Image, parts: seq<seq<Message>>, m: Message, j: nat)
    requires Fits(img, parts, m) && 0 < j <= RECORD_HEADER_SIZE
    requires PartialHeader(m, j) != EncodeHeader(m) && !PartialHeaderPasses(m, j)
    ensures AfterCrash(img, m, |m.payload| + j) == Ok(img)
  {
    hide Tiled, Holds, Flatten, ListingFrom, ScanFrom, AllZero, Recover, TornFile, Size, EncodeHeader, Zeros,
         PartialHeaderPasses, PartialHeader, DecodeRecord, GetLE;
    var n, wp := |parts| - 1, img.writePosition;
    NewestFile(img, parts, n);
    TornRest(img.files[n], wp, m, j);
    var torn := TornFile(img.files[n], wp, m, |m.payload| + j);
    CutHeaderDecodes(m, j, Zeros(img.segmentSize - wp - RecordSize(m)));
    FirstByte(m, j, torn[wp..]);
    DiscardTail(img, parts, n, torn);
  }

  /** A cut header that passes its own check is taken for a record that was never
      appended: neither the old log nor the new one. */
  lemma CrashAccident(img: Image, parts: seq<seq<Message>>, m: Message, j: nat)
    requires Fits(img, parts, m) && 0 < j <= RECORD_HEADER_SIZE
    requires PartialHeader(m, j) != EncodeHeader(m) && PartialHeaderPasses(m, j)
    ensures AfterCrash(img, m, |m.payload| + j) != Ok(img)
    ensures AfterCrash(img, m, |m.payload| + j) != Ok(StoreRecord(img, m))
  {
    hide Tiled, Holds, Flatten, ListingFrom, ScanFrom, AllZero, Recover, TornFile, Size, EncodeHeader, Zeros,
         PartialHeaderPasses, PartialHeader, DecodeRecord, GetLE, Overwrite;
    var n, wp := |parts| - 1, img.writePosition;
    NewestFile(img, parts, n);
    TornRest(img.files[n], wp, m, j);
    var torn := TornFile(img.files[n], wp, m, |m.payload| + j);
    CutHeaderDecodes(m, j, Zeros(img.segmentSize - wp - RecordSize(m)));
    FirstByte(m, j, torn[wp..]);
    var t := ScanBody(torn[wp..], img.next);
    RecoverLatest(img, parts, n, torn, parts[n], t);
    FlattenSplit(parts, n, parts[n] + t.messages);
    Assoc(Flatten(parts[..n]), parts[n], t.messages);
    assert t.verdict != OffsetOverflow ==> t.messages != [] && t.messages[0] != m;
    Distinguish(img.history, t.messages, m);
  }

  lemma Distinguish(history: seq<Message>, found: seq<Message>, m: Message)
    ensures found != [] ==> history + found != history
    ensures found != [] && found[0] != m ==> history + found != history + [m]
  {
    if found != [] {
      assert |history + found| > |history|;
      assert (history + found)[|history|] == found[0];
      assert (history + [m])[|history|] == m;
    }
  }

  /** Torn append: whatever prefix of the stores a crash keeps, recovery yields
      exactly the old log or exactly the new one, if and only if no cut header
      passes its own check. */
  lemma TornAppendIsAtomic(img: Image, parts: seq<seq<Message>>, m: Message, k: nat)
    requires Fits(img, parts, m) && k <= RecordSize(m)
    ensures k <= |m.payload| ==> AfterCrash(img, m, k) == Ok(img)
    ensures k >= |m.payload| + CRC_COVERAGE ==>
              AfterCrash(img, m, k) == Ok(img) || AfterCrash(img, m, k) == Ok(StoreRecord(img, m))
    ensures k == RecordSize(m) ==> AfterCrash(img, m, k) == Ok(StoreRecord(img, m))
    ensures k > |m.payload| ==>
              ((AfterCrash(img, m, k) == Ok(img) || AfterCrash(img, m, k) == Ok(StoreRecord(img, m)))
               <==> !PartialHeaderPasses(m, k - |m.payload|))
  {
    hide Represents, AfterCrash, StoreRecord, PartialHeaderPasses, PartialHeader, EncodeHeader;
    if k <= |m.payload| {
      CrashInPayload(img, parts, m, k);
    } else {
      var j := k - |m.payload|;
      LateCut(m, j);
      if PartialHeader(m, j) == EncodeHeader(m) {
        CrashAfterHeader(img, parts, m, j);
      } else if PartialHeaderPasses(m, j) {
        CrashAccident(img, parts, m, j);
      } else {
        CrashInHeader(img, parts, m, j);
      }
    }
  }

  lemma LateCut(m: Message, j: nat)
    requires j <= RECORD_HEADER_SIZE
    ensures j >= CRC_COVERAGE ==> !PartialHeaderPasses(m, j)
    ensures PartialHeader(m, j) == EncodeHeader(m) ==> !PartialHeaderPasses(m, j)
    ensures j == RECORD_HEADER_SIZE ==> PartialHeader(m, j) == EncodeHeader(m)
  {}
}
