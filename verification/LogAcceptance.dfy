/** When an append is accepted and which directories are refused, said of sizes, bytes and
    positions alone. */
module LogAcceptance {
  import opened Sequences
  import opened Bytes
  import opened Crc32
  import opened RecordFormat
  import opened SegmentScan
  import opened LogModel
  import opened LogDamage
  import opened LogRuns

  // ---- Appends --------------------------------------------------------------------------

  /** The record does not fit into what is left of the newest segment. */
  predicate NeedsNewSegment(img: Image, payload: seq<byte>) { img.writePosition + 32 + |payload| > img.segmentSize }

  /** An append is refused if and only if the payload's length does not fit 32 bits, the record does
      not fit an empty segment, the offset space is used up, or it needs a segment after the last of
      99999999; each has its error. */
  lemma AppendRefusedExactly(img: Image, parts: seq<seq<Message>>, payload: seq<byte>, timestampNs: nat)
    requires Represents(img, parts)
    ensures Append(img, payload, timestampNs) == Err(PayloadTooLong) <==> |payload| >= 0x1_0000_0000
    ensures Append(img, payload, timestampNs) == Err(RecordTooLarge)
            <==> |payload| < 0x1_0000_0000 && 72 + |payload| > img.segmentSize
    ensures Append(img, payload, timestampNs) == Err(OffsetSpaceExhausted)
            <==> && |payload| < 0x1_0000_0000 && 72 + |payload| <= img.segmentSize
                 && img.next + 32 + |payload| >= 0x1_0000_0000_0000_0000
    ensures Append(img, payload, timestampNs).Err?
            <==> || |payload| >= 0x1_0000_0000 || 72 + |payload| > img.segmentSize
                 || img.next + 32 + |payload| >= 0x1_0000_0000_0000_0000
                 || (|img.files| == 99999999 && NeedsNewSegment(img, payload))
  {
    hide Tiled, Flatten, Size, StoreRecord, RollOver;
    TiledLengths(img.files, img.index, parts, 1, 0, img.segmentSize);
  }

  /** An accepted append adds a segment if and only if the record does not fit the newest one; the
      older files are as they were, and the record is at the end of the newest. */
  lemma AppendRollsExactly(img: Image, parts: seq<seq<Message>>, payload: seq<byte>, timestampNs: nat)
    requires Represents(img, parts) && Append(img, payload, timestampNs).Ok?
    ensures var r := Append(img, payload, timestampNs).value;
            && |r.files| == |img.files| + (if NeedsNewSegment(img, payload) then 1 else 0)
            && r.files[..|r.files| - 1] == img.files[..|r.files| - 1]
            && r.writePosition == (if NeedsNewSegment(img, payload) then 40 else img.writePosition) + 32 + |payload|
  {
    hide Tiled, Flatten, Size, FreshFile, Overwrite, EncodeRecord;
    TiledLengths(img.files, img.index, parts, 1, 0, img.segmentSize);
    var ready := Admit(img, payload).value;
    assert ready.files[..|ready.files| - 1] == img.files[..|ready.files| - 1];
  }

  /** The total size of the records of these payloads. */
  function TotalSize(puts: seq<(seq<byte>, nat)>): nat {
    if puts == [] then 0 else 32 + |puts[0].0| + TotalSize(puts[1..])
  }

  /** A log with segments and offsets to spare accepts every list of payloads that fit a segment. */
  lemma {:induction false} Accepts(img: Image, parts: seq<seq<Message>>, puts: seq<(seq<byte>, nat)>) returns (r: Image)
    requires Represents(img, parts) && |img.files| + |puts| <= 99999999
    requires img.next + TotalSize(puts) < 0x1_0000_0000_0000_0000
    requires forall i :: 0 <= i < |puts| ==>
               |puts[i].0| < 0x1_0000_0000 && 72 + |puts[i].0| <= img.segmentSize && puts[i].1 < 0x1_0000_0000_0000_0000
    ensures AllAccepted(img, puts, r)
    decreases |puts|
  {
    hide Represents, Append;
    r := img;
    if puts != [] {
      var (payload, time) := puts[0];
      RepresentsShaped(img, parts);
      AppendRefusedExactly(img, parts, payload, time);
      var next := Append(img, payload, time).value;
      AppendRollsExactly(img, parts, payload, time);
      var after := AppendRepresents(img, parts, payload, time);
      assert forall i :: 0 <= i < |puts[1..]| ==> puts[1..][i] == puts[i + 1];
      r := Accepts(next, after, puts[1..]);
    }
  }

  lemma RepresentsShaped(img: Image, parts: seq<seq<Message>>)
    requires Represents(img, parts)
    ensures Shaped(img)
  {
    hide Tiled, Flatten, Size;
  }

  /** A new log of any supported size accepts every list of fewer than 99999999 payloads that fit its
      segments, as long as the offset space holds them. */
  lemma NewLogAccepts(segmentSize: nat, puts: seq<(seq<byte>, nat)>) returns (r: Image)
    requires SupportedSize(segmentSize) && |puts| < 99999999 && TotalSize(puts) < 0x1_0000_0000_0000_0000
    requires forall i :: 0 <= i < |puts| ==>
               |puts[i].0| < 0x1_0000_0000 && 72 + |puts[i].0| <= segmentSize && puts[i].1 < 0x1_0000_0000_0000_0000
    ensures Recover([], segmentSize).Ok? && AllAccepted(Recover([], segmentSize).value, puts, r)
    ensures r.history == Stamped(puts, 0)
  {
    hide Represents, AllAccepted, Stamped, Append;
    CreatedRepresents(segmentSize);
    NewLog(segmentSize);
    r := Accepts(Recover([], segmentSize).value, [[]], puts);
    AcceptedRun(Recover([], segmentSize).value, [[]], puts, r);
    assert [] + Stamped(puts, 0) == Stamped(puts, 0);
  }

  lemma NewLog(segmentSize: nat)
    requires SupportedSize(segmentSize)
    ensures Recover([], segmentSize).Ok?
    ensures var img := Recover([], segmentSize).value;
            |img.files| == 1 && img.next == 0 && img.segmentSize == segmentSize && img.history == []
  {
    hide FreshFile;
  }

  /** The supported sizes are those whose empty segment holds a one-byte payload and that a file
      offset can express. */
  lemma SupportedExactly(segmentSize: nat)
    ensures SupportedSize(segmentSize) <==> 73 <= segmentSize < 0x8000_0000_0000_0000
  {}

  // ---- Segment headers ---------------------------------------------------------------------

  /** The header test of a segment, byte by byte: a file of at least 40 bytes passes if and only if it
      begins with "IOTLOG01", the words at 8, 12 and 24 are 1, the id and the segment size, and the
      word at 32 is the checksum of the first 32 bytes; otherwise it is refused as invalid. */
  lemma HeaderRefusedExactly(file: seq<byte>, id: nat, isLatest: bool, offset: nat, segmentSize: nat)
    requires |file| >= 40
    ensures ScanSegment(file, id, isLatest, offset, segmentSize) == Err(HeaderInvalid)
            <==> || file[..8] != [0x49, 0x4f, 0x54, 0x4c, 0x4f, 0x47, 0x30, 0x31]
                 || GetLE(file[8..12]) != 1 || GetLE(file[12..16]) != id || GetLE(file[24..32]) != segmentSize
                 || GetLE(file[32..36]) != Checksum(file[..32])
    ensures |file| <= segmentSize && ScanSegment(file, id, isLatest, offset, segmentSize).Ok? ==>
              GetLE(file[16..24]) == offset
  {
    hide GetLE, Checksum, ScanBody;
    var h := file[..40];
    assert h[..8] == file[..8] && h[..32] == file[..32];
    assert h[8..12] == file[8..12] && h[12..16] == file[12..16] && h[16..24] == file[16..24];
    assert h[24..32] == file[24..32] && h[32..36] == file[32..36];
  }

  /** A log is refused under every other segment size. */
  lemma OtherSizeRefused(img: Image, parts: seq<seq<Message>>, segmentSize: nat)
    requires Represents(img, parts) && SupportedSize(segmentSize) && segmentSize != img.segmentSize
    ensures Recover(Listing(img.files), segmentSize) == Err(HeaderInvalid)
  {
    hide Flatten, Size, ScanSegment, ScanFrom, Holds, Tiled, ListingFrom;
    TiledLengths(img.files, img.index, parts, 1, 0, img.segmentSize);
    TiledAt(img.files, img.index, parts, 0, img.segmentSize);
    assert parts[..0] == [];
    TiledNil(1, 0, img.segmentSize);
    HeldUnder(img.files[0], 1, 0, parts[0], img.segmentSize, 1, |img.files| == 1, segmentSize);
    ListingCons(img.files, 1);
    ScanFromErr(Listing(img.files), 1, 0, segmentSize, HeaderInvalid);
  }

  /** A held segment under another id or size. */
  lemma HeldUnder(file: seq<byte>, id: nat, base: nat, messages: seq<Message>, size: nat,
                  otherId: nat, isLatest: bool, otherSize: nat)
    requires Holds(file, id, base, messages, size) && (otherId != id || otherSize != size)
    ensures ScanSegment(file, otherId, isLatest, base, otherSize) == Err(HeaderInvalid)
  {
    hide GetLE, Checksum, ScanBody, Chained, EncodeAll, Size, AllZero;
  }

  // ---- Directories ----------------------------------------------------------------------------

  /** Segment `i` replaced by a file whose scan fails: recovery fails the same way. */
  lemma ReplacedRefused(img: Image, parts: seq<seq<Message>>, i: nat, file: seq<byte>, e: Error)
    requires Represents(img, parts) && i < |parts| == |img.files|
    requires ScanSegment(file, 1 + i, i + 1 == |parts|, Size(Flatten(parts[..i])), img.segmentSize) == Err(e)
    ensures Recover(Listing(img.files[i := file]), img.segmentSize) == Err(e)
  {
    hide Tiled, Flatten, Size, ListingFrom, ScanFrom, ScanSegment;
    TiledLengths(img.files, img.index, parts, 1, 0, img.segmentSize);
    ScanReaches(img, parts, i, file);
    ScanFromErr(ListingFrom([file] + img.files[i + 1..], 1 + i), 1 + i, Size(Flatten(parts[..i])), img.segmentSize, e);
  }

  /** A segment cut inside its header is refused. */
  lemma CutHeaderRefused(img: Image, parts: seq<seq<Message>>, i: nat, file: seq<byte>)
    requires Represents(img, parts) && i < |parts| == |img.files| && |file| < 40
    ensures Recover(Listing(img.files[i := file]), img.segmentSize) == Err(HeaderTruncated)
  {
    hide Represents, Recover, Size, Flatten;
    ReplacedRefused(img, parts, i, file, HeaderTruncated);
  }

  /** A segment in the place of another is refused. */
  lemma WrongSegmentRefused(img: Image, parts: seq<seq<Message>>, i: nat, j: nat)
    requires Represents(img, parts) && i < |parts| == |img.files| && j < |parts| && i != j
    ensures Recover(Listing(img.files[i := img.files[j]]), img.segmentSize) == Err(HeaderInvalid)
  {
    hide Tiled, Flatten, Size, ListingFrom, ScanFrom, ScanSegment, Holds, Recover;
    TiledLengths(img.files, img.index, parts, 1, 0, img.segmentSize);
    TiledAt(img.files, img.index, parts, j, img.segmentSize);
    HeldElsewhere(img.files[j], 1 + j, Size(Flatten(parts[..j])), parts[j], img.segmentSize, 1 + i,
                  Size(Flatten(parts[..i])), i + 1 == |parts|);
    ReplacedRefused(img, parts, i, img.files[j], HeaderInvalid);
  }

  lemma HeldElsewhere(file: seq<byte>, id: nat, base: nat, messages: seq<Message>, segmentSize: nat,
                      otherId: nat, offset: nat, isLatest: bool)
    requires Holds(file, id, base, messages, segmentSize) && otherId != id
    ensures ScanSegment(file, otherId, isLatest, offset, segmentSize) == Err(HeaderInvalid)
  {
    hide GetLE, Checksum, ScanBody, Chained, EncodeAll, Size, AllZero;
  }

  /** A segment longer than the segment size is refused. */
  lemma LongSegmentRefused(img: Image, parts: seq<seq<Message>>, i: nat, extra: seq<byte>)
    requires Represents(img, parts) && i < |parts| == |img.files| && |img.files[i] + extra| > img.segmentSize
    ensures Recover(Listing(img.files[i := img.files[i] + extra]), img.segmentSize) == Err(FileTooLarge)
  {
    hide Tiled, Flatten, Size, ListingFrom, ScanFrom, ScanSegment, Holds, Recover;
    TiledLengths(img.files, img.index, parts, 1, 0, img.segmentSize);
    TiledAt(img.files, img.index, parts, i, img.segmentSize);
    HeldLonger(img.files[i], 1 + i, Size(Flatten(parts[..i])), parts[i], img.segmentSize, extra, i + 1 == |parts|);
    ReplacedRefused(img, parts, i, img.files[i] + extra, FileTooLarge);
  }

  lemma HeldLonger(file: seq<byte>, id: nat, base: nat, messages: seq<Message>, segmentSize: nat, extra: seq<byte>,
                   isLatest: bool)
    requires Holds(file, id, base, messages, segmentSize) && |file + extra| > segmentSize
    ensures ScanSegment(file + extra, id, isLatest, base, segmentSize) == Err(FileTooLarge)
  {
    hide HeaderOk, BaseOffset, ScanBody, Chained, EncodeAll, Size, AllZero;
    assert (file + extra)[..SEGMENT_HEADER_SIZE] == file[..SEGMENT_HEADER_SIZE];
  }

  /** A missing segment before the newest is refused. */
  lemma MissingSegmentRefused(img: Image, parts: seq<seq<Message>>, i: nat)
    requires Represents(img, parts) && i < |parts| - 1 == |img.files| - 1
    ensures Recover(ListingFrom(img.files[..i], 1) + ListingFrom(img.files[i + 1..], 2 + i), img.segmentSize)
            == Err(SegmentGap)
  {
    hide Tiled, Flatten, Size, ListingFrom, ScanFrom, AddAll, Recover, Holds, InfoFor;
    TiledLengths(img.files, img.index, parts, 1, 0, img.segmentSize);
    TiledAt(img.files, img.index, parts, i, img.segmentSize);
    var rest := ListingFrom(img.files[i + 1..], 2 + i);
    ListingCons(img.files[i + 1..], 2 + i);
    ScanTiledThen(img.files[..i], img.index[..i], parts[..i], 1, 0, img.segmentSize, rest);
    GapErr(rest, 1 + i, Size(Flatten(parts[..i])), img.segmentSize);
    AddAllFails(img.files[..i], img.index[..i], Flatten(parts[..i]), SegmentGap);
    RecoverErr(ListingFrom(img.files[..i], 1) + rest, img.segmentSize, SegmentGap);
  }

  lemma AddAllFails(files: seq<seq<byte>>, index: seq<SegmentInfo>, history: seq<Message>, e: Error)
    ensures AddAll(files, index, history, Err(e)) == Err(e)
  {}

  /** Records lost from the end of a sealed segment, at a record boundary and without a trace, are
      noticed by the segment after it. */
  lemma LostRecordsRefused(img: Image, parts: seq<seq<Message>>, i: nat, kept: seq<Message>, file: seq<byte>)
    requires Represents(img, parts) && i < |parts| - 1 == |img.files| - 1 && kept < parts[i]
    requires Holds(file, 1 + i, Size(Flatten(parts[..i])), kept, img.segmentSize)
    ensures Recover(Listing(img.files[i := file]), img.segmentSize) == Err(BaseDiscontinuous)
  {
    hide Tiled, Flatten, Size, ListingFrom, ScanFrom, ScanSegment, Holds, AddAll, AddSegment;
    var size, base := img.segmentSize, Size(Flatten(parts[..i]));
    TiledLengths(img.files, img.index, parts, 1, 0, size);
    TiledAt(img.files, img.index, parts, i + 1, size);
    ScanReaches(img, parts, i, file);
    var tail := [file] + img.files[i + 1..];
    ListingCons(tail, 1 + i);
    assert tail[1..] == img.files[i + 1..];
    ListingCons(img.files[i + 1..], 2 + i);
    ScanHeld(file, 1 + i, false, base, kept, size);
    ScanFromCons(ListingFrom(tail, 1 + i), 1 + i, base, size, Segment(file, kept));
    NextBase(parts, i, kept);
    HeldAtOtherBase(img.files[i + 1], 2 + i, Size(Flatten(parts[..i + 1])), parts[i + 1], size, base + Size(kept),
                    i + 2 == |parts|);
    ScanFromErr(ListingFrom(img.files[i + 1..], 2 + i), 2 + i, base + Size(kept), size, BaseDiscontinuous);
    AddSegmentFails(1 + i, base, Segment(file, kept), BaseDiscontinuous);
    AddAllFails(img.files[..i], img.index[..i], Flatten(parts[..i]), BaseDiscontinuous);
  }

  lemma AddSegmentFails(id: nat, offset: nat, s: Segment, e: Error)
    ensures AddSegment(id, offset, s, Err(e)) == Err(e)
  {}

  /** The next segment begins after all the records of this one. */
  lemma NextBase(parts: seq<seq<Message>>, i: nat, kept: seq<Message>)
    requires i < |parts| && kept < parts[i]
    ensures Size(Flatten(parts[..i])) + Size(kept) < Size(Flatten(parts[..i + 1]))
  {
    hide Flatten;
    assert parts[..i + 1][..i] == parts[..i] && parts[..i + 1][i] == parts[i];
    FlattenSplit(parts[..i + 1], i, parts[i]);
    SizeConcat(Flatten(parts[..i]), parts[i]);
    var lost := parts[i][|kept|..];
    assert parts[i] == kept + lost;
    SizeConcat(kept, lost);
    assert Size(lost) >= RecordSize(lost[0]);
  }

  lemma HeldAtOtherBase(file: seq<byte>, id: nat, base: nat, messages: seq<Message>, segmentSize: nat, offset: nat,
                        isLatest: bool)
    requires Holds(file, id, base, messages, segmentSize) && offset != base
    ensures ScanSegment(file, id, isLatest, offset, segmentSize) == Err(BaseDiscontinuous)
  {
    hide HeaderOk, BaseOffset, ScanBody, Chained, EncodeAll, Size, AllZero;
  }

  // ---- Bad tails of sealed segments ------------------------------------------------------------

  /** A sealed segment whose records are followed by other than zeros is refused, and the error says
      what was found there: fewer bytes than a header, four zero bytes, or anything else. */
  lemma BadTailRefused(img: Image, parts: seq<seq<Message>>, i: nat, tail: seq<byte>)
    requires Represents(img, parts) && i < |parts| - 1 == |img.files| - 1 && !AllZero(tail)
    requires Boundary(parts[i]) + |tail| <= img.segmentSize && Boundary(parts[i]) <= |img.files[i]|
    requires |tail| >= 32 ==> DecodeRecord(tail, Size(Flatten(parts[..i])) + Size(parts[i])).None?
    ensures Recover(Listing(img.files[i := img.files[i][..Boundary(parts[i])] + tail]), img.segmentSize)
            == Err(if |tail| < 32 then TruncatedRecordInSealed
                   else if tail[0] == tail[1] == tail[2] == tail[3] == 0 then CorruptTailInSealed
                   else CorruptRecordInSealed)
  {
    hide Tiled, Flatten, Size, ListingFrom, ScanFrom, ScanSegment, DecodeRecord, AllZero, Recover;
    var file, at := img.files[i], Boundary(parts[i]);
    var damaged := file[..at] + tail;
    assert damaged[..at] == file[..at] && damaged[at..] == tail;
    var offset := Size(Flatten(parts[..i])) + Size(parts[i]);
    TailVerdict(tail, offset);
    RecoverSealed(img, parts, i, damaged, parts[i], ScanBody(tail, offset));
  }

  lemma TailVerdict(tail: seq<byte>, offset: nat)
    requires !AllZero(tail) && (|tail| >= 32 ==> DecodeRecord(tail, offset).None?)
    ensures ScanBody(tail, offset)
            == Scan([], if |tail| < 32 then TruncatedRecord
                        else if tail[0] == tail[1] == tail[2] == tail[3] == 0 then CorruptTail else CorruptRecord)
  {
    hide DecodeRecord, GetLE;
    if |tail| >= 32 {
      GetZero(tail[..4]);
      FirstFour(tail);
    }
  }

  lemma FirstFour(s: seq<byte>)
    requires |s| >= 4
    ensures AllZero(s[..4]) <==> s[0] == s[1] == s[2] == s[3] == 0
  {
    var f := s[..4];
    assert f[0] == s[0] && f[1] == s[1] && f[2] == s[2] && f[3] == s[3];
  }
}
