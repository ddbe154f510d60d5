/** The log object. The mapped segment is an array; the files before it are
    values. Every method is proved against the functions of LogModel. */
module StorageLog {
  import opened Sequences
  import opened Options
  import opened Bytes
  import opened Crc32
  import opened RecordFormat
  import opened SegmentScan
  import opened LogModel
  import opened LogBytes
  import opened LogDamage
  import opened TornAppend
  import opened Ring

  /** Passing one valid record. */
  lemma ScanOne(file: seq<byte>, position: nat, offset: nat, m: Message)
    requires position + RECORD_HEADER_SIZE <= |file| && GetLE(file[position..][..4]) != 0
    requires DecodeRecord(file[position..], offset) == Some(m)
    ensures position + RecordSize(m) <= |file|
    ensures offset + RecordSize(m) >= U64_LIMIT ==> ScanBody(file[position..], offset) == Scan([], OffsetOverflow)
    ensures offset + RecordSize(m) < U64_LIMIT ==>
              ScanBody(file[position..], offset)
              == Prepend(m, ScanBody(file[position + RecordSize(m)..], offset + RecordSize(m)))
  {
    hide GetLE, DecodeRecord, Prepend;
    assert file[position..][RecordSize(m)..] == file[position + RecordSize(m)..];
  }

  /** What the loop has read so far, and what is left to read. */
  ghost predicate ReadSoFar(file: seq<byte>, base: nat, read: seq<Message>, position: nat, offset: nat) {
    && position == SEGMENT_HEADER_SIZE + Size(read) <= |file| && offset == base + Size(read)
    && var rest := ScanBody(file[position..], offset);
       ScanBody(file[SEGMENT_HEADER_SIZE..], base) == Scan(read + rest.messages, rest.verdict)
  }

  lemma ReadNothing(file: seq<byte>, base: nat)
    requires SEGMENT_HEADER_SIZE <= |file|
    ensures ReadSoFar(file, base, [], SEGMENT_HEADER_SIZE, base)
  {
    hide ScanBody;
    var rest := ScanBody(file[SEGMENT_HEADER_SIZE..], base);
    assert [] + rest.messages == rest.messages;
  }

  lemma ReadOneMore(file: seq<byte>, base: nat, read: seq<Message>, position: nat, offset: nat, m: Message)
    requires ReadSoFar(file, base, read, position, offset)
    requires position + RECORD_HEADER_SIZE <= |file| && GetLE(file[position..][..4]) != 0
    requires DecodeRecord(file[position..], offset) == Some(m) && offset + RecordSize(m) < U64_LIMIT
    ensures ReadSoFar(file, base, read + [m], position + RecordSize(m), offset + RecordSize(m))
  {
    hide GetLE, DecodeRecord, ScanBody, Size;
    ScanOne(file, position, offset, m);
    SizeConcat(read, [m]);
    EncodeOne(m);
    Assoc(read, [m], ScanBody(file[position + RecordSize(m)..], offset + RecordSize(m)).messages);
  }

  /** Where the loop stops: the verdict of the bytes at `position`. */
  lemma ReadAll(file: seq<byte>, base: nat, read: seq<Message>, position: nat, offset: nat)
    requires ReadSoFar(file, base, read, position, offset)
    requires ScanBody(file[position..], offset).messages == []
    ensures ScanBody(file[SEGMENT_HEADER_SIZE..], base) == Scan(read, ScanBody(file[position..], offset).verdict)
  {
    hide ScanBody, Size;
    assert read + [] == read;
  }

  /** The record loop of `scan_segment`: reads records until the bytes stop being
      one, and reports why. Every record read goes into the recent cache. */
  method ScanRecords(file: seq<byte>, base: nat, segmentSize: nat, recent: CircularBuffer<Message>)
    returns (position: nat, verdict: Verdict, ghost read: seq<Message>)
    requires SEGMENT_HEADER_SIZE <= |file| <= segmentSize && recent.Valid()
    modifies recent`writeIndex, recent`count, recent`history, recent.entries
    ensures recent.Valid() && recent.history == old(recent.history) + read
    ensures Scan(read, verdict) == ScanBody(file[SEGMENT_HEADER_SIZE..], base)
    ensures position == SEGMENT_HEADER_SIZE + Size(read) <= |file|
  {
    hide GetLE, DecodeRecord, Size, ReadSoFar;
    position, read := SEGMENT_HEADER_SIZE, [];
    var offset: nat := base;
    ReadNothing(file, base);
    while position + RECORD_HEADER_SIZE <= |file|
      invariant ReadSoFar(file, base, read, position, offset)
      invariant recent.Valid() && recent.history == old(recent.history) + read
      invariant position <= |file|
      decreases |file| - position
    {
      var magic := Get(file[position..position + 4]);
      assert file[position..position + 4] == file[position..][..4];
      if magic == 0 {
        var zero := ZeroTail(file, position);
        verdict := if zero then Clean else CorruptTail;
        StopsHere(file, position, offset);
        ReadAll(file, base, read, position, offset);
        ReadPosition(file, base, read, position, offset);
        return;
      }
      var record := ReadRecord(file, position, offset, segmentSize);
      if record.None? {
        verdict := CorruptRecord;
        StopsHere(file, position, offset);
        ReadAll(file, base, read, position, offset);
        ReadPosition(file, base, read, position, offset);
        return;
      }
      var m := record.value;
      ScanOne(file, position, offset, m);
      if offset + RecordSize(m) >= U64_LIMIT {
        verdict := OffsetOverflow;
        ReadAll(file, base, read, position, offset);
        ReadPosition(file, base, read, position, offset);
        return;
      }
      ReadOneMore(file, base, read, position, offset, m);
      recent.Push(m);
      Assoc(old(recent.history), read, [m]);
      read := read + [m];
      position, offset := position + RecordSize(m), offset + RecordSize(m);
    }
    var zero := ZeroTail(file, position);
    verdict := if zero then Clean else TruncatedRecord;
    StopsHere(file, position, offset);
    ReadAll(file, base, read, position, offset);
    ReadPosition(file, base, read, position, offset);
  }

  lemma StopsHere(file: seq<byte>, position: nat, offset: nat)
    requires position <= |file|
    ensures var rest := file[position..];
            var s := ScanBody(rest, offset);
            && (|rest| < RECORD_HEADER_SIZE ==> s == Scan([], if AllZero(rest) then Clean else TruncatedRecord))
            && (|rest| >= RECORD_HEADER_SIZE && GetLE(rest[..4]) == 0 ==>
              s == Scan([], if AllZero(rest) then Clean else CorruptTail))
            && (|rest| >= RECORD_HEADER_SIZE && GetLE(rest[..4]) != 0 && DecodeRecord(rest, offset).None? ==>
              s == Scan([], CorruptRecord))
  {
    hide GetLE, DecodeRecord, AllZero;
  }

  lemma ReadPosition(file: seq<byte>, base: nat, read: seq<Message>, position: nat, offset: nat)
    requires ReadSoFar(file, base, read, position, offset)
    ensures position == SEGMENT_HEADER_SIZE + Size(read) <= |file|
  {}

  /** `scan_segment`: the file it leaves and the end of its valid bytes. */
  method ScanFile(file: seq<byte>, id: nat, isLatest: bool, base: nat, segmentSize: nat,
                  recent: CircularBuffer<Message>)
    returns (r: Result<(seq<byte>, nat)>, ghost read: seq<Message>)
    requires recent.Valid()
    modifies recent`writeIndex, recent`count, recent`history, recent.entries
    ensures recent.Valid()
    ensures match ScanSegment(file, id, isLatest, base, segmentSize)
            case Err(e) => r == Err(e)
            case Ok(s) => r == Ok((s.file, SEGMENT_HEADER_SIZE + Size(s.messages))) && read == s.messages &&
                          recent.history == old(recent.history) + read
  {
    hide GetLE, Checksum, ScanBody, Size;
    read := [];
    if |file| < SEGMENT_HEADER_SIZE {
      return Err(HeaderTruncated), read;
    }
    var header := file[..SEGMENT_HEADER_SIZE];
    var version := Get(header[8..12]);
    var storedId := Get(header[12..16]);
    var capacity := Get(header[24..32]);
    var stored := Get(header[32..36]);
    var crc := SegmentChecksum(header[..32]);
    if header[..8] != SEGMENT_MAGIC || version != SEGMENT_VERSION || storedId != id || capacity != segmentSize
      || stored != crc {
      return Err(HeaderInvalid), read;
    }
    var baseOffset := Get(header[16..24]);
    if baseOffset != base {
      return Err(BaseDiscontinuous), read;
    }
    if |file| > segmentSize {
      return Err(FileTooLarge), read;
    }
    var position, verdict;
    position, verdict, read := ScanRecords(file, base, segmentSize, recent);
    match verdict
    case Clean => r := Ok((file, position));
    case OffsetOverflow => r := Err(OffsetsOverflow);
    case _ =>
      if isLatest {
        r := Ok((file[..position], position));
      } else {
        r := Err(SealedError(verdict));
      }
  }

  lemma AddAllSnoc(files: seq<seq<byte>>, index: seq<SegmentInfo>, history: seq<Message>, id: nat, base: nat,
                   s: Segment, rest: Result<Scanned>)
    ensures AddAll(files, index, history, AddSegment(id, base, s, rest))
            == AddAll(files + [s.file], index + [InfoFor(id, base, s.messages)], history + s.messages, rest)
  {
    if rest.Ok? {
      Assoc(files, [s.file], rest.value.files);
      Assoc(index, [InfoFor(id, base, s.messages)], rest.value.index);
      Assoc(history, s.messages, rest.value.history);
    }
  }

  /** The loop of `recover_or_create` over the sorted segment files. */
  method ScanListing(listing: seq<SegmentFile>, segmentSize: nat, recent: CircularBuffer<Message>)
    returns (r: Result<(seq<seq<byte>>, seq<SegmentInfo>, nat)>)
    requires recent.Valid() && recent.history == []
    modifies recent`writeIndex, recent`count, recent`history, recent.entries
    ensures recent.Valid()
    ensures match ScanFrom(listing, 1, 0, segmentSize)
            case Err(e) => r == Err(e)
            case Ok(t) => r == Ok((t.files, t.index, t.end)) && recent.history == t.history
  {
    hide ScanFrom, ScanSegment, Size, AddAll, AddSegment;
    var files, index, offset: nat := [], [], 0;
    AddAllNil(ScanFrom(listing, 1, 0, segmentSize));
    assert listing[0..] == listing;
    for i := 0 to |listing|
      invariant recent.Valid()
      invariant ScanFrom(listing, 1, 0, segmentSize)
                == AddAll(files, index, recent.history, ScanFrom(listing[i..], 1 + i, offset, segmentSize))
    {
      ghost var rest := listing[i..];
      ghost var before := recent.history;
      if listing[i].id != i + 1 {
        GapErr(rest, 1 + i, offset, segmentSize);
        AddAllErr(files, index, before, SegmentGap);
        return Err(SegmentGap);
      }
      var scanned;
      ghost var read;
      scanned, read := ScanFile(listing[i].bytes, i + 1, i + 1 == |listing|, offset, segmentSize, recent);
      if scanned.Err? {
        ScanFromErr(rest, 1 + i, offset, segmentSize, scanned.error);
        AddAllErr(files, index, before, scanned.error);
        return Err(scanned.error);
      }
      var (file, valid) := scanned.value;
      ghost var s := Segment(file, read);
      ScanFromCons(rest, 1 + i, offset, segmentSize, s);
      assert rest[1..] == listing[i + 1..];
      var end := offset + (valid - SEGMENT_HEADER_SIZE);
      AddAllSnoc(files, index, before, 1 + i, offset, s, ScanFrom(listing[i + 1..], 2 + i, end, segmentSize));
      files := files + [file];
      index := index + [SegmentInfo(i + 1, offset, end, valid)];
      offset := end;
    }
    assert listing[|listing|..] == [];
    ScanFromNil(1 + |listing|, offset, segmentSize);
    AddAllDone(files, index, recent.history, offset);
    r := Ok((files, index, offset));
  }

  lemma AddAllErr(files: seq<seq<byte>>, index: seq<SegmentInfo>, history: seq<Message>, e: Error)
    ensures AddAll(files, index, history, Err(e)) == Err(e)
  {}

  lemma AddAllDone(files: seq<seq<byte>>, index: seq<SegmentInfo>, history: seq<Message>, offset: nat)
    ensures AddAll(files, index, history, Ok(Scanned([], [], [], offset))) == Ok(Scanned(files, index, history, offset))
  {
    assert files + [] == files && index + [] == index && history + [] == history;
  }

  /** The two copies of `append`, header last, store exactly the record. */
  lemma CopiesStoreRecord(file: seq<byte>, at: nat, m: Message)
    requires at + RecordSize(m) <= |file|
    ensures ApplyStores(ApplyStores(file, CopyStores(at + RECORD_HEADER_SIZE, m.payload)),
                        CopyStores(at, EncodeHeader(m)))
            == Overwrite(file, at, EncodeRecord(m))
  {
    hide ApplyStores, EncodeHeader, Overwrite, CopyStores;
    var head := EncodeHeader(m);
    CopyPrefix(file, at + RECORD_HEADER_SIZE, m.payload, |m.payload|);
    var mid := Overwrite(file, at + RECORD_HEADER_SIZE, m.payload);
    CopyPrefix(mid, at, head, |head|);
    assert m.payload[..|m.payload|] == m.payload && head[..|head|] == head;
    var p, h := CopyStores(at + RECORD_HEADER_SIZE, m.payload), CopyStores(at, head);
    assert p[..|m.payload|] == p && h[..|head|] == h;
    OverwriteTwice(file, at, head, m.payload);
  }

  lemma OverwriteTwice(file: seq<byte>, at: nat, head: seq<byte>, payload: seq<byte>)
    requires at + |head| + |payload| <= |file|
    ensures Overwrite(Overwrite(file, at + |head|, payload), at, head) == Overwrite(file, at, head + payload)
  {
    var mid := Overwrite(file, at + |head|, payload);
    assert mid[..at] == file[..at];
    assert mid[at + |head|..] == payload + file[at + |head| + |payload|..];
    Assoc(file[..at] + head, payload, file[at + |head| + |payload|..]);
    Assoc(file[..at], head, payload);
  }

  lemma RecoverEmpty(segmentSize: nat)
    requires SupportedSize(segmentSize)
    ensures ScanFrom([], 1, 0, segmentSize) == Ok(Scanned([], [], [], 0))
    ensures Recover([], segmentSize)
            == Ok(Image(segmentSize, [] + [FreshFile(1, 0, segmentSize)], [] + [InfoFor(1, 0, [])], 0,
                        SEGMENT_HEADER_SIZE, []))
  {
    hide FreshFile, InfoFor;
    assert [] + [FreshFile(1, 0, segmentSize)] == [FreshFile(1, 0, segmentSize)];
    assert [] + [InfoFor(1, 0, [])] == [InfoFor(1, 0, [])];
  }

  lemma RecoverNonEmpty(listing: seq<SegmentFile>, segmentSize: nat, t: Scanned)
    requires SupportedSize(segmentSize) && listing != [] && ScanFrom(listing, 1, 0, segmentSize) == Ok(t)
    ensures |t.files| == |t.index| == |listing|
    ensures var n := |t.files| - 1;
            Recover(listing, segmentSize)
            == Ok(Image(segmentSize, t.files[..n] + [Extended(t.files[n], segmentSize)], t.index, t.end,
                        t.index[n].validBytes, t.history))
  {
    hide ScanFrom, Extended;
    SetLast(t.files, Extended(t.files[|t.files| - 1], segmentSize));
  }

  class MemoryMappedLog {
    var isOpen: bool
    var segmentSize: nat
    var nextMessageOffset: nat
    var segmentIndex: seq<SegmentInfo>
    var sealedFiles: seq<seq<byte>>        // the segment files before the mapped one
    var active: array<byte>           // the mapped segment, shared with its file
    var writePosition: nat
    var recent: CircularBuffer<Message>
    ghost var parts: seq<seq<Message>>

    /** The log as a value; the messages are everything the cache has been given. */
    ghost function View(): Image
      reads this, active, recent
    {
      Image(segmentSize, sealedFiles + [active[..]], segmentIndex, nextMessageOffset, writePosition, recent.history)
    }

    ghost predicate Valid()
      reads this, active, recent, recent.entries
    {
      recent.Valid() && (isOpen ==> Represents(View(), parts))
    }

    constructor ()
      ensures Valid() && !isOpen && fresh(active) && fresh(recent) && fresh(recent.entries)
    {
      isOpen, segmentSize, nextMessageOffset, segmentIndex := false, 0, 0, [];
      sealedFiles, writePosition, parts := [], SEGMENT_HEADER_SIZE, [];
      active := new byte[0];
      recent := new CircularBuffer<Message>(1);
    }

    /** `open`: `listing` is the directory found on disk. On success the log is
        exactly the image that `Recover` specifies; on failure it stays closed. */
    method Open(listing: seq<SegmentFile>, initialSize: nat, recentCapacity: nat) returns (r: Result<()>)
      requires Valid() && forall f :: f in listing ==> f.id <= MAXIMUM_SEGMENT_ID
      modifies this
      ensures Valid()
      ensures old(isOpen) ==> r == Err(AlreadyOpen) && isOpen && View() == old(View())
      ensures !old(isOpen) ==>
                if !SupportedSize(initialSize) then r == Err(SegmentSizeUnsupported) && !isOpen
                else if recentCapacity == 0 then r == Err(RecentCapacityZero) && !isOpen
                else match Recover(listing, initialSize)
                  case Err(e) => r == Err(e) && !isOpen
                  case Ok(img) => r == Ok(()) && isOpen && View() == img && recent.entries.Length == recentCapacity
      ensures !old(isOpen) && isOpen ==> fresh(active) && fresh(recent) && fresh(recent.entries)
    {
      hide Represents, Recover;
      if isOpen {
        return Err(AlreadyOpen);
      }
      if initialSize < SEGMENT_HEADER_SIZE + RECORD_HEADER_SIZE + 1 || initialSize > OFF_T_MAX {
        return Err(SegmentSizeUnsupported);
      }
      if recentCapacity == 0 {
        return Err(RecentCapacityZero);
      }
      segmentSize := initialSize;
      recent := new CircularBuffer<Message>(recentCapacity);
      r := RecoverOrCreate(listing);
      if r.Ok? {
        parts := RecoverSound(listing, initialSize);
        isOpen := true;
      }
    }

    /** `recover_or_create`. */
    method RecoverOrCreate(listing: seq<SegmentFile>) returns (r: Result<()>)
      requires SupportedSize(segmentSize) && recent.Valid() && recent.history == []
      modifies this, recent, recent.entries
      ensures isOpen == old(isOpen) && segmentSize == old(segmentSize) && recent == old(recent) && parts == old(parts)
      ensures recent.Valid()
      ensures match Recover(listing, segmentSize)
              case Err(e) => r == Err(e)
              case Ok(img) => r == Ok(()) && View() == img && fresh(active)
    {
      hide ScanFrom, FreshFile, Recover, Extended, InfoFor;
      nextMessageOffset, segmentIndex := 0, [];
      var scanned := ScanListing(listing, segmentSize, recent);
      if scanned.Err? {
        RecoverErr(listing, segmentSize, scanned.error);
        return Err(scanned.error);
      }
      var (files, index, end) := scanned.value;
      nextMessageOffset, segmentIndex := end, index;
      if listing == [] {
        sealedFiles := [];
        RecoverEmpty(segmentSize);
        CreateSegment(1, 0);
      } else {
        RecoverNonEmpty(listing, segmentSize, Scanned(files, index, recent.history, end));
        MapActiveSegment(files, segmentIndex[|files| - 1].validBytes);
      }
      r := Ok(());
    }

    /** `map_active_segment`: the newest file, stretched to the segment size with
        zeros, becomes the mapped one. */
    method MapActiveSegment(files: seq<seq<byte>>, position: nat)
      requires files != []
      modifies this
      ensures isOpen == old(isOpen) && segmentSize == old(segmentSize) && nextMessageOffset == old(nextMessageOffset)
      ensures segmentIndex == old(segmentIndex) && recent == old(recent) && parts == old(parts)
      ensures fresh(active) && active[..] == Extended(files[|files| - 1], segmentSize)
      ensures sealedFiles == files[..|files| - 1] && writePosition == position
    {
      var bytes := files[|files| - 1];
      sealedFiles := files[..|files| - 1];
      active := new byte[segmentSize](i => if 0 <= i < |bytes| then bytes[i] else 0);
      writePosition := position;
      MappedBytes(active[..], bytes, segmentSize);
    }

    /** `create_segment`: a zeroed file of the segment size with a fresh header
        becomes the mapped one. */
    method CreateSegment(id: nat, base: nat)
      requires SupportedSize(segmentSize)
      modifies this
      ensures isOpen == old(isOpen) && segmentSize == old(segmentSize) && nextMessageOffset == old(nextMessageOffset)
      ensures sealedFiles == old(sealedFiles) && recent == old(recent) && parts == old(parts)
      ensures fresh(active) && active[..] == FreshFile(id, base, segmentSize) && writePosition == SEGMENT_HEADER_SIZE
      ensures segmentIndex == old(segmentIndex) + [InfoFor(id, base, [])]
    {
      hide ApplyStores, SegmentHeader;
      active := new byte[segmentSize](_ => 0);
      ghost var zeros := active[..];
      var header := BuildSegmentHeader(id, base, segmentSize);
      CopyIn(active, 0, header[..]);
      CopyPrefix(zeros, 0, header[..], |header[..]|);
      assert CopyStores(0, header[..])[..|header[..]|] == CopyStores(0, header[..]);
      assert header[..][..|header[..]|] == header[..];
      assert active[..] == FreshFile(id, base, segmentSize);
      writePosition := SEGMENT_HEADER_SIZE;
      segmentIndex := segmentIndex + [SegmentInfo(id, base, base, SEGMENT_HEADER_SIZE)];
    }

    /** Seal the mapped segment and go on in the next one. */
    method RollOverSegment()
      requires Shaped(View())
      modifies this
      ensures isOpen == old(isOpen) && recent == old(recent) && parts == old(parts) && fresh(active)
      ensures View() == RollOver(old(View()))
    {
      hide FreshFile, InfoFor;
      ghost var files := View().files;
      sealedFiles := sealedFiles + [active[..]];
      CreateSegment(|sealedFiles| + 1, nextMessageOffset);
    }

    /** The second half of `append`: cache the message, copy the payload, copy the
        header, advance. */
    method StoreMessage(m: Message)
      requires recent.Valid() && Shaped(View()) && writePosition + RecordSize(m) <= segmentSize
      modifies this, active, recent, recent.entries
      ensures isOpen == old(isOpen) && recent == old(recent) && active == old(active) && parts == old(parts)
              && recent.Valid()
      ensures View() == StoreRecord(old(View()), m)
    {
      hide ApplyStores, EncodeHeader, CopyStores, Overwrite;
      ghost var before := View();
      var header := BuildRecordHeader(m);
      recent.Push(m);
      CopiesStoreRecord(active[..], writePosition, m);
      CopyIn(active, writePosition + RECORD_HEADER_SIZE, m.payload);
      CopyIn(active, writePosition, header[..]);
      writePosition := writePosition + RecordSize(m);
      nextMessageOffset := nextMessageOffset + RecordSize(m);
      var last := |segmentIndex| - 1;
      segmentIndex := segmentIndex[last := segmentIndex[last].(endOffset := nextMessageOffset,
                                                               validBytes := writePosition)];
      SetLast(before.files, active[..]);
      assert before.files[..|before.files| - 1] == sealedFiles;
    }

    /** `append`: refused without a trace, or exactly the specified image and the
        offset the message was given. */
    method Append(payload: seq<byte>, now: nat) returns (r: Result<nat>)
      requires Valid() && now < U64_LIMIT
      modifies this, active, recent, recent.entries
      ensures Valid() && recent == old(recent) && isOpen == old(isOpen)
      ensures active == old(active) || fresh(active)
      ensures !isOpen ==> r == Err(NotOpen) && View() == old(View())
      ensures isOpen ==>
                match LogModel.Append(old(View()), payload, now)
                case Err(e) => r == Err(e) && View() == old(View())
                case Ok(img) => r == Ok(old(nextMessageOffset)) && View() == img
    {
      hide Tiled, Flatten, Size, RollOver, StoreRecord;
      if !isOpen {
        return Err(NotOpen);
      }
      ghost var before, oldParts := View(), parts;
      var size := RECORD_HEADER_SIZE + |payload|;
      if |payload| >= U32_LIMIT {
        return Err(PayloadTooLong);
      }
      if size > segmentSize - SEGMENT_HEADER_SIZE {
        return Err(RecordTooLarge);
      }
      if nextMessageOffset + size >= U64_LIMIT {
        return Err(OffsetSpaceExhausted);
      }
      if writePosition > segmentSize - size {
        if |sealedFiles| + 1 >= MAXIMUM_SEGMENT_ID {
          return Err(SegmentIdsExhausted);
        }
        RollOverSegment();
      }
      var offset := nextMessageOffset;
      assert LogModel.Admit(before, payload) == Ok(View());
      AdmitRepresents(before, oldParts, payload);
      StoreMessage(Message(offset, now, payload));
      parts := AppendRepresents(before, oldParts, payload, now);
      r := Ok(offset);
    }

    /** `close`: the directory it leaves reopens to the very log that was open. */
    method Close()
      requires Valid()
      modifies this`isOpen
      ensures Valid() && !isOpen && View() == old(View())
      ensures old(isOpen) ==>
                SupportedSize(segmentSize)
                  && Recover(Listing(sealedFiles + [active[..]]), segmentSize) == Ok(old(View()))
    {
      hide Tiled, Flatten, Recover;
      if isOpen {
        ReopenRestores(View(), parts);
      }
      isOpen := false;
    }

    /** `get_recent`: always the tail of the whole log. */
    method GetRecent(count: nat) returns (result: seq<Message>)
      requires Valid()
      ensures result == Last(View().history, Min(count, recent.entries.Length))
    {
      result := recent.GetRecent(count);
    }
  }

  /** The mapping of a recovered file: its bytes, stretched with zeros. */
  lemma MappedBytes(mapped: seq<byte>, bytes: seq<byte>, size: nat)
    requires |mapped| == size && forall i :: 0 <= i < size ==> mapped[i] == if i < |bytes| then bytes[i] else 0
    ensures mapped == Extended(bytes, size)
  {}
}
