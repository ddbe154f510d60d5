/** What recovery makes of a log one of whose files was damaged from some
    record boundary on: the shared part of the torn-append and the corruption
    theorems. */
module LogDamage {
  import opened Sequences
  import opened Bytes
  import opened RecordFormat
  import opened SegmentScan
  import opened LogModel

  /** The outcome of a segment whose scan read `kept` and then stopped with `t`. */
  function Judge(file: seq<byte>, kept: seq<Message>, t: Scan, isLatest: bool): Result<Segment>
    requires SEGMENT_HEADER_SIZE + Size(kept) + Size(t.messages) <= |file|
  {
    match t.verdict
    case Clean => Ok(Segment(file, kept + t.messages))
    case OffsetOverflow => Err(OffsetsOverflow)
    case _ =>
      if isLatest then Ok(Segment(file[..SEGMENT_HEADER_SIZE + Size(kept) + Size(t.messages)], kept + t.messages))
      else Err(SealedError(t.verdict))
  }

  /** The byte position where the records after `kept` begin. */
  function Boundary(kept: seq<Message>): nat { SEGMENT_HEADER_SIZE + Size(kept) }

  /** `damaged` agrees with `file` up to the boundary after `kept`, a prefix of
      the messages that `file` holds. */
  ghost predicate DamagedAfter(file: seq<byte>, damaged: seq<byte>, messages: seq<Message>, kept: seq<Message>,
                               segmentSize: nat) {
    && kept <= messages
    && Boundary(kept) <= |damaged| <= segmentSize
    && Boundary(kept) <= |file|
    && damaged[..Boundary(kept)] == file[..Boundary(kept)]
  }

  /** Scanning a damaged segment reads the undamaged records and then judges the
      rest on its own. */
  lemma ScanDamaged(file: seq<byte>, damaged: seq<byte>, id: nat, isLatest: bool, base: nat,
                    messages: seq<Message>, kept: seq<Message>, segmentSize: nat)
    requires Holds(file, id, base, messages, segmentSize)
    requires DamagedAfter(file, damaged, messages, kept, segmentSize)
    ensures ScanSegment(damaged, id, isLatest, base, segmentSize)
            == Judge(damaged, kept, ScanBody(damaged[Boundary(kept)..], base + Size(kept)), isLatest)
  {
    hide ScanBody, Size, EncodeAll, Chained, HeaderOk, BaseOffset, AllZero;
    var rest := damaged[Boundary(kept)..];
    var body := damaged[SEGMENT_HEADER_SIZE..];
    KeptRun(file, id, base, messages, kept, segmentSize);
    assert damaged[..SEGMENT_HEADER_SIZE] == damaged[..Boundary(kept)][..SEGMENT_HEADER_SIZE];
    assert file[..SEGMENT_HEADER_SIZE] == file[..Boundary(kept)][..SEGMENT_HEADER_SIZE];
    assert damaged[SEGMENT_HEADER_SIZE..Boundary(kept)] == damaged[..Boundary(kept)][SEGMENT_HEADER_SIZE..];
    assert file[SEGMENT_HEADER_SIZE..Boundary(kept)] == file[..Boundary(kept)][SEGMENT_HEADER_SIZE..];
    assert body == EncodeAll(kept) + rest;
    ScanWritten(kept, rest, base);
    SizeConcat(kept, ScanBody(rest, base + Size(kept)).messages);
  }

  /** A prefix of the held messages is spelled right after the header. */
  lemma KeptRun(file: seq<byte>, id: nat, base: nat, messages: seq<Message>, kept: seq<Message>, segmentSize: nat)
    requires Holds(file, id, base, messages, segmentSize) && kept <= messages
    ensures Boundary(kept) <= |file| && file[SEGMENT_HEADER_SIZE..Boundary(kept)] == EncodeAll(kept)
    ensures Chained(kept, base) && base + Size(kept) < U64_LIMIT
  {
    hide EncodeAll, Chained, Size, HeaderOk, BaseOffset, AllZero;
    var more := messages[|kept|..];
    assert messages == kept + more;
    SizeConcat(kept, more);
    EncodeConcat(kept, more);
    ChainedConcat(kept, more, base);
    assert file[SEGMENT_HEADER_SIZE..Boundary(kept)] == file[SEGMENT_HEADER_SIZE..][..Size(kept)];
    assert EncodeAll(messages)[..Size(kept)] == EncodeAll(kept);
  }

  /** Image equality from the represented log: only the files are free. */
  lemma SameImage(a: Image, b: Image, parts: seq<seq<Message>>)
    requires Represents(a, parts) && Represents(b, parts)
    requires a.files == b.files && a.segmentSize == b.segmentSize
    ensures a == b
  {
    hide Tiled, Flatten, Size, Shaped;
    IndexUnique(a.files, a.index, b.index, parts, 1, 0, a.segmentSize);
  }

  lemma {:induction false} IndexUnique(files: seq<seq<byte>>, a: seq<SegmentInfo>, b: seq<SegmentInfo>,
                                       parts: seq<seq<Message>>, id: nat, base: nat, segmentSize: nat)
    requires Tiled(files, a, parts, id, base, segmentSize) && Tiled(files, b, parts, id, base, segmentSize)
    ensures a == b
    decreases |parts|
  {
    hide Holds;
    if parts != [] {
      IndexUnique(files[1..], a[1..], b[1..], parts[1..], id + 1, base + Size(parts[0]), segmentSize);
      SplitFirst(a);
      SplitFirst(b);
    }
  }

  /** The listing of files that are `n` good ones, one damaged, and the rest. */
  lemma {:induction false} ListingConcat(a: seq<seq<byte>>, b: seq<seq<byte>>, id: nat)
    ensures ListingFrom(a + b, id) == ListingFrom(a, id) + ListingFrom(b, id + |a|)
  {
    if a == [] {
      assert a + b == b;
    } else {
      ListingConcat(a[1..], b, id + 1);
      assert (a + b)[1..] == a[1..] + b;
      Assoc([SegmentFile(id, a[0])], ListingFrom(a[1..], id + 1), ListingFrom(b, id + |a|));
    }
  }

  /** A tiling cut at segment `i`. */
  lemma TiledAt(files: seq<seq<byte>>, index: seq<SegmentInfo>, parts: seq<seq<Message>>, i: nat, segmentSize: nat)
    requires |files| == |index| == |parts| && i < |parts|
    requires Tiled(files, index, parts, 1, 0, segmentSize)
    ensures Tiled(files[..i], index[..i], parts[..i], 1, 0, segmentSize)
    ensures Holds(files[i], 1 + i, Size(Flatten(parts[..i])), parts[i], segmentSize)
    ensures index[i] == InfoFor(1 + i, Size(Flatten(parts[..i])), parts[i])
  {
    hide Holds, Tiled, Flatten, Size;
    Cut(files, i + 1);
    Cut(index, i + 1);
    Cut(parts, i + 1);
    TiledConcat(files[..i + 1], files[i + 1..], index[..i + 1], index[i + 1..], parts[..i + 1], parts[i + 1..], 1, 0,
                segmentSize);
    TiledLast(files[..i + 1], index[..i + 1], parts[..i + 1], i, 1, 0, segmentSize);
    assert files[..i + 1][..i] == files[..i] && index[..i + 1][..i] == index[..i] && parts[..i + 1][..i] == parts[..i];
  }

  lemma Cut<T>(s: seq<T>, i: nat)
    requires i <= |s|
    ensures s == s[..i] + s[i..]
  {}

  /** Recovery reads the segments before segment `i` as they are, whatever `i` has become. */
  lemma ScanReaches(img: Image, parts: seq<seq<Message>>, i: nat, damaged: seq<byte>)
    requires Represents(img, parts) && i < |parts| == |img.files|
    ensures var base := Size(Flatten(parts[..i]));
            var listing := ListingFrom([damaged] + img.files[i + 1..], 1 + i);
            && ScanFrom(Listing(img.files[i := damaged]), 1, 0, img.segmentSize)
               == AddAll(img.files[..i], img.index[..i], Flatten(parts[..i]),
                         ScanFrom(listing, 1 + i, base, img.segmentSize))
            && listing[0] == SegmentFile(1 + i, damaged)
  {
    hide Tiled, Holds, Flatten, Size, ListingFrom, ScanFrom, AddAll, Shaped;
    TiledLengths(img.files, img.index, parts, 1, 0, img.segmentSize);
    TiledAt(img.files, img.index, parts, i, img.segmentSize);
    var tail := [damaged] + img.files[i + 1..];
    assert img.files[i := damaged] == img.files[..i] + tail;
    ListingConcat(img.files[..i], tail, 1);
    ScanTiledThen(img.files[..i], img.index[..i], parts[..i], 1, 0, img.segmentSize, ListingFrom(tail, 1 + i));
    ListingCons(tail, 1 + i);
  }

  /** Recovery up to a damaged segment: its scan decides. */
  lemma ScanToDamaged(img: Image, parts: seq<seq<Message>>, i: nat, damaged: seq<byte>, kept: seq<Message>)
    requires Represents(img, parts) && i < |parts| == |img.files|
    requires DamagedAfter(img.files[i], damaged, parts[i], kept, img.segmentSize)
    ensures var base := Size(Flatten(parts[..i]));
            var listing := ListingFrom([damaged] + img.files[i + 1..], 1 + i);
            && ScanFrom(Listing(img.files[i := damaged]), 1, 0, img.segmentSize)
               == AddAll(img.files[..i], img.index[..i], Flatten(parts[..i]),
                         ScanFrom(listing, 1 + i, base, img.segmentSize))
            && listing[0] == SegmentFile(1 + i, damaged)
            && ScanSegment(damaged, 1 + i, i + 1 == |parts|, base, img.segmentSize)
               == Judge(damaged, kept, ScanBody(damaged[Boundary(kept)..], base + Size(kept)), i + 1 == |parts|)
  {
    hide Tiled, Holds, Flatten, Size, ListingFrom, ScanFrom, ScanSegment, Judge, ScanBody, AddAll, DamagedAfter, Shaped;
    TiledLengths(img.files, img.index, parts, 1, 0, img.segmentSize);
    TiledAt(img.files, img.index, parts, i, img.segmentSize);
    ScanReaches(img, parts, i, damaged);
    ScanDamaged(img.files[i], damaged, 1 + i, i + 1 == |parts|, Size(Flatten(parts[..i])), parts[i], kept,
                img.segmentSize);
  }

  /** The error a sealed segment is refused with. */
  function Refusal(v: Verdict): Error
    requires v != Clean
  {
    if v == OffsetOverflow then OffsetsOverflow else SealedError(v)
  }

  /** Damage in a sealed segment: recovery refuses unless the rest of the scan
      is clean. */
  lemma RecoverSealed(img: Image, parts: seq<seq<Message>>, i: nat, damaged: seq<byte>, kept: seq<Message>, t: Scan)
    requires Represents(img, parts) && i < |parts| - 1 == |img.files| - 1
    requires DamagedAfter(img.files[i], damaged, parts[i], kept, img.segmentSize)
    requires t == ScanBody(damaged[Boundary(kept)..], Size(Flatten(parts[..i])) + Size(kept))
    requires t.verdict != Clean
    ensures Recover(Listing(img.files[i := damaged]), img.segmentSize) == Err(Refusal(t.verdict))
  {
    hide Tiled, Holds, Flatten, Size, ListingFrom, ScanFrom, ScanSegment, ScanBody, DamagedAfter;
    ScanToDamaged(img, parts, i, damaged, kept);
    ScanFromErr(ListingFrom([damaged] + img.files[i + 1..], 1 + i), 1 + i, Size(Flatten(parts[..i])), img.segmentSize,
                Refusal(t.verdict));
  }

  lemma GapErr(listing: seq<SegmentFile>, id: nat, offset: nat, segmentSize: nat)
    requires listing != [] && listing[0].id != id
    ensures ScanFrom(listing, id, offset, segmentSize) == Err(SegmentGap)
  {
    hide ScanSegment;
  }

  lemma RecoverErr(listing: seq<SegmentFile>, segmentSize: nat, e: Error)
    requires SupportedSize(segmentSize) && ScanFrom(listing, 1, 0, segmentSize) == Err(e)
    ensures Recover(listing, segmentSize) == Err(e)
  {
    hide ScanFrom;
  }

  lemma ScanFromErr(listing: seq<SegmentFile>, id: nat, offset: nat, segmentSize: nat, e: Error)
    requires listing != [] && listing[0].id == id
    requires ScanSegment(listing[0].bytes, id, |listing| == 1, offset, segmentSize) == Err(e)
    ensures ScanFrom(listing, id, offset, segmentSize) == Err(e)
  {
    hide ScanSegment;
  }

  /** Damage in the newest segment: recovery keeps the undamaged records plus
      whatever the rest still reads as, and zeroes everything after. */
  lemma RecoverLatest(img: Image, parts: seq<seq<Message>>, n: nat, damaged: seq<byte>, kept: seq<Message>, t: Scan)
    requires Represents(img, parts) && n + 1 == |parts| == |img.files|
    requires DamagedAfter(img.files[n], damaged, parts[n], kept, img.segmentSize)
    requires t == ScanBody(damaged[Boundary(kept)..], Size(Flatten(parts[..n])) + Size(kept))
    ensures var r := Recover(Listing(img.files[n := damaged]), img.segmentSize);
            if t.verdict == OffsetOverflow then r == Err(OffsetsOverflow)
            else
              && r.Ok? && Represents(r.value, parts[n := kept + t.messages])
              && r.value.segmentSize == img.segmentSize
              && r.value.files == img.files[n := Extended(Left(damaged, kept, t), img.segmentSize)]
  {
    hide Tiled, Holds, Flatten, Size, ListingFrom, ScanFrom, ScanSegment, ScanBody, Extended;
    TiledLengths(img.files, img.index, parts, 1, 0, img.segmentSize);
    ScanToDamaged(img, parts, n, damaged, kept);
    var base := Size(Flatten(parts[..n]));
    var tail := ListingFrom([damaged] + img.files[n + 1..], 1 + n);
    if t.verdict == OffsetOverflow {
      ScanFromErr(tail, 1 + n, base, img.segmentSize, OffsetsOverflow);
    } else {
      var s := Segment(Left(damaged, kept, t), kept + t.messages);
      ScanFromCons(tail, 1 + n, base, img.segmentSize, s);
      assert tail[1..] == [];
      ScanFromNil(2 + n, base + Size(s.messages), img.segmentSize);
      assert [s.file] + [] == [s.file] && s.messages + [] == s.messages;
      assert [InfoFor(1 + n, base, s.messages)] + [] == [InfoFor(1 + n, base, s.messages)];
      RecoverFromScan(img, parts, n, damaged, s);
    }
  }

  /** What the scan leaves of the damaged file. */
  function Left(damaged: seq<byte>, kept: seq<Message>, t: Scan): seq<byte>
    requires Boundary(kept) + Size(t.messages) <= |damaged|
  {
    if t.verdict == Clean then damaged else damaged[..Boundary(kept) + Size(t.messages)]
  }

  lemma RecoverFromScan(img: Image, parts: seq<seq<Message>>, n: nat, damaged: seq<byte>, s: Segment)
    requires Represents(img, parts) && n + 1 == |parts| == |img.files|
    requires var base := Size(Flatten(parts[..n]));
             && ScanSegment(damaged, 1 + n, true, base, img.segmentSize) == Ok(s)
             && ScanFrom(Listing(img.files[n := damaged]), 1, 0, img.segmentSize)
                == Ok(Scanned(img.files[..n] + [s.file], img.index[..n] + [InfoFor(1 + n, base, s.messages)],
                              Flatten(parts[..n]) + s.messages, base + Size(s.messages)))
    ensures var r := Recover(Listing(img.files[n := damaged]), img.segmentSize);
            && r.Ok? && Represents(r.value, parts[n := s.messages])
            && r.value.segmentSize == img.segmentSize
            && r.value.files == img.files[n := Extended(s.file, img.segmentSize)]
  {
    hide Tiled, Holds, Flatten, Size, ListingFrom, ScanFrom, ScanSegment, Extended;
    TiledLengths(img.files, img.index, parts, 1, 0, img.segmentSize);
    TiledAt(img.files, img.index, parts, n, img.segmentSize);
    var base := Size(Flatten(parts[..n]));
    HoldsEnd(img.files[n], 1 + n, base, parts[n], img.segmentSize);
    ScanNormalises(damaged, 1 + n, true, base, img.segmentSize);
    HoldsEnd(s.file, 1 + n, base, s.messages, img.segmentSize);
    var after := parts[n := s.messages];
    var r := Scanned(img.files[..n] + [s.file], img.index[..n] + [InfoFor(1 + n, base, s.messages)],
                     Flatten(parts[..n]) + s.messages, base + Size(s.messages));
    SetLast(img.files, s.file);
    SetLast(img.index, InfoFor(1 + n, base, s.messages));
    ReplaceLast(img.files, img.index, parts, n, img.segmentSize, s.file, InfoFor(1 + n, base, s.messages), s.messages);
    FlattenSplit(parts, n, s.messages);
    SizeConcat(Flatten(parts[..n]), s.messages);
    StretchRepresents(Listing(img.files[n := damaged]), img.segmentSize, r, after);
    SetLast(r.files, Extended(s.file, img.segmentSize));
    SetLast(img.files, Extended(s.file, img.segmentSize));
  }
}
