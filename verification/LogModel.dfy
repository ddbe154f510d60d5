/** The segmented log as a value: the files on disk and everything the open log
    keeps beside them. `Recover` is what `open` rebuilds from a directory,
    `Append` what one append does. The theorems are about whole runs. */
module LogModel {
  import opened Sequences
  import opened Bytes
  import opened RecordFormat
  import opened SegmentScan

  const MAXIMUM_SEGMENT_ID := 99999999
  const OFF_T_MAX := 0x7fff_ffff_ffff_ffff

  datatype SegmentInfo = SegmentInfo(id: nat, firstOffset: nat, endOffset: nat, validBytes: nat)

  datatype Image = Image(
    segmentSize: nat,
    files: seq<seq<byte>>,     // file i is segment i + 1; the last one is mapped
    index: seq<SegmentInfo>,
    next: nat,                 // next message offset
    writePosition: nat,        // in the mapped segment
    history: seq<Message>)     // every message of the log, oldest first

  /** A directory listing: the segment files in ascending id order. */
  datatype SegmentFile = SegmentFile(id: nat, bytes: seq<byte>)

  predicate SupportedSize(segmentSize: nat) {
    SEGMENT_HEADER_SIZE + RECORD_HEADER_SIZE + 1 <= segmentSize <= OFF_T_MAX
  }

  function InfoFor(id: nat, base: nat, messages: seq<Message>): SegmentInfo {
    SegmentInfo(id, base, base + Size(messages), SEGMENT_HEADER_SIZE + Size(messages))
  }

  // ---- Recovery -----------------------------------------------------------------

  datatype Scanned = Scanned(files: seq<seq<byte>>, index: seq<SegmentInfo>, history: seq<Message>, end: nat)

  /** The loop of `recover_or_create` over the rest of the listing. */
  function ScanFrom(listing: seq<SegmentFile>, id: nat, offset: nat, segmentSize: nat): (r: Result<Scanned>)
    ensures r.Ok? ==> |r.value.files| == |r.value.index| == |listing|
    decreases |listing|
  {
    if listing == [] then Ok(Scanned([], [], [], offset))
    else if listing[0].id != id then Err(SegmentGap)
    else
      match ScanSegment(listing[0].bytes, id, |listing| == 1, offset, segmentSize)
      case Err(e) => Err(e)
      case Ok(s) => AddSegment(id, offset, s, ScanFrom(listing[1..], id + 1, offset + Size(s.messages), segmentSize))
  }

  function AddSegment(id: nat, offset: nat, s: Segment, rest: Result<Scanned>): (r: Result<Scanned>)
    ensures r.Ok? <==> rest.Ok?
    ensures r.Ok? ==> |r.value.files| == |rest.value.files| + 1 && |r.value.index| == |rest.value.index| + 1
  {
    match rest
    case Err(e) => Err(e)
    case Ok(t) =>
      Ok(Scanned([s.file] + t.files, [InfoFor(id, offset, s.messages)] + t.index, s.messages + t.history, t.end))
  }

  lemma ScanFromNil(id: nat, offset: nat, segmentSize: nat)
    ensures ScanFrom([], id, offset, segmentSize) == Ok(Scanned([], [], [], offset))
  {}

  lemma ScanFromCons(listing: seq<SegmentFile>, id: nat, offset: nat, segmentSize: nat, s: Segment)
    requires listing != [] && listing[0].id == id
    requires ScanSegment(listing[0].bytes, id, |listing| == 1, offset, segmentSize) == Ok(s)
    ensures ScanFrom(listing, id, offset, segmentSize)
            == AddSegment(id, offset, s, ScanFrom(listing[1..], id + 1, offset + Size(s.messages), segmentSize))
  {
    hide ScanSegment, AddSegment, Size;
  }

  lemma ScanFromStep(listing: seq<SegmentFile>, id: nat, offset: nat, segmentSize: nat)
    requires listing != [] && ScanFrom(listing, id, offset, segmentSize).Ok?
    ensures listing[0].id == id
    ensures ScanSegment(listing[0].bytes, id, |listing| == 1, offset, segmentSize).Ok?
    ensures var s := ScanSegment(listing[0].bytes, id, |listing| == 1, offset, segmentSize).value;
            var rest := ScanFrom(listing[1..], id + 1, offset + Size(s.messages), segmentSize);
            rest.Ok? && ScanFrom(listing, id, offset, segmentSize) == AddSegment(id, offset, s, rest)
  {
    hide ScanSegment, AddSegment, Size;
  }

  function FreshFile(id: nat, base: nat, segmentSize: nat): seq<byte>
    requires SupportedSize(segmentSize)
  {
    SegmentHeader(id, base, segmentSize) + Zeros(segmentSize - SEGMENT_HEADER_SIZE)
  }

  function Recover(listing: seq<SegmentFile>, segmentSize: nat): Result<Image>
    requires SupportedSize(segmentSize)
  {
    var r :- ScanFrom(listing, 1, 0, segmentSize);
    if listing == [] then
      Ok(Image(segmentSize, [FreshFile(1, 0, segmentSize)], [InfoFor(1, 0, [])], 0, SEGMENT_HEADER_SIZE, []))
    else
      var last := |listing| - 1;
      Ok(Image(segmentSize, r.files[last := Extended(r.files[last], segmentSize)], r.index, r.end,
               r.index[last].validBytes, r.history))
  }

  /** The listing of a directory that holds exactly these segments. */
  function ListingFrom(files: seq<seq<byte>>, id: nat): (l: seq<SegmentFile>)
    ensures |l| == |files|
  {
    if files == [] then [] else [SegmentFile(id, files[0])] + ListingFrom(files[1..], id + 1)
  }

  function Listing(files: seq<seq<byte>>): seq<SegmentFile> { ListingFrom(files, 1) }

  // ---- Append --------------------------------------------------------------------

  predicate Shaped(img: Image) {
    && SupportedSize(img.segmentSize)
    && 0 < |img.files| == |img.index|
    && |img.files[|img.files| - 1]| == img.segmentSize
    && SEGMENT_HEADER_SIZE <= img.writePosition <= img.segmentSize
  }

  function RollOver(img: Image): (r: Image)
    requires Shaped(img)
    ensures Shaped(r)
  {
    var id := |img.files| + 1;
    img.(files := img.files + [FreshFile(id, img.next, img.segmentSize)],
         index := img.index + [InfoFor(id, img.next, [])],
         writePosition := SEGMENT_HEADER_SIZE)
  }

  function StoreRecord(img: Image, m: Message): (r: Image)
    requires Shaped(img) && img.writePosition + RecordSize(m) <= img.segmentSize
    ensures Shaped(r)
  {
    var last := |img.files| - 1;
    var next := img.next + RecordSize(m);
    var position := img.writePosition + RecordSize(m);
    img.(files := img.files[last := Overwrite(img.files[last], img.writePosition, EncodeRecord(m))],
         index := img.index[last := img.index[last].(endOffset := next, validBytes := position)],
         next := next, writePosition := position, history := img.history + [m])
  }

  /** The image in which the record of an accepted append is stored: the same
      one, or the next segment's when the record does not fit. */
  function Room(img: Image, size: nat): (r: Result<Image>)
    requires Shaped(img) && SEGMENT_HEADER_SIZE + size <= img.segmentSize
    ensures r.Ok? ==> Shaped(r.value) && r.value.writePosition + size <= img.segmentSize
    ensures r.Ok? ==> r.value.segmentSize == img.segmentSize
  {
    if img.writePosition <= img.segmentSize - size then Ok(img)
    else if |img.files| >= MAXIMUM_SEGMENT_ID then Err(SegmentIdsExhausted)
    else Ok(RollOver(img))
  }

  /** The size checks of `append`, then room for the record. */
  function Admit(img: Image, payload: seq<byte>): (r: Result<Image>)
    requires Shaped(img)
    ensures r.Ok? ==> Shaped(r.value) && r.value.segmentSize == img.segmentSize
    ensures r.Ok? ==> r.value.writePosition + RECORD_HEADER_SIZE + |payload| <= img.segmentSize
  {
    var size := RECORD_HEADER_SIZE + |payload|;
    if |payload| >= U32_LIMIT then Err(PayloadTooLong)
    else if size > img.segmentSize - SEGMENT_HEADER_SIZE then Err(RecordTooLarge)
    else if img.next + size >= U64_LIMIT then Err(OffsetSpaceExhausted)
    else Room(img, size)
  }

  function Append(img: Image, payload: seq<byte>, timestampNs: nat): (r: Result<Image>)
    requires Shaped(img)
  {
    var ready :- Admit(img, payload);
    Ok(StoreRecord(ready, Message(img.next, timestampNs, payload)))
  }

  // ---- What an image represents -----------------------------------------------

  function Flatten(parts: seq<seq<Message>>): seq<Message> {
    if parts == [] then [] else parts[0] + Flatten(parts[1..])
  }

  /** Segment `id` on, the files hold `parts` one after the other and the index
      says so; the offsets tile the space from `base`. */
  ghost predicate Tiled(files: seq<seq<byte>>, index: seq<SegmentInfo>, parts: seq<seq<Message>>,
                        id: nat, base: nat, segmentSize: nat)
    decreases |parts|
  {
    && |files| == |index| == |parts|
    && (parts == [] ||
        (&& Holds(files[0], id, base, parts[0], segmentSize)
         && index[0] == InfoFor(id, base, parts[0])
         && Tiled(files[1..], index[1..], parts[1..], id + 1, base + Size(parts[0]), segmentSize)))
  }

  ghost predicate Represents(img: Image, parts: seq<seq<Message>>) {
    && Shaped(img)
    && 0 < |parts| <= MAXIMUM_SEGMENT_ID
    && Tiled(img.files, img.index, parts, 1, 0, img.segmentSize)
    && img.next == Size(Flatten(parts)) < U64_LIMIT
    && img.writePosition == SEGMENT_HEADER_SIZE + Size(parts[|parts| - 1])
    && img.history == Flatten(parts)
  }

  lemma {:induction false} TiledConcat(fa: seq<seq<byte>>, fb: seq<seq<byte>>,
                                       ia: seq<SegmentInfo>, ib: seq<SegmentInfo>,
                                       pa: seq<seq<Message>>, pb: seq<seq<Message>>,
                                       id: nat, base: nat, segmentSize: nat)
    requires |fa| == |ia| == |pa|
    ensures Tiled(fa + fb, ia + ib, pa + pb, id, base, segmentSize)
            <==> Tiled(fa, ia, pa, id, base, segmentSize)
                 && Tiled(fb, ib, pb, id + |pa|, base + Size(Flatten(pa)), segmentSize)
    decreases |pa|
  {
    hide Holds;
    if pa == [] {
      assert fa + fb == fb && ia + ib == ib && pa + pb == pb;
    } else {
      TiledConcat(fa[1..], fb, ia[1..], ib, pa[1..], pb, id + 1, base + Size(pa[0]), segmentSize);
      assert (fa + fb)[1..] == fa[1..] + fb && (ia + ib)[1..] == ia[1..] + ib && (pa + pb)[1..] == pa[1..] + pb;
      SizeConcat(pa[0], Flatten(pa[1..]));
    }
  }

  lemma TiledCons(files: seq<seq<byte>>, index: seq<SegmentInfo>, parts: seq<seq<Message>>, id: nat, base: nat,
                  segmentSize: nat, file: seq<byte>, part: seq<Message>)
    requires Tiled(files, index, parts, id + 1, base + Size(part), segmentSize)
    requires Holds(file, id, base, part, segmentSize)
    ensures Tiled([file] + files, [InfoFor(id, base, part)] + index, [part] + parts, id, base, segmentSize)
  {
    hide Holds, Size;
    ConsTail(file, files);
    ConsTail(InfoFor(id, base, part), index);
    ConsTail(part, parts);
  }

  lemma ConsTail<T>(x: T, rest: seq<T>)
    ensures ([x] + rest)[0] == x && ([x] + rest)[1..] == rest
  {}

  lemma FlattenCons(part: seq<Message>, parts: seq<seq<Message>>)
    ensures Flatten([part] + parts) == part + Flatten(parts)
    ensures Size(Flatten([part] + parts)) == Size(part) + Size(Flatten(parts))
  {
    hide Size;
    ConsTail(part, parts);
    SizeConcat(part, Flatten(parts));
  }

  lemma {:induction false} FlattenConcat(a: seq<seq<Message>>, b: seq<seq<Message>>)
    ensures Flatten(a + b) == Flatten(a) + Flatten(b)
  {
    if a == [] {
      assert a + b == b;
    } else {
      FlattenConcat(a[1..], b);
      assert (a + b)[1..] == a[1..] + b;
      Assoc(a[0], Flatten(a[1..]), Flatten(b));
    }
  }

  lemma FlattenOne(part: seq<Message>)
    ensures Flatten([part]) == part
  {
    assert Flatten([part]) == part + Flatten([part][1..]);
    assert part + [] == part;
  }

  // ---- Recovery rebuilds what is represented ---------------------------------

  /** Put already scanned segments in front of the result for the later ones. */
  function AddAll(files: seq<seq<byte>>, index: seq<SegmentInfo>, history: seq<Message>,
                  rest: Result<Scanned>): Result<Scanned> {
    match rest
    case Err(e) => Err(e)
    case Ok(t) => Ok(Scanned(files + t.files, index + t.index, history + t.history, t.end))
  }

  lemma AddAllCons(file: seq<byte>, files: seq<seq<byte>>, id: nat, base: nat, index: seq<SegmentInfo>,
                   part: seq<Message>, history: seq<Message>, rest: Result<Scanned>)
    ensures AddSegment(id, base, Segment(file, part), AddAll(files, index, history, rest))
            == AddAll([file] + files, [InfoFor(id, base, part)] + index, part + history, rest)
  {
    if rest.Ok? {
      Assoc([file], files, rest.value.files);
      Assoc([InfoFor(id, base, part)], index, rest.value.index);
      Assoc(part, history, rest.value.history);
    }
  }

  /** The scan passes over tiled segments unchanged, with the index and messages
      they represent, and goes on with what follows. */
  lemma {:induction false} ScanTiledThen(files: seq<seq<byte>>, index: seq<SegmentInfo>, parts: seq<seq<Message>>,
                                         id: nat, base: nat, segmentSize: nat, rest: seq<SegmentFile>)
    requires Tiled(files, index, parts, id, base, segmentSize)
    ensures ScanFrom(ListingFrom(files, id) + rest, id, base, segmentSize)
            == AddAll(files, index, Flatten(parts),
                      ScanFrom(rest, id + |files|, base + Size(Flatten(parts)), segmentSize))
    decreases |parts|
  {
    hide Holds, ScanSegment, ListingFrom, InfoFor, ScanFrom, Flatten, Size, AddSegment, AddAll;
    var tail := ScanFrom(rest, id + |files|, base + Size(Flatten(parts)), segmentSize);
    if parts == [] {
      ListingNil(files, id);
      TiledNil(id, base, segmentSize);
      AddAllNil(tail);
      assert [] + rest == rest;
    } else {
      var listing := ListingFrom(files, id) + rest;
      ScanHeld(files[0], id, |listing| == 1, base, parts[0], segmentSize);
      ScanTiledThen(files[1..], index[1..], parts[1..], id + 1, base + Size(parts[0]), segmentSize, rest);
      ListingCons(files, id);
      assert listing[1..] == ListingFrom(files[1..], id + 1) + rest;
      ScanFromCons(listing, id, base, segmentSize, Segment(files[0], parts[0]));
      AddAllCons(files[0], files[1..], id, base, index[1..], parts[0], Flatten(parts[1..]), tail);
      FlattenCons(parts[0], parts[1..]);
      SplitFirst(files);
      SplitFirst(index);
      SplitFirst(parts);
    }
  }

  lemma AddAllNil(rest: Result<Scanned>)
    ensures AddAll([], [], [], rest) == rest
  {
    if rest.Ok? {
      assert [] + rest.value.files == rest.value.files && [] + rest.value.index == rest.value.index;
      assert [] + rest.value.history == rest.value.history;
    }
  }

  lemma ScanTiled(files: seq<seq<byte>>, index: seq<SegmentInfo>, parts: seq<seq<Message>>,
                  id: nat, base: nat, segmentSize: nat)
    requires Tiled(files, index, parts, id, base, segmentSize)
    ensures ScanFrom(ListingFrom(files, id), id, base, segmentSize)
            == Ok(Scanned(files, index, Flatten(parts), base + Size(Flatten(parts))))
  {
    hide Tiled, ListingFrom, ScanFrom, Flatten, Size;
    ScanTiledThen(files, index, parts, id, base, segmentSize, []);
    ScanFromNil(id + |files|, base + Size(Flatten(parts)), segmentSize);
    assert ListingFrom(files, id) + [] == ListingFrom(files, id);
    assert files + [] == files && index + [] == index && Flatten(parts) + [] == Flatten(parts);
  }

  lemma SplitFirst<T>(s: seq<T>)
    requires s != []
    ensures s == [s[0]] + s[1..]
  {}

  lemma ListingNil(files: seq<seq<byte>>, id: nat)
    requires files == []
    ensures ListingFrom(files, id) == []
  {}

  lemma ListingCons(files: seq<seq<byte>>, id: nat)
    requires files != []
    ensures ListingFrom(files, id)[0] == SegmentFile(id, files[0])
    ensures ListingFrom(files, id)[1..] == ListingFrom(files[1..], id + 1)
  {}

  /** Close and reopen: recovery of a represented image rebuilds that very image,
      files, index, offsets, write position and messages. */
  lemma ReopenRestores(img: Image, parts: seq<seq<Message>>)
    requires Represents(img, parts)
    ensures Recover(Listing(img.files), img.segmentSize) == Ok(img)
  {
    hide Holds, ScanFrom, Tiled;
    TiledLengths(img.files, img.index, parts, 1, 0, img.segmentSize);
    ScanTiled(img.files, img.index, parts, 1, 0, img.segmentSize);
    var last := |img.files| - 1;
    TiledLast(img.files, img.index, parts, last, 1, 0, img.segmentSize);
    assert Extended(img.files[last], img.segmentSize) == img.files[last];
    SetSame(img.files, last);
  }

  lemma TiledLengths(files: seq<seq<byte>>, index: seq<SegmentInfo>, parts: seq<seq<Message>>,
                     id: nat, base: nat, segmentSize: nat)
    requires Tiled(files, index, parts, id, base, segmentSize)
    ensures |files| == |index| == |parts|
  {}

  lemma TiledOne(file: seq<byte>, info: SegmentInfo, part: seq<Message>, id: nat, base: nat, segmentSize: nat)
    ensures Tiled([file], [info], [part], id, base, segmentSize)
            <==> Holds(file, id, base, part, segmentSize) && info == InfoFor(id, base, part)
  {
    hide Holds;
  }

  /** A tiling by one more segment. */
  lemma TiledSnoc(files: seq<seq<byte>>, index: seq<SegmentInfo>, parts: seq<seq<Message>>, id: nat, base: nat,
                  segmentSize: nat, file: seq<byte>, info: SegmentInfo, part: seq<Message>)
    requires |files| == |index| == |parts|
    ensures var start := base + Size(Flatten(parts));
            Tiled(files + [file], index + [info], parts + [part], id, base, segmentSize)
            <==> Tiled(files, index, parts, id, base, segmentSize)
                 && Holds(file, id + |parts|, start, part, segmentSize)
                 && info == InfoFor(id + |parts|, start, part)
  {
    hide Holds;
    TiledOne(file, info, part, id + |parts|, base + Size(Flatten(parts)), segmentSize);
    TiledConcat(files, [file], index, [info], parts, [part], id, base, segmentSize);
  }

  /** The last tile, seen from the front. */
  lemma TiledLast(files: seq<seq<byte>>, index: seq<SegmentInfo>, parts: seq<seq<Message>>, n: nat,
                  id: nat, base: nat, segmentSize: nat)
    requires |files| == |index| == |parts| == n + 1
    requires Tiled(files, index, parts, id, base, segmentSize)
    ensures Tiled(files[..n], index[..n], parts[..n], id, base, segmentSize)
    ensures Holds(files[n], id + n, base + Size(Flatten(parts[..n])), parts[n], segmentSize)
    ensures index[n] == InfoFor(id + n, base + Size(Flatten(parts[..n])), parts[n])
  {
    hide *;
    SplitLast(files);
    SplitLast(index);
    SplitLast(parts);
    TiledSnoc(files[..n], index[..n], parts[..n], id, base, segmentSize, files[n], index[n], parts[n]);
  }

  /** Changing only the last segment keeps a tiling when the new one fits. */
  lemma ReplaceLast(files: seq<seq<byte>>, index: seq<SegmentInfo>, parts: seq<seq<Message>>, n: nat, segmentSize: nat,
                    file: seq<byte>, info: SegmentInfo, part: seq<Message>)
    requires |files| == |index| == |parts| == n + 1
    requires Tiled(files[..n], index[..n], parts[..n], 1, 0, segmentSize)
    requires Holds(file, 1 + n, Size(Flatten(parts[..n])), part, segmentSize)
    requires info == InfoFor(1 + n, Size(Flatten(parts[..n])), part)
    ensures Tiled(files[n := file], index[n := info], parts[n := part], 1, 0, segmentSize)
  {
    hide *;
    SetLast(files, file);
    SetLast(index, info);
    SetLast(parts, part);
    TiledSnoc(files[..n], index[..n], parts[..n], 1, 0, segmentSize, file, info, part);
  }

  lemma SetLast<T>(s: seq<T>, x: T)
    requires s != []
    ensures s[|s| - 1 := x] == s[..|s| - 1] + [x]
  {}

  lemma SplitLast<T>(s: seq<T>)
    requires s != []
    ensures s == s[..|s| - 1] + [s[|s| - 1]]
  {}

  // ---- Recovery is sound ----------------------------------------------------------

  lemma TiledNil(id: nat, base: nat, segmentSize: nat)
    ensures Tiled([], [], [], id, base, segmentSize) && Flatten([]) == [] && Size(Flatten([])) == 0
  {}

  /** A successful scan of any listing leaves tiled files. */
  lemma {:induction false} ScanFromSound(listing: seq<SegmentFile>, id: nat, offset: nat, segmentSize: nat)
    returns (parts: seq<seq<Message>>)
    requires offset < U64_LIMIT && ScanFrom(listing, id, offset, segmentSize).Ok?
    ensures var r := ScanFrom(listing, id, offset, segmentSize).value;
            && |parts| == |listing|
            && Tiled(r.files, r.index, parts, id, offset, segmentSize)
            && r.history == Flatten(parts)
            && r.end == offset + Size(Flatten(parts)) < U64_LIMIT
    decreases |listing|
  {
    hide ScanSegment, Holds, ScanFrom, Tiled, Flatten, Size, InfoFor;
    if listing == [] {
      parts := [];
      ScanFromNil(id, offset, segmentSize);
      TiledNil(id, offset, segmentSize);
    } else {
      ScanFromStep(listing, id, offset, segmentSize);
      var s := ScanSegment(listing[0].bytes, id, |listing| == 1, offset, segmentSize).value;
      ScanNormalises(listing[0].bytes, id, |listing| == 1, offset, segmentSize);
      HoldsEnd(s.file, id, offset, s.messages, segmentSize);
      var rest := ScanFromSound(listing[1..], id + 1, offset + Size(s.messages), segmentSize);
      var t := ScanFrom(listing[1..], id + 1, offset + Size(s.messages), segmentSize).value;
      parts := [s.messages] + rest;
      TiledCons(t.files, t.index, rest, id, offset, segmentSize, s.file, s.messages);
      FlattenCons(s.messages, rest);
    }
  }

  /** ... with consecutive ids, and only the newest file may have changed. */
  lemma {:induction false} ScanFromKeeps(listing: seq<SegmentFile>, id: nat, offset: nat, segmentSize: nat, i: nat)
    requires offset < U64_LIMIT && ScanFrom(listing, id, offset, segmentSize).Ok? && i < |listing|
    ensures listing[i].id == id + i
    ensures i < |listing| - 1 ==> ScanFrom(listing, id, offset, segmentSize).value.files[i] == listing[i].bytes
    decreases |listing|
  {
    hide ScanSegment, Holds, ScanFrom, Size;
    ScanFromStep(listing, id, offset, segmentSize);
    var s := ScanSegment(listing[0].bytes, id, |listing| == 1, offset, segmentSize).value;
    ScanNormalises(listing[0].bytes, id, |listing| == 1, offset, segmentSize);
    HoldsEnd(s.file, id, offset, s.messages, segmentSize);
    if i > 0 {
      ScanFromKeeps(listing[1..], id + 1, offset + Size(s.messages), segmentSize, i - 1);
    }
  }

  lemma HoldsEnd(file: seq<byte>, id: nat, base: nat, messages: seq<Message>, segmentSize: nat)
    requires Holds(file, id, base, messages, segmentSize)
    ensures base + Size(messages) < U64_LIMIT
    ensures SEGMENT_HEADER_SIZE + Size(messages) <= |file| <= segmentSize
  {}

  /** Stretching the newest tile keeps the tiling. */
  lemma StretchTiled(files: seq<seq<byte>>, index: seq<SegmentInfo>, parts: seq<seq<Message>>, n: nat, segmentSize: nat)
    requires |files| == |index| == |parts| == n + 1 && Tiled(files, index, parts, 1, 0, segmentSize)
    ensures Tiled(files[n := Extended(files[n], segmentSize)], index, parts, 1, 0, segmentSize)
    ensures |Extended(files[n], segmentSize)| == segmentSize
    ensures index[n].validBytes == SEGMENT_HEADER_SIZE + Size(parts[n]) <= segmentSize
  {
    hide Holds, Tiled, Flatten, Size, Extended;
    var base := Size(Flatten(parts[..n]));
    TiledLast(files, index, parts, n, 1, 0, segmentSize);
    HoldsExtended(files[n], 1 + n, base, parts[n], segmentSize);
    HoldsEnd(files[n], 1 + n, base, parts[n], segmentSize);
    ReplaceLast(files, index, parts, n, segmentSize, Extended(files[n], segmentSize), index[n], parts[n]);
    SetSame(index, n);
    SetSame(parts, n);
  }

  lemma SetSame<T>(s: seq<T>, n: nat)
    requires n < |s|
    ensures s[n := s[n]] == s
  {}

  /** The image of a successful scan represents what was scanned. */
  lemma StretchRepresents(listing: seq<SegmentFile>, segmentSize: nat, r: Scanned, parts: seq<seq<Message>>)
    requires SupportedSize(segmentSize) && 0 < |listing| == |parts| <= MAXIMUM_SEGMENT_ID
    requires ScanFrom(listing, 1, 0, segmentSize) == Ok(r)
    requires Tiled(r.files, r.index, parts, 1, 0, segmentSize)
    requires r.history == Flatten(parts) && r.end == Size(Flatten(parts)) < U64_LIMIT
    ensures Recover(listing, segmentSize).Ok? && Represents(Recover(listing, segmentSize).value, parts)
  {
    hide ScanFrom, Tiled, Flatten, Size, Extended;
    TiledLengths(r.files, r.index, parts, 1, 0, segmentSize);
    StretchTiled(r.files, r.index, parts, |listing| - 1, segmentSize);
  }

  /** Whatever the directory held, an image that recovery returns represents a
      log; every older file is as it was found. */
  lemma RecoverSound(listing: seq<SegmentFile>, segmentSize: nat) returns (parts: seq<seq<Message>>)
    requires SupportedSize(segmentSize) && Recover(listing, segmentSize).Ok?
    requires forall f :: f in listing ==> f.id <= MAXIMUM_SEGMENT_ID
    ensures Represents(Recover(listing, segmentSize).value, parts)
    ensures forall i :: 0 <= i < |listing| - 1 ==>
              i < |Recover(listing, segmentSize).value.files| &&
              Recover(listing, segmentSize).value.files[i] == listing[i].bytes
  {
    hide Holds, ScanFrom, Tiled, Represents;
    if listing == [] {
      parts := [[]];
      CreatedRepresents(segmentSize);
    } else {
      parts := ScanFromSound(listing, 1, 0, segmentSize);
      forall i | 0 <= i < |listing|
        ensures listing[i].id == 1 + i
        ensures i < |listing| - 1 ==> ScanFrom(listing, 1, 0, segmentSize).value.files[i] == listing[i].bytes
      {
        ScanFromKeeps(listing, 1, 0, segmentSize, i);
      }
      assert listing[|listing| - 1] in listing;
      StretchRepresents(listing, segmentSize, ScanFrom(listing, 1, 0, segmentSize).value, parts);
    }
  }

  /** An empty directory becomes one empty segment. */
  lemma CreatedRepresents(segmentSize: nat)
    requires SupportedSize(segmentSize)
    ensures Recover([], segmentSize).Ok? && Represents(Recover([], segmentSize).value, [[]])
  {
    hide Holds, SegmentHeader, Tiled;
    var img := Recover([], segmentSize).value;
    FreshHolds(1, 0, segmentSize);
    FlattenOne([]);
    TiledOne(img.files[0], img.index[0], [], 1, 0, segmentSize);
    assert img.files == [img.files[0]] && img.index == [img.index[0]];
  }

  // ---- Append keeps the representation ---------------------------------------

  lemma FlattenSplit(parts: seq<seq<Message>>, n: nat, part: seq<Message>)
    requires n + 1 == |parts|
    ensures Flatten(parts) == Flatten(parts[..n]) + parts[n]
    ensures Flatten(parts[n := part]) == Flatten(parts[..n]) + part
  {
    hide Flatten;
    SplitLast(parts);
    SetLast(parts, part);
    FlattenConcat(parts[..n], [parts[n]]);
    FlattenConcat(parts[..n], [part]);
    FlattenOne(parts[n]);
    FlattenOne(part);
  }

  lemma RollRepresents(img: Image, parts: seq<seq<Message>>)
    requires Represents(img, parts) && |parts| < MAXIMUM_SEGMENT_ID
    ensures Represents(RollOver(img), parts + [[]])
  {
    hide Holds, Tiled, Flatten, SegmentHeader, Size;
    TiledLengths(img.files, img.index, parts, 1, 0, img.segmentSize);
    var file := FreshFile(1 + |parts|, img.next, img.segmentSize);
    FreshHolds(1 + |parts|, img.next, img.segmentSize);
    TiledSnoc(img.files, img.index, parts, 1, 0, img.segmentSize, file, InfoFor(1 + |parts|, img.next, []), []);
    FlattenConcat(parts, [[]]);
    FlattenOne([]);
    assert Flatten(parts) + [] == Flatten(parts);
    SizeNil();
  }

  lemma SizeNil()
    ensures Size([]) == 0
  {}

  lemma StoreRepresents(img: Image, parts: seq<seq<Message>>, m: Message)
    requires Represents(img, parts) && Representable(m) && m.offset == img.next
    requires img.writePosition + RecordSize(m) <= img.segmentSize && img.next + RecordSize(m) < U64_LIMIT
    ensures Represents(StoreRecord(img, m), parts[|parts| - 1 := parts[|parts| - 1] + [m]])
  {
    hide Holds, Tiled, Flatten, Size, EncodeRecord, RecordSize, Representable, Overwrite;
    TiledLengths(img.files, img.index, parts, 1, 0, img.segmentSize);
    var n := |parts| - 1;
    var base := Size(Flatten(parts[..n]));
    var part := parts[n] + [m];
    TiledLast(img.files, img.index, parts, n, 1, 0, img.segmentSize);
    FlattenSplit(parts, n, part);
    SizeConcat(Flatten(parts[..n]), parts[n]);
    SizeConcat(Flatten(parts[..n]), part);
    SizeConcat(parts[n], [m]);
    EncodeOne(m);
    Assoc(Flatten(parts[..n]), parts[n], [m]);
    HoldsAppend(img.files[n], 1 + n, base, parts[n], img.segmentSize, m);
    var after := StoreRecord(img, m);
    ReplaceLast(img.files, img.index, parts, n, img.segmentSize, after.files[n], after.index[n], part);
  }

  /** Which segment an accepted record goes to. */
  function PartsReady(img: Image, size: nat, parts: seq<seq<Message>>): seq<seq<Message>> {
    if img.writePosition <= img.segmentSize - size then parts else parts + [[]]
  }

  lemma AdmitRepresents(img: Image, parts: seq<seq<Message>>, payload: seq<byte>)
    requires Represents(img, parts) && Admit(img, payload).Ok?
    ensures var ready := Admit(img, payload).value;
            && Represents(ready, PartsReady(img, RECORD_HEADER_SIZE + |payload|, parts))
            && ready.next == img.next && ready.history == img.history
            && ready.next + RECORD_HEADER_SIZE + |payload| < U64_LIMIT && |payload| < U32_LIMIT
  {
    hide Holds, Tiled, Flatten, Size, FreshFile, InfoFor;
    TiledLengths(img.files, img.index, parts, 1, 0, img.segmentSize);
    if img.writePosition > img.segmentSize - (RECORD_HEADER_SIZE + |payload|) {
      RollRepresents(img, parts);
    }
  }

  /** An accepted append puts the record at `next`, adds exactly it to the log,
      and keeps the image a representation of the log. */
  lemma AppendRepresents(img: Image, parts: seq<seq<Message>>, payload: seq<byte>, timestampNs: nat)
    returns (after: seq<seq<Message>>)
    requires Represents(img, parts) && timestampNs < U64_LIMIT && Append(img, payload, timestampNs).Ok?
    ensures var r := Append(img, payload, timestampNs).value;
            && Represents(r, after)
            && r.history == img.history + [Message(img.next, timestampNs, payload)]
            && r.next == img.next + RECORD_HEADER_SIZE + |payload|
            && r.segmentSize == img.segmentSize
  {
    hide Tiled, Holds, Flatten, Size, EncodeRecord, Overwrite, Admit, SegmentHeader;
    AdmitRepresents(img, parts, payload);
    var ready := Admit(img, payload).value;
    var placed := PartsReady(img, RECORD_HEADER_SIZE + |payload|, parts);
    var m := Message(img.next, timestampNs, payload);
    StoreRepresents(ready, placed, m);
    after := placed[|placed| - 1 := placed[|placed| - 1] + [m]];
  }
}
