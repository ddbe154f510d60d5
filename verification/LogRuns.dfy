/** Whole runs of the log: any mix of appends, clean reopens and crashes in the
    middle of an append, from any directory that opens. */
module LogRuns {
  import opened Sequences
  import opened Bytes
  import opened RecordFormat
  import opened SegmentScan
  import opened LogModel
  import opened LogDamage
  import opened TornAppend

  datatype Op =
    | Put(payload: seq<byte>, timestampNs: nat)
    | Reopen
    | Crash(payload: seq<byte>, timestampNs: nat, stores: nat)  // dies after that many stores of a Put

  predicate ClockOk(op: Op) {
    op.Reopen? || op.timestampNs < U64_LIMIT
  }

  /** One operation. A rejected append leaves the log as it was. */
  function Step(img: Image, op: Op): (r: Result<Image>)
    requires Shaped(img)
  {
    match op
    case Put(payload, timestampNs) =>
      var r := Append(img, payload, timestampNs);
      if r.Ok? then r else Ok(img)
    case Reopen => Recover(Listing(img.files), img.segmentSize)
    case Crash(payload, timestampNs, stores) =>
      var ready := Admit(img, payload);
      if ready.Err? then Recover(Listing(img.files), img.segmentSize)
      else
        var m := Message(img.next, timestampNs, payload);
        AfterCrash(ready.value, m, if stores <= RecordSize(m) then stores else RecordSize(m))
  }

  // ---- When a log opens again -------------------------------------------------------

  /** The one crash after which recovery may refuse: the cut header is taken for a record,
      and the bytes left in the segment reach past the offset space. */
  predicate Stranded(img: Image, m: Message, k: nat) {
    && k > |m.payload| && PartialHeaderPasses(m, k - |m.payload|)
    && img.next + img.segmentSize >= U64_LIMIT + img.writePosition
  }

  /** What a crash inside the header copy leaves from the write position on. */
  function Leftover(img: Image, m: Message, k: nat): seq<byte>
    requires |m.payload| <= k <= RecordSize(m) && img.writePosition + RecordSize(m) <= img.segmentSize
  {
    PartialHeader(m, k - |m.payload|) + m.payload + Zeros(img.segmentSize - img.writePosition - RecordSize(m))
  }

  /** The scan can leave the offset space only where the bytes do. */
  lemma {:induction false} OverflowNeedsRoom(rest: seq<byte>, offset: nat)
    requires ScanBody(rest, offset).verdict == OffsetOverflow
    ensures offset + |rest| >= U64_LIMIT
    decreases |rest|
  {
    hide DecodeRecord, GetLE, AllZero;
    var m := DecodeRecord(rest, offset).value;
    if offset + RecordSize(m) < U64_LIMIT {
      OverflowNeedsRoom(rest[RecordSize(m)..], offset + RecordSize(m));
    }
  }

  /** A crash keeps everything appended before it and leaves a represented log. The next open
      fails exactly when the bytes left behind read on past the offset space, which takes a
      crash that strands the log. */
  lemma CrashKeeps(img: Image, parts: seq<seq<Message>>, m: Message, k: nat) returns (after: seq<seq<Message>>)
    requires Fits(img, parts, m) && k <= RecordSize(m)
    ensures AfterCrash(img, m, k).Err? <==>
              k > |m.payload| && ScanBody(Leftover(img, m, k), img.next).verdict == OffsetOverflow
    ensures AfterCrash(img, m, k).Err? ==> AfterCrash(img, m, k) == Err(OffsetsOverflow) && Stranded(img, m, k)
    ensures AfterCrash(img, m, k).Ok? ==>
              var r := AfterCrash(img, m, k).value;
              && Represents(r, after) && img.history <= r.history && r.segmentSize == img.segmentSize
              && r.next <= img.next + img.segmentSize
  {
    hide Tiled, Holds, Flatten, Size, ListingFrom, ScanFrom, AllZero, Recover, TornFile, ScanBody, EncodeHeader,
         PartialHeader, Zeros, Extended, PartialHeaderPasses, StoreRecord;
    TornAppendIsAtomic(img, parts, m, k);
    if k <= |m.payload| {
      after := parts;
    } else {
      var n, wp := |parts| - 1, img.writePosition;
      NewestFile(img, parts, n);
      TornRest(img.files[n], wp, m, k - |m.payload|);
      var torn := TornFile(img.files[n], wp, m, k);
      var t := ScanBody(torn[wp..], img.next);
      assert DamagedAfter(img.files[n], torn, parts[n], parts[n], img.segmentSize);
      RecoverLatest(img, parts, n, torn, parts[n], t);
      after := parts[n := parts[n] + t.messages];
      FlattenSplit(parts, n, parts[n] + t.messages);
      Assoc(Flatten(parts[..n]), parts[n], t.messages);
      SizeConcat(img.history, t.messages);
      if t.verdict == OffsetOverflow { OverflowNeedsRoom(torn[wp..], img.next); }
    }
  }

  /** The operation is a crash that strands the log. */
  predicate Strands(img: Image, op: Op)
    requires Shaped(img)
  {
    op.Crash? && Admit(img, op.payload).Ok? &&
    var m := Message(img.next, op.timestampNs, op.payload);
    Stranded(Admit(img, op.payload).value, m, if op.stores <= RecordSize(m) then op.stores else RecordSize(m))
  }

  /** Every operation leaves an open, represented log that extends the one before, except a
      crash that strands it. */
  lemma StepKeeps(img: Image, parts: seq<seq<Message>>, op: Op) returns (after: seq<seq<Message>>)
    requires Represents(img, parts) && ClockOk(op)
    ensures Step(img, op).Err? ==> Step(img, op) == Err(OffsetsOverflow) && Strands(img, op)
    ensures Step(img, op).Ok? ==>
              var r := Step(img, op).value;
              && Represents(r, after) && img.history <= r.history && r.segmentSize == img.segmentSize
              && r.next <= img.next + img.segmentSize
  {
    hide Tiled, Flatten, Size, Append, Admit, AfterCrash, Recover, ListingFrom, Stranded;
    match op
    case Put(payload, timestampNs) =>
      if Append(img, payload, timestampNs).Ok? {
        after := AppendRepresents(img, parts, payload, timestampNs);
        AppendFits(img, payload, timestampNs);
      } else {
        after := parts;
      }
    case Reopen =>
      ReopenRestores(img, parts);
      after := parts;
    case Crash(payload, timestampNs, stores) =>
      if Admit(img, payload).Err? {
        ReopenRestores(img, parts);
        after := parts;
      } else {
        AdmitRepresents(img, parts, payload);
        var m := Message(img.next, timestampNs, payload);
        after := CrashKeeps(Admit(img, payload).value, PartsReady(img, RECORD_HEADER_SIZE + |payload|, parts), m,
                            if stores <= RecordSize(m) then stores else RecordSize(m));
      }
  }

  lemma AppendFits(img: Image, payload: seq<byte>, timestampNs: nat)
    requires Shaped(img) && Append(img, payload, timestampNs).Ok?
    ensures RECORD_HEADER_SIZE + |payload| <= img.segmentSize
  {
    hide StoreRecord, Room;
  }

  /** The operations lead from `img` to the open log `r`, or to an open that fails. */
  ghost predicate Run(img: Image, ops: seq<Op>, r: Result<Image>)
    decreases |ops|
  {
    if ops == [] then r == Ok(img)
    else
      && Shaped(img)
      && if Step(img, ops[0]).Err? then r == Step(img, ops[0]) else Run(Step(img, ops[0]).value, ops[1..], r)
  }

  /** One of the operations strands the log it meets. */
  ghost predicate Unlucky(img: Image, ops: seq<Op>)
    decreases |ops|
  {
    && ops != [] && Shaped(img)
    && (Strands(img, ops[0]) || (Step(img, ops[0]).Ok? && Unlucky(Step(img, ops[0]).value, ops[1..])))
  }

  /** The offset space holds what `n` more operations can add at most. */
  predicate Roomy(img: Image, n: nat) { img.next + (n + 1) * img.segmentSize < U64_LIMIT }

  lemma RoomyNext(img: Image, r: Image, n: nat)
    requires Roomy(img, n + 1) && r.segmentSize == img.segmentSize && r.next <= img.next + img.segmentSize
    ensures Roomy(r, n)
  {
    assert (n + 2) * img.segmentSize == (n + 1) * img.segmentSize + img.segmentSize;
  }

  lemma RoomyStep(img: Image, n: nat)
    requires Roomy(img, n)
    ensures img.next + img.segmentSize < U64_LIMIT
  {
    assert (n + 1) * img.segmentSize == n * img.segmentSize + img.segmentSize && n * img.segmentSize >= 0;
  }

  /** Even the largest segment id cannot use up the offset space. */
  predicate SafeSize(segmentSize: nat) { (MAXIMUM_SEGMENT_ID + 1) * segmentSize < U64_LIMIT }

  lemma SumStep(n: nat, size: nat, first: nat, rest: nat)
    requires first <= size && rest <= n * size
    ensures first + rest <= (n + 1) * size
  {
    assert (n + 1) * size == n * size + size;
  }

  /** Each segment holds less than its size. */
  lemma {:induction false} SizeBound(files: seq<seq<byte>>, index: seq<SegmentInfo>, parts: seq<seq<Message>>,
                                     id: nat, base: nat, segmentSize: nat)
    requires Tiled(files, index, parts, id, base, segmentSize)
    ensures Size(Flatten(parts)) <= |parts| * segmentSize
    decreases |parts|
  {
    hide Holds, Size;
    if parts == [] {
      TiledNil(id, base, segmentSize);
    } else {
      HoldsEnd(files[0], id, base, parts[0], segmentSize);
      SizeBound(files[1..], index[1..], parts[1..], id + 1, base + Size(parts[0]), segmentSize);
      SizeConcat(parts[0], Flatten(parts[1..]));
      SumStep(|parts| - 1, segmentSize, Size(parts[0]), Size(Flatten(parts[1..])));
    }
  }

  /** So the next offset of every log is bounded by the segment size alone. */
  lemma NextBound(img: Image, parts: seq<seq<Message>>)
    requires Represents(img, parts)
    ensures img.next <= MAXIMUM_SEGMENT_ID * img.segmentSize
    ensures SafeSize(img.segmentSize) ==> img.next + img.segmentSize < U64_LIMIT
  {
    hide Tiled, Flatten, Size, Shaped;
    SizeBound(img.files, img.index, parts, 1, 0, img.segmentSize);
    Scale(|parts|, MAXIMUM_SEGMENT_ID, img.segmentSize);
    SumStep(MAXIMUM_SEGMENT_ID, img.segmentSize, img.segmentSize, MAXIMUM_SEGMENT_ID * img.segmentSize);
  }

  lemma Scale(n: nat, max: nat, size: nat)
    requires n <= max
    ensures n * size <= max * size
  {}

  lemma NotStranded(img: Image, parts: seq<seq<Message>>, op: Op)
    requires Represents(img, parts) && img.next + img.segmentSize < U64_LIMIT
    ensures !Strands(img, op)
  {
    hide Tiled, Flatten, Size, PartialHeaderPasses;
    if op.Crash? && Admit(img, op.payload).Ok? { AdmitRepresents(img, parts, op.payload); }
  }

  /** Every run keeps the representation and only extends the messages, and ends in an open log
      unless one of its crashes strands it. With a safe segment size none does, however long the
      run; nor does one with room in the offset space. */
  lemma {:induction false} RunKeeps(img: Image, parts: seq<seq<Message>>, ops: seq<Op>, r: Result<Image>)
    returns (after: seq<seq<Message>>)
    requires Represents(img, parts) && Run(img, ops, r) && forall op :: op in ops ==> ClockOk(op)
    ensures r.Ok? ==>
              Represents(r.value, after) && img.history <= r.value.history && r.value.segmentSize == img.segmentSize
    ensures r.Err? ==> r == Err(OffsetsOverflow) && Unlucky(img, ops)
    ensures SafeSize(img.segmentSize) || Roomy(img, |ops|) ==> r.Ok?
    decreases |ops|
  {
    hide Represents, Step, ClockOk, Strands, Roomy, SafeSize;
    after := parts;
    if ops != [] {
      assert ops[0] in ops;
      var mid := StepKeeps(img, parts, ops[0]);
      if Roomy(img, |ops|) {
        RoomyStep(img, |ops|);
        NotStranded(img, parts, ops[0]);
      }
      if SafeSize(img.segmentSize) {
        NextBound(img, parts);
        NotStranded(img, parts, ops[0]);
      }
      if Step(img, ops[0]).Ok? {
        assert forall op :: op in ops[1..] ==> op in ops;
        var next := Step(img, ops[0]).value;
        if Roomy(img, |ops|) { RoomyNext(img, next, |ops| - 1); }
        after := RunKeeps(next, mid, ops[1..], r);
      }
    }
  }

  /** Every list of operations has a run. */
  lemma {:induction false} RunExists(img: Image, parts: seq<seq<Message>>, ops: seq<Op>) returns (r: Result<Image>)
    requires Represents(img, parts) && forall op :: op in ops ==> ClockOk(op)
    ensures Run(img, ops, r)
    decreases |ops|
  {
    hide Tiled, Step, ClockOk, Strands, Flatten, Size;
    r := Ok(img);
    if ops != [] {
      assert ops[0] in ops;
      var mid := StepKeeps(img, parts, ops[0]);
      r := Step(img, ops[0]);
      if r.Ok? {
        assert forall op :: op in ops[1..] ==> op in ops;
        r := RunExists(Step(img, ops[0]).value, mid, ops[1..]);
      }
    }
  }

  /** From any directory that opens, after any run, closing and reopening restores the very
      same log and nothing that was recovered or appended is lost; the run itself fails only
      where a crash strands the log, and never with a safe segment size or while the offset
      space has room. */
  lemma ReopenAfterAnyRun(listing: seq<SegmentFile>, segmentSize: nat, ops: seq<Op>, r: Result<Image>)
    requires SupportedSize(segmentSize) && Recover(listing, segmentSize).Ok?
    requires forall f :: f in listing ==> f.id <= MAXIMUM_SEGMENT_ID
    requires forall op :: op in ops ==> ClockOk(op)
    requires Run(Recover(listing, segmentSize).value, ops, r)
    ensures r.Ok? ==> Recover(Listing(r.value.files), segmentSize) == r
    ensures r.Ok? ==> Recover(listing, segmentSize).value.history <= r.value.history
    ensures r.Err? ==> r == Err(OffsetsOverflow) && Unlucky(Recover(listing, segmentSize).value, ops)
    ensures SafeSize(segmentSize) ==> r.Ok?
    ensures Recover(listing, segmentSize).value.next + (|ops| + 1) * segmentSize < U64_LIMIT ==> r.Ok?
  {
    hide Run, Represents, Recover, ClockOk, Listing, Unlucky, SafeSize;
    var parts := RecoverSound(listing, segmentSize);
    RecoverSize(listing, segmentSize);
    var after := RunKeeps(Recover(listing, segmentSize).value, parts, ops, r);
    if r.Ok? { ReopenRestores(r.value, after); }
  }

  /** The segment sizes the server accepts: 73 bytes to 1 GiB. */
  predicate ServerSize(segmentSize: nat) { 73 <= segmentSize <= 0x4000_0000 }

  /** For the server: every list of appends, reopens and crashes, however long, ends in an open
      log that a reopen restores, and loses nothing. */
  lemma ServerRunsEndOpen(listing: seq<SegmentFile>, segmentSize: nat, ops: seq<Op>) returns (r: Result<Image>)
    requires ServerSize(segmentSize) && Recover(listing, segmentSize).Ok?
    requires forall f :: f in listing ==> f.id <= MAXIMUM_SEGMENT_ID
    requires forall op :: op in ops ==> ClockOk(op)
    ensures Run(Recover(listing, segmentSize).value, ops, r)
    ensures r.Ok? && Recover(Listing(r.value.files), segmentSize) == r
    ensures Recover(listing, segmentSize).value.history <= r.value.history
  {
    hide Run, Represents, Recover, ClockOk, Listing, Unlucky;
    var parts := RecoverSound(listing, segmentSize);
    r := RunExists(Recover(listing, segmentSize).value, parts, ops);
    ReopenAfterAnyRun(listing, segmentSize, ops, r);
  }

  lemma RecoverSize(listing: seq<SegmentFile>, segmentSize: nat)
    requires SupportedSize(segmentSize) && Recover(listing, segmentSize).Ok?
    ensures Recover(listing, segmentSize).value.segmentSize == segmentSize
  {
    hide ScanFrom;
  }

  /** Recovery is idempotent on every directory. */
  lemma RecoverTwice(listing: seq<SegmentFile>, segmentSize: nat)
    requires SupportedSize(segmentSize) && Recover(listing, segmentSize).Ok?
    requires forall f :: f in listing ==> f.id <= MAXIMUM_SEGMENT_ID
    ensures Recover(Listing(Recover(listing, segmentSize).value.files), segmentSize) == Recover(listing, segmentSize)
  {
    hide Recover, ListingFrom, ScanFrom;
    ReopenAfterAnyRun(listing, segmentSize, [], Recover(listing, segmentSize));
  }

  // ---- Offsets ------------------------------------------------------------------

  /** The segments tile the offset space, in every represented image. */
  lemma SegmentsTile(img: Image, parts: seq<seq<Message>>, i: nat)
    requires Represents(img, parts) && i < |parts|
    ensures |img.index| == |parts| && img.index[i].id == i + 1
    ensures img.index[i].validBytes - SEGMENT_HEADER_SIZE == img.index[i].endOffset - img.index[i].firstOffset
            == Size(parts[i])
    ensures img.index[i].firstOffset == if i == 0 then 0 else img.index[i - 1].endOffset
    ensures i == |parts| - 1 ==> img.index[i].endOffset == img.next && img.index[i].validBytes == img.writePosition
  {
    hide Tiled, Flatten, Holds, Size;
    TiledLengths(img.files, img.index, parts, 1, 0, img.segmentSize);
    TiledAt(img.files, img.index, parts, i, img.segmentSize);
    assert parts[..i + 1][..i] == parts[..i] && parts[..i + 1][i] == parts[i];
    FlattenSplit(parts[..i + 1], i, parts[i]);
    SizeConcat(Flatten(parts[..i]), parts[i]);
    assert parts[..|parts|] == parts;
    if i == 0 {
      TiledNil(1, 0, img.segmentSize);
      assert parts[..0] == [];
    } else {
      TiledAt(img.files, img.index, parts, i - 1, img.segmentSize);
      assert parts[..i][..i - 1] == parts[..i - 1] && parts[..i][i - 1] == parts[i - 1];
      FlattenSplit(parts[..i], i - 1, parts[i - 1]);
      SizeConcat(Flatten(parts[..i - 1]), parts[i - 1]);
    }
  }

  /** The messages a run of accepted payloads becomes: each offset is the sum of
      the sizes before it. */
  function Stamped(puts: seq<(seq<byte>, nat)>, offset: nat): seq<Message> {
    if puts == [] then []
    else
      var m := Message(offset, puts[0].1, puts[0].0);
      [m] + Stamped(puts[1..], offset + RecordSize(m))
  }

  /** All appends of the run are accepted, ending in `r`. */
  ghost predicate AllAccepted(img: Image, puts: seq<(seq<byte>, nat)>, r: Image)
    decreases |puts|
  {
    if puts == [] then r == img
    else
      && Shaped(img) && puts[0].1 < U64_LIMIT
      && Append(img, puts[0].0, puts[0].1).Ok?
      && AllAccepted(Append(img, puts[0].0, puts[0].1).value, puts[1..], r)
  }

  /** What an accepted run adds depends on the payloads alone. */
  lemma {:induction false} AcceptedRun(img: Image, parts: seq<seq<Message>>, puts: seq<(seq<byte>, nat)>, r: Image)
    requires Represents(img, parts) && AllAccepted(img, puts, r)
    ensures r.history == img.history + Stamped(puts, img.next)
    ensures r.next == img.next + Size(Stamped(puts, img.next))
    decreases |puts|
  {
    hide Represents, Append;
    if puts == [] {
      assert img.history + [] == img.history;
    } else {
      var after := AppendRepresents(img, parts, puts[0].0, puts[0].1);
      var next := Append(img, puts[0].0, puts[0].1).value;
      AcceptedRun(next, after, puts[1..], r);
      var m := Message(img.next, puts[0].1, puts[0].0);
      Assoc(img.history, [m], Stamped(puts[1..], next.next));
      ConsTail(m, Stamped(puts[1..], next.next));
    }
  }

  /** Two new logs with different segment sizes that accept the same payloads give
      them the same offsets and hold the same messages. */
  lemma OffsetsIgnoreSegmentSize(a: nat, b: nat, puts: seq<(seq<byte>, nat)>, ra: Image, rb: Image)
    requires SupportedSize(a) && SupportedSize(b)
    requires Recover([], a).Ok? && AllAccepted(Recover([], a).value, puts, ra)
    requires Recover([], b).Ok? && AllAccepted(Recover([], b).value, puts, rb)
    ensures ra.history == rb.history == Stamped(puts, 0) && ra.next == rb.next
  {
    hide AllAccepted, Tiled, Stamped, Size, FreshFile;
    CreatedRepresents(a);
    CreatedRepresents(b);
    AcceptedRun(Recover([], a).value, [[]], puts, ra);
    AcceptedRun(Recover([], b).value, [[]], puts, rb);
    assert [] + Stamped(puts, 0) == Stamped(puts, 0);
  }
}
