/** The byte-level loops of the log: header building, record reading, the zero
    test and the copies into the mapped segment, each against its specification. */
module LogBytes {
  import opened Options
  import opened Bytes
  import opened Crc32
  import opened RecordFormat
  import opened SegmentScan
  import opened TornAppend

  /** `record_crc`: the header's covered bytes, then the payload. */
  method RecordChecksum(header: seq<byte>, payload: seq<byte>) returns (c: nat)
    ensures c == RecordCrc(header, payload)
  {
    hide Update, Finish;
    var crc := Crc32Update(SEED, header);
    crc := Crc32Update(crc, payload);
    UpdateConcat(SEED, header, payload);
    c := Finish(crc);
  }

  /** `segment_crc`. */
  method SegmentChecksum(words: seq<byte>) returns (c: nat)
    ensures c == Checksum(words)
  {
    hide Update, Finish;
    var crc := Crc32Update(SEED, words);
    c := Finish(crc);
  }

  /** One more field after those already spelled. */
  method PutNext(header: array<byte>, at: nat, value: nat, width: nat, ghost spelled: seq<byte>)
    requires at + width <= header.Length && header[..at] == spelled
    modifies header
    ensures header[..at + width] == spelled + PutLE(value, width)
    ensures forall k :: at + width <= k < header.Length ==> header[k] == old(header[k])
  {
    hide PutLE;
    ghost var before := header[..];
    Put(header, at, value, width);
    ghost var after := header[..];
    assert before[..at] == spelled;
    PutInto(before, after, at, PutLE(value, width), spelled);
    assert header[..at + width] == after[..at + width];
    forall k | at + width <= k < header.Length ensures header[k] == old(header[k]) {
      assert after[k] == before[k];
    }
  }

  lemma PutInto(before: seq<byte>, after: seq<byte>, at: nat, field: seq<byte>, spelled: seq<byte>)
    requires at + |field| <= |before| && after == before[..at] + field + before[at + |field|..]
    requires |spelled| == at && before[..at] == spelled
    ensures |after| == |before| && after[..at + |field|] == spelled + field
    ensures forall k :: at + |field| <= k < |before| ==> after[k] == before[k]
  {}

  /** The record header that `append` assembles field by field. */
  method BuildRecordHeader(m: Message) returns (header: array<byte>)
    ensures fresh(header) && header[..] == EncodeHeader(m)
  {
    hide PutLE, Checksum;
    header := new byte[RECORD_HEADER_SIZE](_ => 0);
    PutNext(header, 0, RECORD_MAGIC, 4, []);
    ghost var spelled := [] + PutLE(RECORD_MAGIC, 4);
    PutNext(header, 4, RECORD_HEADER_SIZE, 4, spelled);
    spelled := spelled + PutLE(RECORD_HEADER_SIZE, 4);
    PutNext(header, 8, m.offset, 8, spelled);
    spelled := spelled + PutLE(m.offset, 8);
    PutNext(header, 16, m.timestampNs, 8, spelled);
    spelled := spelled + PutLE(m.timestampNs, 8);
    PutNext(header, 24, |m.payload|, 4, spelled);
    spelled := spelled + PutLE(|m.payload|, 4);
    assert [] + PutLE(RECORD_MAGIC, 4) == PutLE(RECORD_MAGIC, 4);
    assert spelled == HeaderFields(m.offset, m.timestampNs, |m.payload|);
    var crc := RecordChecksum(header[..28], m.payload);
    PutNext(header, 28, crc, 4, spelled);
    assert header[..] == header[..32];
  }

  /** The segment header that `create_segment` assembles. */
  method BuildSegmentHeader(id: nat, base: nat, segmentSize: nat) returns (header: array<byte>)
    ensures fresh(header) && header[..] == SegmentHeader(id, base, segmentSize)
  {
    hide PutLE, Checksum;
    header := new byte[SEGMENT_HEADER_SIZE](i => if 0 <= i < 8 then SEGMENT_MAGIC[i] else 0);
    assert header[..8] == SEGMENT_MAGIC;
    PutNext(header, 8, SEGMENT_VERSION, 4, SEGMENT_MAGIC);
    ghost var spelled := SEGMENT_MAGIC + PutLE(SEGMENT_VERSION, 4);
    PutNext(header, 12, id, 4, spelled);
    spelled := spelled + PutLE(id, 4);
    PutNext(header, 16, base, 8, spelled);
    spelled := spelled + PutLE(base, 8);
    PutNext(header, 24, segmentSize, 8, spelled);
    spelled := spelled + PutLE(segmentSize, 8);
    assert spelled == HeaderWords(id, base, segmentSize);
    var crc := SegmentChecksum(header[..32]);
    PutNext(header, 32, crc, 4, spelled);
    spelled := spelled + PutLE(crc, 4);
    assert forall k :: 36 <= k < 40 ==> header[k] == 0;
    assert header[36..] == Zeros(4);
    assert header[..] == header[..36] + header[36..];
  }

  /** The validity test of `scan_segment` for the record at `position`. */
  method ReadRecord(file: seq<byte>, position: nat, offset: nat, segmentSize: nat) returns (r: Option<Message>)
    requires position + RECORD_HEADER_SIZE <= |file| <= segmentSize
    ensures r == DecodeRecord(file[position..], offset)
  {
    hide GetLE, RecordCrc;
    ghost var rest := file[position..];
    var header := file[position..position + RECORD_HEADER_SIZE];
    HeaderSlices(file, position);
    var magic := Get(header[..4]);
    var size := Get(header[4..8]);
    var at := Get(header[8..16]);
    var length := Get(header[24..28]);
    var stored := Get(header[28..32]);
    if magic != RECORD_MAGIC || size != RECORD_HEADER_SIZE || at != offset {
      return None;
    }
    var total := RECORD_HEADER_SIZE + length;
    if total > segmentSize - position || position + total > |file| {
      return None;
    }
    var payload := file[position + RECORD_HEADER_SIZE..position + total];
    assert payload == rest[32..32 + length];
    var crc := RecordChecksum(header[..28], payload);
    if stored != crc {
      return None;
    }
    var timestampNs := Get(header[16..24]);
    return Some(Message(offset, timestampNs, payload));
  }

  lemma HeaderSlices(file: seq<byte>, position: nat)
    requires position + RECORD_HEADER_SIZE <= |file|
    ensures var header, rest := file[position..position + RECORD_HEADER_SIZE], file[position..];
            && header[..4] == rest[..4] && header[4..8] == rest[4..8] && header[8..16] == rest[8..16]
            && header[16..24] == rest[16..24] && header[24..28] == rest[24..28] && header[28..32] == rest[28..32]
            && header[..28] == rest[..28]
  {
    Inner(file, position, 0, 4);
    Inner(file, position, 4, 8);
    Inner(file, position, 8, 16);
    Inner(file, position, 16, 24);
    Inner(file, position, 24, 28);
    Inner(file, position, 28, 32);
    Inner(file, position, 0, 28);
  }

  lemma Inner(file: seq<byte>, position: nat, a: nat, b: nat)
    requires position + 32 <= |file| && a <= b <= 32
    ensures file[position..position + 32][a..b] == file[position..][a..b]
  {
    var header, rest := file[position..position + 32], file[position..];
    assert header == rest[..32];
    forall i | 0 <= i < b - a ensures header[a..b][i] == rest[a..b][i] {
      assert header[a..b][i] == header[a + i] == rest[a + i];
    }
  }

  const CHUNK := 4096

  /** `zero_tail`: the tail is tested in 4096-byte chunks. */
  method ZeroTail(file: seq<byte>, start: nat) returns (zero: bool)
    requires start <= |file|
    ensures zero == AllZero(file[start..])
  {
    var offset := start;
    var length := |file| - start;
    while length != 0
      invariant start <= offset <= |file| && length == |file| - offset
      invariant AllZero(file[start..offset])
      decreases length
    {
      var chunk := if length < CHUNK then length else CHUNK;
      if exists i :: offset <= i < offset + chunk && file[i] != 0 {
        ghost var i :| offset <= i < offset + chunk && file[i] != 0;
        assert file[start..][i - start] != 0;
        return false;
      }
      assert forall i :: start <= i < offset ==> file[i] == file[start..offset][i - start];
      offset := offset + chunk;
      length := length - chunk;
    }
    assert file[start..offset] == file[start..];
    return true;
  }

  /** `memcpy` into the mapping. After every byte the memory is the image that a
      crash at that point would leave. */
  method CopyIn(destination: array<byte>, at: nat, bytes: seq<byte>)
    requires at + |bytes| <= destination.Length
    modifies destination
    ensures destination[..] == ApplyStores(old(destination[..]), CopyStores(at, bytes))
  {
    ghost var before := destination[..];
    ghost var stores := CopyStores(at, bytes);
    assert stores[..0] == [];
    for i := 0 to |bytes|
      invariant destination[..] == ApplyStores(before, stores[..i])
    {
      assert stores[..i + 1][..i] == stores[..i] && stores[..i + 1][i] == stores[i];
      destination[at + i] := bytes[i];
    }
    assert stores[..|bytes|] == stores;
  }
}
