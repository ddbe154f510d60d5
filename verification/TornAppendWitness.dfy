/** The one way an append can tear: a concrete record whose header, cut after
    24 bytes, checksums to zero and is recovered as an empty record. */
module TornAppendWitness {
  import opened Bytes
  import opened Crc32
  import opened RecordFormat
  import opened SegmentScan
  import opened LogModel
  import opened TornAppend

  /** 0x17979cfed57f1553 nanoseconds, in November 2023. */
  function UnluckyTime(): nat { GetLE([0x53, 0x15, 0x7f, 0xd5] + [0xfe, 0x9c, 0x97, 0x17]) }

  /** Offset 0 and one payload byte. */
  function Unlucky(): Message { Message(0, UnluckyTime(), [1]) }

  /** What is left of its checksummed fields: the length is still zero. */
  function CutFields(): seq<byte> { HeaderFields(0, UnluckyTime(), 0) }

  /** Four bytes of the checksum computation, on literals. */
  lemma Word(crc: bv32, a: byte, b: byte, c: byte, d: byte, c1: bv32, c2: bv32, c3: bv32, c4: bv32)
    requires ByteStep(crc, a) == c1 && ByteStep(c1, b) == c2 && ByteStep(c2, c) == c3 && ByteStep(c3, d) == c4
    ensures Update(crc, [a, b, c, d]) == c4
  {
    hide ByteStep;
    Unfold4(crc, [a, b, c, d]);
  }

  lemma Step(crc: bv32, b: byte, w: bv32, mixed: bv32, next: bv32)
    requires w as int == b as int && crc ^ w == mixed && BitSteps(mixed, 8) == next
    ensures ByteStep(crc, b) == next
  {
    hide Widen, BitSteps;
    WidenIs(b, w);
  }

  lemma WidenIs(b: byte, w: bv32)
    requires w as int == b as int
    ensures Widen(b) == w
  {
    hide Widen;
    WidenValue(b);
    WordRoundTrip(w);
  }

  // The 28 register values, one evaluated byte step each.
  lemma Byte0() ensures ByteStep(0xffffffff, 0x52) == 0xa89820aa {
    Step(0xffffffff, 0x52, 0x52, 0xffffffad, 0xa89820aa);
  }
  lemma Byte1() ensures ByteStep(0xa89820aa, 0x45) == 0x301d67c9 {
    Step(0xa89820aa, 0x45, 0x45, 0xa89820ef, 0x301d67c9);
  }
  lemma Byte2() ensures ByteStep(0x301d67c9, 0x43) == 0xd5d7759 {
    Step(0x301d67c9, 0x43, 0x43, 0x301d678a, 0xd5d7759);
  }
  lemma Byte3() ensures ByteStep(0xd5d7759, 0x31) == 0x4364b41d {
    Step(0xd5d7759, 0x31, 0x31, 0xd5d7768, 0x4364b41d);
  }
  lemma Byte4() ensures ByteStep(0x4364b41d, 0x20) == 0x582b28a5 {
    Step(0x4364b41d, 0x20, 0x20, 0x4364b43d, 0x582b28a5);
  }
  lemma Byte5() ensures ByteStep(0x582b28a5, 0x0) == 0xa6e47c4f {}
  lemma Byte6() ensures ByteStep(0xa6e47c4f, 0x0) == 0xe6c5b87d {}
  lemma Byte7() ensures ByteStep(0xe6c5b87d, 0x0) == 0x2e52c839 {}
  lemma Byte8() ensures ByteStep(0x2e52c839, 0x0) == 0x5f2bdac0 {}
  lemma Byte9() ensures ByteStep(0x5f2bdac0, 0x0) == 0x9b3be96a {}
  lemma Byte10() ensures ByteStep(0x9b3be96a, 0x0) == 0xadfcb3af {}
  lemma Byte11() ensures ByteStep(0xadfcb3af, 0x0) == 0x46c442ca {}
  lemma Byte12() ensures ByteStep(0x46c442ca, 0x0) == 0x7bf7efec {}
  lemma Byte13() ensures ByteStep(0x7bf7efec, 0x0) == 0xa9c759bc {}
  lemma Byte14() ensures ByteStep(0xa9c759bc, 0x0) == 0xc27e38fe {}
  lemma Byte15() ensures ByteStep(0xc27e38fe, 0x0) == 0x5ac7a123 {}
  lemma Byte16() ensures ByteStep(0x5ac7a123, 0x53) == 0x505fb69d {
    Step(0x5ac7a123, 0x53, 0x53, 0x5ac7a170, 0x505fb69d);
  }
  lemma Byte17() ensures ByteStep(0x505fb69d, 0x15) == 0xe33354a4 {
    Step(0x505fb69d, 0x15, 0x15, 0x505fb688, 0xe33354a4);
  }
  lemma Byte18() ensures ByteStep(0xe33354a4, 0x7f) == 0x11e23808 {
    Step(0xe33354a4, 0x7f, 0x7f, 0xe33354db, 0x11e23808);
  }
  lemma Byte19() ensures ByteStep(0x11e23808, 0xd5) == 0xf8734c51 {
    Step(0x11e23808, 0xd5, 0xd5, 0x11e238dd, 0xf8734c51);
  }
  lemma Byte20() ensures ByteStep(0xf8734c51, 0xfe) == 0x4691cd35 {
    Step(0xf8734c51, 0xfe, 0xfe, 0xf8734caf, 0x4691cd35);
  }
  lemma Byte21() ensures ByteStep(0x4691cd35, 0x9c) == 0xaf4c8a81 {
    Step(0x4691cd35, 0x9c, 0x9c, 0x4691cda9, 0xaf4c8a81);
  }
  lemma Byte22() ensures ByteStep(0xaf4c8a81, 0x97) == 0xf47bf9db {
    Step(0xaf4c8a81, 0x97, 0x97, 0xaf4c8a16, 0xf47bf9db);
  }
  lemma Byte23() ensures ByteStep(0xf47bf9db, 0x17) == 0x9226f562 {
    Step(0xf47bf9db, 0x17, 0x17, 0xf47bf9cc, 0x9226f562);
  }
  lemma Byte24() ensures ByteStep(0x9226f562, 0x0) == 0xa32e2681 {}
  lemma Byte25() ensures ByteStep(0xa32e2681, 0x0) == 0x9a1c9d90 {}
  lemma Byte26() ensures ByteStep(0x9a1c9d90, 0x0) == 0xf0958fd9 {}
  lemma Byte27() ensures ByteStep(0xf0958fd9, 0x0) == 0xffffffff {}

  lemma Word0()
    ensures Update(0xffffffff, [0x52, 0x45, 0x43, 0x31]) == 0x4364b41d
  {
    hide ByteStep;
    Byte0(); Byte1(); Byte2(); Byte3();
    Word(0xffffffff, 0x52, 0x45, 0x43, 0x31, 0xa89820aa, 0x301d67c9, 0xd5d7759, 0x4364b41d);
  }

  lemma Word1()
    ensures Update(0x4364b41d, [0x20, 0x0, 0x0, 0x0]) == 0x2e52c839
  {
    hide ByteStep;
    Byte4(); Byte5(); Byte6(); Byte7();
    Word(0x4364b41d, 0x20, 0x0, 0x0, 0x0, 0x582b28a5, 0xa6e47c4f, 0xe6c5b87d, 0x2e52c839);
  }

  lemma Word2()
    ensures Update(0x2e52c839, [0x0, 0x0, 0x0, 0x0]) == 0x46c442ca
  {
    hide ByteStep;
    Byte8(); Byte9(); Byte10(); Byte11();
    Word(0x2e52c839, 0x0, 0x0, 0x0, 0x0, 0x5f2bdac0, 0x9b3be96a, 0xadfcb3af, 0x46c442ca);
  }

  lemma Word3()
    ensures Update(0x46c442ca, [0x0, 0x0, 0x0, 0x0]) == 0x5ac7a123
  {
    hide ByteStep;
    Byte12(); Byte13(); Byte14(); Byte15();
    Word(0x46c442ca, 0x0, 0x0, 0x0, 0x0, 0x7bf7efec, 0xa9c759bc, 0xc27e38fe, 0x5ac7a123);
  }

  lemma Word4()
    ensures Update(0x5ac7a123, [0x53, 0x15, 0x7f, 0xd5]) == 0xf8734c51
  {
    hide ByteStep;
    Byte16(); Byte17(); Byte18(); Byte19();
    Word(0x5ac7a123, 0x53, 0x15, 0x7f, 0xd5, 0x505fb69d, 0xe33354a4, 0x11e23808, 0xf8734c51);
  }

  lemma Word5()
    ensures Update(0xf8734c51, [0xfe, 0x9c, 0x97, 0x17]) == 0x9226f562
  {
    hide ByteStep;
    Byte20(); Byte21(); Byte22(); Byte23();
    Word(0xf8734c51, 0xfe, 0x9c, 0x97, 0x17, 0x4691cd35, 0xaf4c8a81, 0xf47bf9db, 0x9226f562);
  }

  lemma Word6()
    ensures Update(0x9226f562, [0x0, 0x0, 0x0, 0x0]) == 0xffffffff
  {
    hide ByteStep;
    Byte24(); Byte25(); Byte26(); Byte27();
    Word(0x9226f562, 0x0, 0x0, 0x0, 0x0, 0xa32e2681, 0x9a1c9d90, 0xf0958fd9, 0xffffffff);
  }

  /** The spelled fields. */
  lemma CutFieldsBytes()
    ensures CutFields()
            == [0x52, 0x45, 0x43, 0x31] + [0x20, 0x0, 0x0, 0x0] + ([0x0, 0x0, 0x0, 0x0] + [0x0, 0x0, 0x0, 0x0])
              + ([0x53, 0x15, 0x7f, 0xd5] + [0xfe, 0x9c, 0x97, 0x17]) + [0x0, 0x0, 0x0, 0x0]
  {
    hide PutLE, GetLE;
    MagicBytes();
    TimeBytes();
  }

  lemma MagicBytes()
    ensures PutLE(RECORD_MAGIC, 4) == [0x52, 0x45, 0x43, 0x31] && PutLE(RECORD_HEADER_SIZE, 4) == [0x20, 0x0, 0x0, 0x0]
    ensures PutLE(0, 4) == [0x0, 0x0, 0x0, 0x0]
  {}

  lemma TimeBytes()
    ensures PutLE(UnluckyTime(), 8) == [0x53, 0x15, 0x7f, 0xd5] + [0xfe, 0x9c, 0x97, 0x17]
    ensures PutLE(0, 8) == [0x0, 0x0, 0x0, 0x0] + [0x0, 0x0, 0x0, 0x0]
  {
    hide GetLE;
    PutGet([0x53, 0x15, 0x7f, 0xd5] + [0xfe, 0x9c, 0x97, 0x17]);
  }

  lemma UpdateFields(a: seq<byte>, b: seq<byte>, c: seq<byte>, d: seq<byte>, e: seq<byte>, f: seq<byte>,
                     g: seq<byte>, crc: bv32)
    ensures Update(crc, a + b + (c + d) + (e + f) + g)
            == Update(Update(Update(Update(Update(Update(Update(crc, a), b), c), d), e), f), g)
  {
    hide Update;
    UpdateConcat(crc, a + b + (c + d) + (e + f), g);
    UpdateConcat(crc, a + b + (c + d), e + f);
    UpdateConcat(crc, a + b, c + d);
    UpdateConcat(crc, a, b);
    var ab := Update(Update(crc, a), b);
    UpdateConcat(ab, c, d);
    UpdateConcat(Update(Update(ab, c), d), e, f);
  }

  lemma CutFieldsChecksum()
    ensures RecordCrc(CutFields(), []) == 0
  {
    hide Update, HeaderFields, GetLE;
    CutFieldsBytes();
    Word0();
    Word1();
    Word2();
    Word3();
    Word4();
    Word5();
    Word6();
    UpdateFields([0x52, 0x45, 0x43, 0x31], [0x20, 0x0, 0x0, 0x0], [0x0, 0x0, 0x0, 0x0], [0x0, 0x0, 0x0, 0x0],
                 [0x53, 0x15, 0x7f, 0xd5], [0xfe, 0x9c, 0x97, 0x17], [0x0, 0x0, 0x0, 0x0], SEED);
    assert CutFields() + [] == CutFields();
    SeedFinishes();
  }

  lemma SeedFinishes()
    ensures Finish(SEED) == 0
  {}

  /** Cut after 24 bytes, the header is `CutFields` and four zeros. */
  lemma CutHeader()
    ensures PartialHeader(Unlucky(), 24)[..28] == CutFields()
    ensures EncodeHeader(Unlucky())[..28] != CutFields()
  {
    hide RecordCrc, PutLE, GetLE;
    var whole := HeaderFields(0, UnluckyTime(), 1);
    HeaderLayout(0, UnluckyTime(), 1);
    HeaderLayout(0, UnluckyTime(), 0);
    FieldLengths();
    assert EncodeHeader(Unlucky())[..28] == whole;
    assert PartialHeader(Unlucky(), 24)[..28] == whole[..24] + Zeros(4);
    assert CutFields() == CutFields()[..24] + CutFields()[24..28];
    assert whole[..24] == CutFields()[..24];
  }

  lemma FieldLengths()
    ensures PutLE(0, 4) == Zeros(4) && PutLE(1, 4) != PutLE(0, 4)
  {
    assert PutLE(0, 4) == [0, 0, 0, 0];
    assert PutLE(1, 4)[0] == 1;
  }

  lemma UnluckyPasses()
    ensures PartialHeaderPasses(Unlucky(), 24)
  {
    hide RecordCrc, GetLE, PartialHeader, EncodeHeader, PutLE, HeaderFields, Pow256;
    CutHeader();
    HeaderLayout(0, UnluckyTime(), 0);
    WordLimits();
    GetPut(RECORD_MAGIC, 4);
    GetPut(RECORD_HEADER_SIZE, 4);
    GetPut(0, 8);
    GetPut(0, 4);
    assert Unlucky().payload[..0] == [];
    CutFieldsChecksum();
  }

  /** The append of this record is not atomic: cut after 24 header bytes, in a new
      log of any segment size, it leaves neither the old log nor the new one. */
  lemma TornAppendCanFail(segmentSize: nat)
    requires SupportedSize(segmentSize)
    ensures Recover([], segmentSize).Ok?
    ensures var img := Recover([], segmentSize).value;
            && Shaped(img) && img.writePosition + RecordSize(Unlucky()) <= img.segmentSize
            && AfterCrash(img, Unlucky(), 25) != Ok(img)
            && AfterCrash(img, Unlucky(), 25) != Ok(StoreRecord(img, Unlucky()))
  {
    hide AfterCrash, StoreRecord, PartialHeaderPasses, FreshFile, GetLE, Pow256, Tiled;
    CreatedRepresents(segmentSize);
    UnluckyPasses();
    PutGet([0x53, 0x15, 0x7f, 0xd5] + [0xfe, 0x9c, 0x97, 0x17]);
    WordLimits();
    TornAppendIsAtomic(Recover([], segmentSize).value, [[]], Unlucky(), 25);
  }
}
