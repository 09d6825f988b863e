/** Small documents decoded byte by byte. */
module Documents {
  import opened BigEndian
  import opened Tags
  import opened Decoder

  /** The key "a". */
  const KeyA: Bytes := [0x61]

  /** The fields these documents are made of. */
  lemma EmptyKey(data: Bytes, off: nat)
    requires off + 2 <= |data| && data[off] == 0 && data[off + 1] == 0
    ensures StringField(data, off) == Parsed([], off + 2)
  {
    TwoBytes(data, off);
  }

  lemma OneByteKey(data: Bytes, off: nat)
    requires off + 3 <= |data| && data[off] == 0 && data[off + 1] == 1
    ensures StringField(data, off) == Parsed([data[off + 2]], off + 3)
  {
    TwoBytes(data, off);
    assert data[off + 2..off + 3] == [data[off + 2]];
  }

  lemma SmallByte(data: Bytes, off: nat)
    requires off < |data| && data[off] < 128
    ensures Payload(data, 1, off) == Parsed(Byte(data[off]), off + 1)
  {
    OneByte(data, off);
  }

  lemma SmallShort(data: Bytes, off: nat)
    requires off + 2 <= |data| && data[off] == 0
    ensures Payload(data, 2, off) == Parsed(Short(data[off + 1]), off + 2)
  {
    TwoBytes(data, off);
  }

  /** A document whose root name is empty decodes to the dict of its body. */
  lemma EmptyRootName(buf: Bytes, es: seq<Entry>, n: nat)
    requires 3 <= |buf| && buf[0] == 10 && buf[1] == 0 && buf[2] == 0
    requires CompoundBody(buf, 3) == Parsed(es, n)
    ensures Document(buf) == Ok(ToMap(es))
  {
    EmptyKey(buf, 1);
  }

  /** 0A 00 00 | 02 00 01 'a' 00 05 | 00 is the compound {"a": Short 5}. */
  const ShortA: Bytes := [0x0A, 0x00, 0x00, 0x02, 0x00, 0x01, 0x61, 0x00, 0x05, 0x00]

  lemma ShortABody()
    ensures CompoundBody(ShortA, 3) == Parsed([Entry(2, KeyA, Short(5))], 10)
  {
    var buf := ShortA;
    assert |buf| == 10 && buf[3] == 2 && buf[4] == 0 && buf[5] == 1 && buf[6] == 0x61;
    assert buf[7] == 0 && buf[8] == 5 && buf[9] == 0;
    OneByteKey(buf, 4);
    SmallShort(buf, 7);
    assert EntryField(buf, 2, 4) == Parsed((KeyA, Short(5)), 9);
    CompoundBodyStops(buf, 9);
    CompoundBodyEntry(buf, 3);
    assert [Entry(2, KeyA, Short(5))] + [] == [Entry(2, KeyA, Short(5))];
  }

  lemma ShortEntry()
    ensures Document(ShortA) == Ok(map[KeyA := Short(5)])
  {
    var buf := ShortA;
    assert |buf| == 10 && buf[0] == 10 && buf[1] == 0 && buf[2] == 0;
    ShortABody();
    EmptyRootName(buf, [Entry(2, KeyA, Short(5))], 10);
    assert [Entry(2, KeyA, Short(5))][..0] == [];
  }

  /** Without its terminating 0 byte the same document still decodes: the end
      of the buffer ends the compound without an error. */
  const ShortANoEnd: Bytes := [0x0A, 0x00, 0x00, 0x02, 0x00, 0x01, 0x61, 0x00, 0x05]

  lemma ShortANoEndBody()
    ensures CompoundBody(ShortANoEnd, 3) == Parsed([Entry(2, KeyA, Short(5))], 9)
  {
    var buf := ShortANoEnd;
    assert |buf| == 9 && buf[3] == 2 && buf[4] == 0 && buf[5] == 1 && buf[6] == 0x61;
    assert buf[7] == 0 && buf[8] == 5;
    OneByteKey(buf, 4);
    SmallShort(buf, 7);
    assert EntryField(buf, 2, 4) == Parsed((KeyA, Short(5)), 9);
    assert CompoundBody(buf, 9) == Parsed([], 9);
    CompoundBodyEntry(buf, 3);
    assert [Entry(2, KeyA, Short(5))] + [] == [Entry(2, KeyA, Short(5))];
  }

  lemma MissingTerminator()
    ensures Document(ShortANoEnd) == Ok(map[KeyA := Short(5)])
  {
    var buf := ShortANoEnd;
    assert |buf| == 9 && buf[0] == 10 && buf[1] == 0 && buf[2] == 0;
    ShortANoEndBody();
    EmptyRootName(buf, [Entry(2, KeyA, Short(5))], 9);
    assert [Entry(2, KeyA, Short(5))][..0] == [];
  }

  /** Two entries with the key "a": Byte 7, then Byte 9. */
  const TwiceA: Bytes := [0x0A, 0x00, 0x00, 0x01, 0x00, 0x01, 0x61, 0x07,
                          0x01, 0x00, 0x01, 0x61, 0x09, 0x00]

  lemma TwiceASecondEntry()
    ensures CompoundBody(TwiceA, 8) == Parsed([Entry(1, KeyA, Byte(9))], 14)
  {
    var buf := TwiceA;
    assert |buf| == 14 && buf[8] == 1 && buf[9] == 0 && buf[10] == 1 && buf[11] == 0x61;
    assert buf[12] == 9 && buf[13] == 0;
    OneByteKey(buf, 9);
    SmallByte(buf, 12);
    assert EntryField(buf, 1, 9) == Parsed((KeyA, Byte(9)), 13);
    CompoundBodyStops(buf, 13);
    CompoundBodyEntry(buf, 8);
    assert [Entry(1, KeyA, Byte(9))] + [] == [Entry(1, KeyA, Byte(9))];
  }

  lemma TwiceABody()
    ensures CompoundBody(TwiceA, 3) == Parsed([Entry(1, KeyA, Byte(7)), Entry(1, KeyA, Byte(9))], 14)
  {
    var buf := TwiceA;
    assert |buf| == 14 && buf[3] == 1 && buf[4] == 0 && buf[5] == 1 && buf[6] == 0x61;
    assert buf[7] == 7;
    OneByteKey(buf, 4);
    SmallByte(buf, 7);
    assert EntryField(buf, 1, 4) == Parsed((KeyA, Byte(7)), 8);
    TwiceASecondEntry();
    CompoundBodyEntry(buf, 3);
    assert [Entry(1, KeyA, Byte(7))] + [Entry(1, KeyA, Byte(9))]
        == [Entry(1, KeyA, Byte(7)), Entry(1, KeyA, Byte(9))];
  }

  /** Decoding it leaves only the later entry. */
  lemma DuplicateKey()
    ensures Document(TwiceA) == Ok(map[KeyA := Byte(9)])
  {
    var buf := TwiceA;
    assert |buf| == 14 && buf[0] == 10 && buf[1] == 0 && buf[2] == 0;
    TwiceABody();
    EmptyRootName(buf, [Entry(1, KeyA, Byte(7)), Entry(1, KeyA, Byte(9))], 14);
    LaterEntryKept();
  }

  lemma LaterEntryKept()
    ensures ToMap([Entry(1, KeyA, Byte(7)), Entry(1, KeyA, Byte(9))]) == map[KeyA := Byte(9)]
  {
    var es := [Entry(1, KeyA, Byte(7)), Entry(1, KeyA, Byte(9))];
    assert es[..1] == [Entry(1, KeyA, Byte(7))];
    assert es[..1][..0] == [];
  }

  /** A byte array {"b": [1, 2, 3]} written with a 4-byte count 00 00 00 03:
      the count is read from the first prefix byte only, so the array comes
      out empty, its three bytes are taken for the next entry, and decoding
      fails when that entry's key length 0x0203 runs past the end. */
  const ByteArrayB: Bytes := [0x0A, 0x00, 0x00, 0x07, 0x00, 0x01, 0x62, 0x00, 0x00, 0x00, 0x03,
                              0x01, 0x02, 0x03, 0x00]

  lemma ByteArrayBFirstEntry()
    ensures Payload(ByteArrayB, 7, 7) == Parsed(ByteArray([]), 11)
  {
    var buf := ByteArrayB;
    assert |buf| == 15 && buf[7] == 0;
    OneByte(buf, 7);
    assert buf[11..11] == [];
  }

  lemma ByteArrayBRest()
    ensures CompoundBody(ByteArrayB, 11) == Failed(DecodeError)
  {
    var buf := ByteArrayB;
    assert |buf| == 15 && buf[11] == 1 && buf[12] == 2 && buf[13] == 3;
    TwoBytes(buf, 12);
    assert StringField(buf, 12).next == 14 + 0x0203;
    assert Payload(buf, 1, 14 + 0x0203).Failed?;
  }

  lemma ByteArrayCountFromFirstByte()
    ensures Document(ByteArrayB) == Err(DecodeError)
  {
    var buf := ByteArrayB;
    assert |buf| == 15 && buf[0] == 10 && buf[1] == 0 && buf[2] == 0;
    assert buf[3] == 7 && buf[4] == 0 && buf[5] == 1 && buf[6] == 0x62;
    EmptyKey(buf, 1);
    OneByteKey(buf, 4);
    ByteArrayBFirstEntry();
    ByteArrayBRest();
    CompoundBodyEntry(buf, 3);
  }

  /** A byte array whose count byte is FF (-1): the end offset 4 - 1 falls
      inside the prefix, so the array is empty and the offset moves on by 3. */
  const MinusOneBytes: Bytes := [0xFF, 0x00, 0x00, 0x00]

  lemma NegativeByteCount()
    ensures Payload(MinusOneBytes, 7, 0) == Parsed(ByteArray([]), 3)
  {
    var buf := MinusOneBytes;
    assert |buf| == 4 && buf[0] == 0xFF;
    OneByte(buf, 0);
    assert BeSigned(buf[0..1]) == -1;
    assert buf[4..4] == [];
  }

  /** {"": byte array of count F9 (-7)}: the end offset 4 - 7 lies before the
      array's own start, which would move the offset back onto the entry's type
      byte; decoding fails with NegativeArrayCount instead. */
  const MinusSevenBytes: Bytes := [0x0A, 0x00, 0x00, 0x07, 0x00, 0x00, 0xF9]

  lemma NegativeCountRejected()
    ensures Document(MinusSevenBytes) == Err(NegativeArrayCount)
  {
    var buf := MinusSevenBytes;
    assert |buf| == 7 && buf[0] == 10 && buf[1] == 0 && buf[2] == 0;
    assert buf[3] == 7 && buf[4] == 0 && buf[5] == 0 && buf[6] == 0xF9;
    EmptyKey(buf, 1);
    EmptyKey(buf, 4);
    OneByte(buf, 6);
    assert BeSigned(buf[6..7]) == -7;
    assert Payload(buf, 7, 6) == Failed(NegativeArrayCount);
    CompoundBodyEntry(buf, 3);
  }

  /** {"": short array of count FFFD (-3)}: the end offset 4 - 6 lies before the
      array's start, but id 12 raises before the offset moves, so decoding fails
      with DecodeError rather than NegativeArrayCount. */
  const MinusThreeShorts: Bytes := [0x0A, 0x00, 0x00, 0x0C, 0x00, 0x00, 0xFF, 0xFD]

  lemma ShortArrayNegativeCount()
    ensures Document(MinusThreeShorts) == Err(DecodeError)
  {
    var buf := MinusThreeShorts;
    assert |buf| == 8 && buf[0] == 10 && buf[1] == 0 && buf[2] == 0;
    assert buf[3] == 12 && buf[4] == 0 && buf[5] == 0 && buf[6] == 0xFF && buf[7] == 0xFD;
    EmptyKey(buf, 1);
    EmptyKey(buf, 4);
    TwoBytes(buf, 6);
    assert BeSigned(buf[6..8]) == -3;
    assert Payload(buf, 12, 6) == Failed(DecodeError);
    CompoundBodyEntry(buf, 3);
  }
}
