/** Properties of the decoder: what each id consumes and builds, what happens at
    the end of the buffer, which bytes a decode depends on, and a few documents
    worked through byte by byte. */
module Properties {
  import opened BigEndian
  import opened Tags
  import opened Decoder

  /** Ids 1 to 4 consume exactly 1, 2, 4 and 8 bytes and build the integer of
      that kind that the bytes hold in big-endian two's complement: negative
      exactly when the top bit is set, within the signed range of the width. */
  lemma IntegerLayout(data: Bytes, t: UInt8, off: nat)
    requires 1 <= t <= 4
    ensures
      var w := if t == 1 then 1 else if t == 2 then 2 else if t == 3 then 4 else 8;
      var r := Payload(data, t, off);
      && (r.Parsed? <==> off + w <= |data|)
      && (r.Parsed? ==>
            var n := BeSigned(data[off..off + w]);
            && r.next == off + w
            && r.value == (if t == 1 then Byte(n) else if t == 2 then Short(n)
                           else if t == 3 then Int(n) else Long(n))
            && (n < 0 <==> data[off] >= 128)
            && 0 <= 2 * n + Pow256(w) && 2 * n < Pow256(w))
  {
    ScalarField(data, t, off);
    IntegerStep(data, t, off, Payload(data, t, off));
  }

  /** What a step built by the scalar branch for an integer id holds. */
  lemma IntegerStep(data: Bytes, t: UInt8, off: nat, r: Step<Value>)
    requires 1 <= t <= 4
    requires r.Parsed? <==> off + STRUCTS[t].size <= |data|
    requires r.Parsed? ==> r == Parsed(Scalar(TYPES[t], data[off..off + STRUCTS[t].size]), off + STRUCTS[t].size)
    ensures
      var w := if t == 1 then 1 else if t == 2 then 2 else if t == 3 then 4 else 8;
      && (r.Parsed? <==> off + w <= |data|)
      && (r.Parsed? ==>
            var n := BeSigned(data[off..off + w]);
            && r.next == off + w
            && r.value == (if t == 1 then Byte(n) else if t == 2 then Short(n)
                           else if t == 3 then Int(n) else Long(n))
            && (n < 0 <==> data[off] >= 128)
            && 0 <= 2 * n + Pow256(w) && 2 * n < Pow256(w))
  {
    var w := if t == 1 then 1 else if t == 2 then 2 else if t == 3 then 4 else 8;
    assert STRUCTS[t].size == w;
    if off + w <= |data| {
      SignBit(data[off..off + w]);
    }
  }

  /** The scalar branch of `_serialize`: the bytes of the id's fixed format,
      converted by its `TYPES` entry. */
  lemma ScalarField(data: Bytes, t: UInt8, off: nat)
    requires 1 <= t <= 6
    ensures
      var w := STRUCTS[t].size;
      var r := Payload(data, t, off);
      && (r.Parsed? <==> off + w <= |data|)
      && (r.Parsed? ==> r == Parsed(Scalar(TYPES[t], data[off..off + w]), off + w))
  {
  }

  /** Ids 5 and 6 consume exactly 4 and 8 bytes and keep their raw bits. */
  lemma FloatLayout(data: Bytes, t: UInt8, off: nat)
    requires t == 5 || t == 6
    ensures
      var w := if t == 5 then 4 else 8;
      var r := Payload(data, t, off);
      && (r.Parsed? <==> off + w <= |data|)
      && (r.Parsed? ==>
            && r.next == off + w
            && HasKind(r.value, t)
            && r.value.bits == BeUnsigned(data[off..off + w]))
  {
    assert STRUCTS[t].size == if t == 5 then 4 else 8;
    ScalarField(data, t, off);
  }

  /** Ids 7 and 11: the count is the signed value of the first 1 (id 7) or 4
      (id 11) bytes of the 4-byte prefix, and the offset moves on by
      4 + count * itemsize, which is never negative; a count of zero or below
      gives an empty array. */
  lemma ArrayCount(data: Bytes, t: UInt8, off: nat)
    requires t == 7 || t == 11
    requires Payload(data, t, off).Parsed?
    ensures
      var w := if t == 7 then 1 else 4;
      var r := Payload(data, t, off);
      && off + w <= |data|
      && 0 <= 4 + w * BeSigned(data[off..off + w])
      && r.next == off + 4 + w * BeSigned(data[off..off + w])
      && (if t == 7 then r.value.ByteArray? else r.value.IntArray?)
      && (BeSigned(data[off..off + w]) <= 0 ==> r.value.elems == [])
  {
    assert Payload(data, t, off) == ArrayPayload(data, t, off);
    assert STRUCTS[t] == Signed(DTYPES[t]) && DTYPES[t] == if t == 7 then 1 else 4;
  }

  /** Id 7 decodes exactly when its count byte is there and the count is -4 or
      more: `fromstring` of single bytes takes a slice of any length. */
  lemma ByteArrayDecodes(data: Bytes, off: nat)
    ensures Payload(data, 7, off).Parsed? <==>
              off + 1 <= |data| && -4 <= BeSigned(data[off..off + 1])
  {
    assert Payload(data, 7, off) == ArrayPayload(data, 7, off);
    assert STRUCTS[7] == Signed(1) && DTYPES[7] == 1;
  }

  /** Id 11 decodes exactly when its 4 count bytes are there, the count is -1 or
      more, and the bytes of the elements that the buffer holds make whole
      4-byte items. */
  lemma IntArrayDecodes(data: Bytes, off: nat)
    ensures
      var lo := Min(off + 4, |data|);
      Payload(data, 11, off).Parsed? <==>
        && off + 4 <= |data|
        && -1 <= BeSigned(data[off..off + 4])
        && Fits(Max(lo, Min(off + 4 + 4 * BeSigned(data[off..off + 4]), |data|)) - lo, 4)
  {
    assert Payload(data, 11, off) == ArrayPayload(data, 11, off);
    assert STRUCTS[11] == Signed(4) && DTYPES[11] == 4;
  }

  /** Ids 7 and 11: the elements are `fromstring` of the bytes between the
      4-byte prefix and the end offset, both clamped to the end of the buffer,
      and none when the end offset falls inside the prefix. */
  lemma ArrayRaw(data: Bytes, t: UInt8, off: nat)
    requires t == 7 || t == 11
    requires Payload(data, t, off).Parsed?
    ensures
      var lo := Min(off + 4, |data|);
      var hi := Max(lo, Min(Payload(data, t, off).next, |data|));
      && Fits(hi - lo, DTYPES[t])
      && Payload(data, t, off).value.elems == Chunks(data[lo..hi], DTYPES[t])
  {
    assert Payload(data, t, off) == ArrayPayload(data, t, off);
    assert STRUCTS[t].size == DTYPES[t];
  }

  /** Id 7: one element per byte after the prefix, each that byte. */
  lemma ByteArrayElements(data: Bytes, off: nat)
    requires Payload(data, 7, off).Parsed?
    ensures
      var elems := Payload(data, 7, off).value.elems;
      && |elems| == Max(0, Min(Payload(data, 7, off).next, |data|) - (off + 4))
      && (forall i :: 0 <= i < |elems| ==> off + 4 + i < |data| && elems[i] == data[off + 4 + i])
  {
    var elems := Payload(data, 7, off).value.elems;
    var hi := Max(Min(off + 4, |data|), Min(Payload(data, 7, off).next, |data|));
    ArrayRaw(data, 7, off);
    forall i | 0 <= i < |elems|
      ensures off + 4 + i < |data| && elems[i] == data[off + 4 + i]
    {
      assert Min(off + 4, |data|) == off + 4;
      ChunkOfSlice(data, off + 4, hi, 1, i);
      OneByte(data, off + 4 + i);
    }
  }

  /** Id 11: one element per 4 bytes after the prefix, each read as an
      unsigned big-endian 32-bit integer. */
  lemma IntArrayElements(data: Bytes, off: nat)
    requires Payload(data, 11, off).Parsed?
    ensures
      var elems := Payload(data, 11, off).value.elems;
      && 4 * |elems| == Max(0, Min(Payload(data, 11, off).next, |data|) - (off + 4))
      && (forall i :: 0 <= i < |elems| ==>
            && off + 8 + 4 * i <= |data|
            && elems[i] == BeUnsigned(data[off + 4 + 4 * i..off + 8 + 4 * i]))
  {
    var elems := Payload(data, 11, off).value.elems;
    var hi := Max(Min(off + 4, |data|), Min(Payload(data, 11, off).next, |data|));
    ArrayRaw(data, 11, off);
    forall i | 0 <= i < |elems|
      ensures off + 8 + 4 * i <= |data|
      ensures elems[i] == BeUnsigned(data[off + 4 + 4 * i..off + 8 + 4 * i])
    {
      assert Min(off + 4, |data|) == off + 4;
      ChunkOfSlice(data, off + 4, hi, 4, i);
    }
  }

  /** Element `i` of `fromstring(data[lo..hi])` is read from `data` at lo + i * w. */
  lemma ChunkOfSlice(data: Bytes, lo: nat, hi: nat, w: ItemSize, i: nat)
    requires lo <= hi <= |data| && Fits(hi - lo, w)
    requires i < |Chunks(data[lo..hi], w)|
    ensures lo + Scale(i, w) + w <= hi
    ensures Chunks(data[lo..hi], w)[i] == BeUnsigned(data[lo + Scale(i, w)..lo + Scale(i, w) + w])
  {
    ChunkAt(data[lo..hi], w, i);
    SliceOfSlice(data, lo, hi, Scale(i, w), Scale(i, w) + w);
  }

  /** Id 12 never decodes: `TYPES[12]` is `shortarray`, whose extra leading
      parameter makes the call with one argument fail. */
  lemma ShortArrayNeverDecodes(data: Bytes, off: nat)
    ensures Payload(data, 12, off).Failed?
  {
  }

  /** Id 9: one element-type byte and a 4-byte signed count, then exactly
      max(count, 0) payloads, all of that one element type. */
  lemma ListLayout(data: Bytes, off: nat)
    requires Payload(data, 9, off).Parsed?
    ensures off + 5 <= |data|
    ensures
      var count := BeSigned(data[off + 1..off + 5]);
      var items := Payload(data, 9, off).value.items;
      && |items| == (if count < 0 then 0 else count)
      && forall i :: 0 <= i < |items| ==> HasKind(items[i], data[off])
  {
    var count := BeSigned(data[off + 1..off + 5]);
    ListKinds(data, data[off], if count < 0 then 0 else count, off + 5);
  }

  /** Id 9 with a count of zero or below decodes, once its 5 header bytes are
      there, to the empty list and moves past exactly those 5 bytes. */
  lemma EmptyListDecodes(data: Bytes, off: nat)
    requires off + 5 <= |data| && BeSigned(data[off + 1..off + 5]) <= 0
    ensures Payload(data, 9, off) == Parsed(List([]), off + 5)
  {
    assert STRUCTS[3] == Signed(4);
    assert ListItems(data, data[off], 0, off + 5) == Parsed([], off + 5);
  }

  /** Every payload is of the kind `TYPES` names for its id (None for an id
      outside the table), and so is every list item and every compound entry;
      no compound entry has type 0. */
  lemma {:induction false} PayloadKind(data: Bytes, t: UInt8, off: nat)
    requires Payload(data, t, off).Parsed?
    ensures HasKind(Payload(data, t, off).value, t)
    decreases Rem(data, off), 2
  {
    if t == 9 {
      var count := BeSigned(data[off + 1..off + 5]);
      ListKinds(data, data[off], if count < 0 then 0 else count, off + 5);
    } else if t == 10 {
      BodyKinds(data, off);
    }
  }

  lemma {:induction false} ListKinds(data: Bytes, t: UInt8, count: nat, off: nat)
    requires ListItems(data, t, count, off).Parsed?
    ensures forall i :: 0 <= i < count ==> HasKind(ListItems(data, t, count, off).value[i], t)
    decreases Rem(data, off), 3, count
  {
    if count > 0 {
      var p := Payload(data, t, off);
      PayloadKind(data, t, off);
      ListKinds(data, t, count - 1, p.next);
    }
  }

  lemma {:induction false} BodyKinds(data: Bytes, off: nat)
    requires CompoundBody(data, off).Parsed?
    ensures
      var es := CompoundBody(data, off).value;
      forall i :: 0 <= i < |es| ==> es[i].tag != 0 && HasKind(es[i].value, es[i].tag)
    decreases Rem(data, off), 1
  {
    if off < |data| && data[off] != 0 {
      var s := StringField(data, off + 1);
      var p := Payload(data, data[off], s.next);
      PayloadKind(data, data[off], s.next);
      BodyKinds(data, p.next);
    }
  }

  /** At or past the end of the buffer only a compound (empty) and an unknown id
      (None) decode, and neither moves the offset. */
  lemma PayloadAtEnd(data: Bytes, t: UInt8, off: nat)
    requires |data| <= off
    ensures Payload(data, t, off).Parsed? <==> t == 10 || t !in TYPES
    ensures Payload(data, t, off).Parsed? ==>
      Payload(data, t, off) == Parsed(if t == 10 then Compound(map[]) else NoValue, off)
  {
    if t == 10 {
      assert CompoundBody(data, off) == Parsed([], off);
    }
  }

  /** `d1` and `d2` have the same length and the same bytes from `off` on. */
  ghost predicate SameFrom(d1: Bytes, d2: Bytes, off: nat) {
    |d1| == |d2| && forall i :: off <= i < |d1| ==> d1[i] == d2[i]
  }

  lemma SameSlice(d1: Bytes, d2: Bytes, off: nat, lo: nat, hi: nat)
    requires SameFrom(d1, d2, off) && off <= lo <= hi <= |d1|
    ensures d1[lo..hi] == d2[lo..hi]
  {
  }

  lemma StringFieldLocal(d1: Bytes, d2: Bytes, off: nat)
    requires SameFrom(d1, d2, off)
    ensures StringField(d1, off) == StringField(d2, off)
  {
    if off + 2 <= |d1| {
      SameSlice(d1, d2, off, off, off + 2);
      var len := BeUnsigned(d1[off..off + 2]);
      SameSlice(d1, d2, off, off + 2, Min(off + 2 + len, |d1|));
    }
  }

  /** A payload depends only on the bytes from its own offset on (and on the
      length of the buffer). */
  lemma {:induction false} PayloadLocal(d1: Bytes, d2: Bytes, t: UInt8, off: nat)
    requires SameFrom(d1, d2, off)
    ensures Payload(d1, t, off) == Payload(d2, t, off)
    decreases Rem(d1, off), 2
  {
    if 0 < t < 7 {
      var w := STRUCTS[t].size;
      if off + w <= |d1| {
        SameSlice(d1, d2, off, off, off + w);
      }
    } else if t == 7 || t == 11 || t == 12 {
      ArrayLocal(d1, d2, t, off);
    } else if t == 8 {
      StringFieldLocal(d1, d2, off);
    } else if t == 9 {
      if off + 5 <= |d1| {
        SameSlice(d1, d2, off, off + 1, off + 5);
        var count := BeSigned(d1[off + 1..off + 5]);
        ListLocal(d1, d2, d1[off], if count < 0 then 0 else count, off + 5);
      }
    } else if t == 10 {
      BodyLocal(d1, d2, off);
    }
  }

  lemma ArrayLocal(d1: Bytes, d2: Bytes, t: UInt8, off: nat)
    requires t == 7 || t == 11 || t == 12
    requires SameFrom(d1, d2, off)
    ensures ArrayPayload(d1, t, off) == ArrayPayload(d2, t, off)
  {
    var w := STRUCTS[t].size;
    if off + w <= |d1| {
      SameSlice(d1, d2, off, off, off + w);
      var span := 4 + Scale(Unpack(STRUCTS[t], d1[off..off + w]), DTYPES[t]);
      if span >= 0 {
        var lo := Min(off + 4, |d1|);
        SameSlice(d1, d2, off, lo, Max(lo, Min(off + span, |d1|)));
      }
    }
  }

  lemma {:induction false} ListLocal(d1: Bytes, d2: Bytes, t: UInt8, count: nat, off: nat)
    requires SameFrom(d1, d2, off)
    ensures ListItems(d1, t, count, off) == ListItems(d2, t, count, off)
    decreases Rem(d1, off), 3, count
  {
    if count > 0 {
      PayloadLocal(d1, d2, t, off);
      var p := Payload(d1, t, off);
      if p.Parsed? {
        ListLocal(d1, d2, t, count - 1, p.next);
      }
    }
  }

  lemma {:induction false} BodyLocal(d1: Bytes, d2: Bytes, off: nat)
    requires SameFrom(d1, d2, off)
    ensures CompoundBody(d1, off) == CompoundBody(d2, off)
    decreases Rem(d1, off), 1
  {
    if off < |d1| && d1[off] != 0 {
      StringFieldLocal(d1, d2, off + 1);
      var s := StringField(d1, off + 1);
      if s.Parsed? {
        PayloadLocal(d1, d2, d1[off], s.next);
        var p := Payload(d1, d1[off], s.next);
        if p.Parsed? {
          BodyLocal(d1, d2, p.next);
        }
      }
    }
  }

  /** After the type byte 10, `_load` reads the root name and decodes the
      compound body that follows it. */
  lemma DocumentAfterRootName(buf: Bytes)
    requires 3 <= |buf| && buf[0] == 10
    ensures
      var body := CompoundBody(buf, 3 + BeUnsigned(buf[1..3]));
      Document(buf) == if body.Parsed? then Ok(ToMap(body.value)) else Err(body.error)
  {
    assert StringField(buf, 1).next == 3 + BeUnsigned(buf[1..3]);
  }

  /** The root name is discarded: two documents that differ only in the bytes
      of the root name decode alike. */
  lemma RootNameIgnored(b1: Bytes, b2: Bytes)
    requires |b1| == |b2| && 3 <= |b1| && b1[..3] == b2[..3]
    requires forall i :: 3 + BeUnsigned(b1[1..3]) <= i < |b1| ==> b1[i] == b2[i]
    ensures Document(b1) == Document(b2)
  {
    assert b1[0] == b2[0] && b1[1..3] == b2[1..3];
    if b1[0] == 10 {
      var start := 3 + BeUnsigned(b1[1..3]);
      BodyLocal(b1, b2, start);
      DocumentAfterRootName(b1);
      DocumentAfterRootName(b2);
    }
  }
}
