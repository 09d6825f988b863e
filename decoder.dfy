/** What each decoding routine of nbt.py reads from the buffer, as functions of
    the buffer and the offset the routine starts at. */
module Decoder {
  import opened BigEndian
  import opened Tags

  /** The bytes left at `off`; an offset past the end leaves none. */
  function Rem(data: Bytes, off: nat): nat { if off < |data| then |data| - off else 0 }

  /** `fmt.unpack_from(bs)` for a `struct` format: a signed format gives a value
      in the signed range of the width, an IEEE format its raw bit pattern. */
  function Unpack(fmt: Format, bs: Bytes): (n: int)
    requires |bs| > 0
    ensures fmt.Signed? ==> 0 <= 2 * n + Pow256(|bs|) && 2 * n < Pow256(|bs|)
    ensures fmt.Ieee? ==> 0 <= n < Pow256(|bs|)
  {
    match fmt
    case Signed(_) => BeSigned(bs)
    case Ieee(_) => BeUnsigned(bs)
  }

  /** `load_string`: a `>H` length L, then the next L bytes, clamped to the end
      of the buffer, while the offset moves on by L + 2 regardless. */
  function StringField(data: Bytes, off: nat): (r: Step<Bytes>)
    ensures r.Parsed? <==> off + 2 <= |data|
    ensures r.Parsed? ==>
      var len := BeUnsigned(data[off..off + 2]);
      && len < 0x1_0000
      && r.next == off + 2 + len
      && |r.value| == Min(len, |data| - (off + 2))
      && r.value == data[off + 2..off + 2 + |r.value|]
  {
    if off + 2 > |data| then Failed(DecodeError)
    else
      var len := BeUnsigned(data[off..off + 2]);
      Parsed(data[off + 2..Min(off + 2 + len, |data|)], off + 2 + len)
  }

  /** The array branch of `_serialize` (ids 7, 11, 12). The count is read with
      the element's format, not as a 4-byte integer; the slice of the elements
      and the move of the offset both end `4 + count * itemsize` bytes after
      `off`, so a count down to -4 / itemsize leaves an empty array. */
  function ArrayPayload(data: Bytes, t: UInt8, off: nat): (r: Step<Value>)
    requires t == 7 || t == 11 || t == 12
    ensures r.Parsed? ==> off <= r.next && HasKind(r.value, t)
    ensures r.Parsed? && r.next < off + 4 ==> r.value.elems == []
  {
    var fmt := STRUCTS[t];
    if off + fmt.size > |data| then Failed(DecodeError)
    else
      var count := Unpack(fmt, data[off..off + fmt.size]);
      var width := DTYPES[t];
      var span := 4 + Scale(count, width);
      // id 12 raises before its offset is ever moved, whatever its count
      if span < 0 then (if t == 12 then Failed(DecodeError) else Failed(NegativeArrayCount))
      else
        var lo := Min(off + 4, |data|);
        var raw := data[lo..Max(lo, Min(off + span, |data|))];
        if !Fits(|raw|, width) then Failed(DecodeError)
        else if t == 12 then Failed(DecodeError)
        else
          var elems := Chunks(raw, width);
          Parsed(if t == 7 then ByteArray(elems) else IntArray(elems), off + span)
  }

  /** `_serialize(t, ctx)` started at `off`. */
  function Payload(data: Bytes, t: UInt8, off: nat): (r: Step<Value>)
    ensures r.Parsed? ==> off <= r.next
    ensures t !in TYPES ==> r == Parsed(NoValue, off)
    decreases Rem(data, off), 2
  {
    if 0 < t < 7 then
      var fmt := STRUCTS[t];
      if off + fmt.size > |data| then Failed(DecodeError)
      else Parsed(Scalar(TYPES[t], data[off..off + fmt.size]), off + fmt.size)
    else if t == 7 || t == 11 || t == 12 then
      ArrayPayload(data, t, off)
    else if t == 8 then
      match StringField(data, off)
      case Failed(e) => Failed(e)
      case Parsed(s, n) => Parsed(String(s), n)
    else if t == 9 then
      ListPayload(data, off)
    else if t == 10 then
      match CompoundBody(data, off)
      case Failed(e) => Failed(e)
      case Parsed(es, n) => Parsed(Compound(ToMap(es)), n)
    else
      Parsed(NoValue, off)
  }

  /** The list branch of `_serialize` (id 9): the element type byte, a `>i`
      count, then max(count, 0) payloads of that type. */
  function ListPayload(data: Bytes, off: nat): (r: Step<Value>)
    ensures r.Parsed? ==> off + 5 <= r.next && r.value.List?
    decreases Rem(data, off), 1
  {
    if off >= |data| then Failed(DecodeError)
    else
      var listType := data[off];
      if off + 5 > |data| then Failed(DecodeError)
      else
        var count := Unpack(STRUCTS[3], data[off + 1..off + 5]);
        match ListItems(data, listType, if count < 0 then 0 else count, off + 5)
        case Failed(e) => Failed(e)
        case Parsed(items, n) => Parsed(List(items), n)
  }

  /** The `for` loop of the list branch: `count` payloads of type `t`, one after
      the other. */
  function ListItems(data: Bytes, t: UInt8, count: nat, off: nat): (r: Step<seq<Value>>)
    ensures r.Parsed? ==> off <= r.next && |r.value| == count
    decreases Rem(data, off), 3, count
  {
    if count == 0 then Parsed([], off)
    else
      match Payload(data, t, off)
      case Failed(e) => Failed(e)
      case Parsed(v, n) =>
        match ListItems(data, t, count - 1, n)
        case Failed(e) => Failed(e)
        case Parsed(vs, m) => Parsed([v] + vs, m)
  }

  /** `_NBTtoDict`: the entries read from `off` until a 0 type byte, which is
      consumed, or the end of the buffer. */
  function CompoundBody(data: Bytes, off: nat): (r: Step<seq<Entry>>)
    ensures r.Parsed? ==> off <= r.next
    ensures r.Parsed? ==> |data| <= r.next || (off < r.next && data[r.next - 1] == 0)
    decreases Rem(data, off), 1
  {
    if off >= |data| then Parsed([], off)
    else
      var t := data[off];
      if t == 0 then Parsed([], off + 1)
      else
        match StringField(data, off + 1)
        case Failed(e) => Failed(e)
        case Parsed(key, n) =>
          match Payload(data, t, n)
          case Failed(e) => Failed(e)
          case Parsed(v, m) =>
            match CompoundBody(data, m)
            case Failed(e) => Failed(e)
            case Parsed(es, k) => Parsed([Entry(t, key, v)] + es, k)
  }

  /** `xs` followed by what step `s` read. */
  function Prepend<T>(xs: seq<T>, s: Step<seq<T>>): Step<seq<T>> {
    match s
    case Parsed(ys, n) => Parsed(xs + ys, n)
    case Failed(e) => Failed(e)
  }

  lemma PrependNothing<T>(s: Step<seq<T>>)
    ensures Prepend([], s) == s
  {
    if s.Parsed? {
      assert [] + s.value == s.value;
    }
  }

  lemma PrependTwice<T>(xs: seq<T>, ys: seq<T>, s: Step<seq<T>>)
    ensures Prepend(xs, Prepend(ys, s)) == Prepend(xs + ys, s)
  {
    if s.Parsed? {
      assert xs + (ys + s.value) == (xs + ys) + s.value;
    }
  }

  /** One pass of the list loop: a payload, then the remaining items. */
  lemma ListItemsStep(data: Bytes, t: UInt8, count: nat, off: nat)
    requires count > 0
    ensures ListItems(data, t, count, off)
         == match Payload(data, t, off)
            case Failed(e) => Failed(e)
            case Parsed(v, n) => Prepend([v], ListItems(data, t, count - 1, n))
  {
  }

  /** One iteration of the `_NBTtoDict` loop that meets the 0 type byte. */
  lemma CompoundBodyStops(data: Bytes, off: nat)
    requires off < |data| && data[off] == 0
    ensures CompoundBody(data, off) == Parsed([], off + 1)
  {
  }

  /** The key and then the payload of type `t` of one compound entry. */
  function EntryField(data: Bytes, t: UInt8, off: nat): (r: Step<(Bytes, Value)>)
    ensures r.Parsed? ==> off + 2 <= r.next
    ensures r.Parsed? ==> StringField(data, off).Parsed? && r.value.0 == StringField(data, off).value
  {
    match StringField(data, off)
    case Failed(e) => Failed(e)
    case Parsed(key, n) =>
      match Payload(data, t, n)
      case Failed(e) => Failed(e)
      case Parsed(v, m) => Parsed((key, v), m)
  }

  /** One iteration of the `_NBTtoDict` loop that reads an entry. */
  lemma CompoundBodyEntry(data: Bytes, off: nat)
    requires off < |data| && data[off] != 0
    ensures CompoundBody(data, off)
         == match EntryField(data, data[off], off + 1)
            case Failed(e) => Failed(e)
            case Parsed(kv, m) => Prepend([Entry(data[off], kv.0, kv.1)], CompoundBody(data, m))
  {
  }

  /** The `_NBTtoDict` loop invariant carried over one entry: what was read from
      `start` is the entries so far, this entry, then what follows it. */
  lemma CompoundBodyExtend(data: Bytes, start: nat, entries: seq<Entry>, here: nat)
    requires here < |data| && data[here] != 0
    requires EntryField(data, data[here], here + 1).Parsed?
    requires CompoundBody(data, start) == Prepend(entries, CompoundBody(data, here))
    ensures
      var f := EntryField(data, data[here], here + 1);
      CompoundBody(data, start)
        == Prepend(entries + [Entry(data[here], f.value.0, f.value.1)], CompoundBody(data, f.next))
  {
    var f := EntryField(data, data[here], here + 1);
    CompoundBodyEntry(data, here);
    PrependTwice(entries, [Entry(data[here], f.value.0, f.value.1)], CompoundBody(data, f.next));
  }

  /** `_load` on an already decompressed buffer. */
  function Document(buf: Bytes): (r: Result<map<Bytes, Value>>)
    ensures |buf| == 0 ==> r == Err(EmptyInput)
    ensures |buf| > 0 && buf[0] != 10 ==> r == Err(NoRootCompound)
    ensures r.Ok? ==> 3 <= |buf| && buf[0] == 10
  {
    if |buf| == 0 then Err(EmptyInput)
    else if buf[0] != 10 then Err(NoRootCompound)
    else
      match StringField(buf, 1)
      case Failed(e) => Err(e)
      case Parsed(_, n) =>
        match CompoundBody(buf, n)
        case Failed(e) => Err(e)
        case Parsed(es, _) => Ok(ToMap(es))
  }
}
