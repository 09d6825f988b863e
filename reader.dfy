/** The decoder as nbt.py runs it: recursive routines that share one cursor
    object and move its offset forward as they read. */
module Reader {
  import opened BigEndian
  import opened Tags
  import opened Decoder

  /** A method's result and the cursor's new offset agree with a step of the
      specification functions. */
  ghost predicate Reflects<T>(r: Result<T>, s: Step<T>, offset: nat) {
    match s
    case Parsed(v, n) => r == Ok(v) && offset == n
    case Failed(e) => r == Err(e)
  }

  /** `ctxobj`: the buffer being decoded and the offset of the next unread byte. */
  class Cursor {
    const data: Bytes
    var offset: nat

    constructor (data: Bytes, offset: nat)
      ensures this.data == data && this.offset == offset
    {
      this.data := data;
      this.offset := offset;
    }

    function Remaining(): nat
      reads this
    {
      Rem(data, offset)
    }

    /** `load_string`. */
    method LoadString() returns (r: Result<Bytes>)
      modifies this
      ensures Reflects(r, StringField(data, old(offset)), offset)
    {
      if offset + 2 > |data| {
        return Err(DecodeError);
      }
      var len := BeUnsigned(data[offset..offset + 2]);
      r := Ok(data[offset + 2..Min(offset + 2 + len, |data|)]);
      offset := offset + 2 + len;
    }

    /** `_serialize(tagType, ctx)`. */
    method Serialize(tagType: UInt8) returns (r: Result<Value>)
      modifies this
      ensures Reflects(r, Payload(data, tagType, old(offset)), offset)
      decreases Remaining(), 2
    {
      r := Ok(NoValue);
      if 0 < tagType < 7 {
        var fmt := STRUCTS[tagType];
        if offset + fmt.size > |data| {
          return Err(DecodeError);
        }
        r := Ok(Scalar(TYPES[tagType], data[offset..offset + fmt.size]));
        offset := offset + fmt.size;
      } else if tagType == 7 || tagType == 11 || tagType == 12 {
        r := ReadArray(tagType);
      } else if tagType == 8 {
        var s := LoadString();
        r := if s.Ok? then Ok(String(s.value)) else Err(s.error);
      } else if tagType == 9 {
        r := ReadList();
      } else if tagType == 10 {
        var d := NbtToDict();
        r := if d.Ok? then Ok(Compound(d.value)) else Err(d.error);
      }
    }

    /** The array branch of `_serialize` (ids 7, 11 and 12). */
    method ReadArray(tagType: UInt8) returns (r: Result<Value>)
      requires tagType == 7 || tagType == 11 || tagType == 12
      modifies this
      ensures Reflects(r, ArrayPayload(data, tagType, old(offset)), offset)
    {
      var fmt := STRUCTS[tagType];
      if offset + fmt.size > |data| {
        return Err(DecodeError);
      }
      var count := Unpack(fmt, data[offset..offset + fmt.size]);
      var width := DTYPES[tagType];
      var span := 4 + Scale(count, width);
      if span < 0 {
        return if tagType == 12 then Err(DecodeError) else Err(NegativeArrayCount);
      }
      var lo := Min(offset + 4, |data|);
      var raw := data[lo..Max(lo, Min(offset + span, |data|))];
      if !Fits(|raw|, width) || tagType == 12 {
        return Err(DecodeError);
      }
      var elems := Chunks(raw, width);
      r := Ok(if tagType == 7 then ByteArray(elems) else IntArray(elems));
      offset := offset + span;
    }

    /** The list branch of `_serialize` (id 9). */
    method ReadList() returns (r: Result<Value>)
      modifies this
      ensures Reflects(r, ListPayload(data, old(offset)), offset)
      decreases Remaining(), 1
    {
      if offset >= |data| {
        return Err(DecodeError);
      }
      var listType := data[offset];
      offset := offset + 1;
      if offset + 4 > |data| {
        return Err(DecodeError);
      }
      var listLength := Unpack(STRUCTS[3], data[offset..offset + 4]);
      offset := offset + 4;
      ghost var start := offset;
      ghost var count: nat := if listLength < 0 then 0 else listLength;
      var items := [];
      var i := 0;
      PrependNothing(ListItems(data, listType, count, start));
      while i < listLength
        invariant 0 <= i <= count && start <= offset
        invariant ListItems(data, listType, count, start)
               == Prepend(items, ListItems(data, listType, count - i, offset))
      {
        ghost var here := offset;
        ListItemsStep(data, listType, count - i, here);
        var tag := Serialize(listType);
        if tag.Err? {
          return Err(tag.error);
        }
        assert Payload(data, listType, here) == Parsed(tag.value, offset);
        PrependTwice(items, [tag.value], ListItems(data, listType, count - i - 1, offset));
        items := items + [tag.value];
        i := i + 1;
      }
      assert items + [] == items;
      assert ListItems(data, listType, count, start) == Parsed(items, offset);
      r := Ok(List(items));
    }

    /** `_NBTtoDict`. */
    method NbtToDict() returns (r: Result<map<Bytes, Value>>)
      modifies this
      ensures match CompoundBody(data, old(offset))
              case Parsed(es, n) => r == Ok(ToMap(es)) && offset == n
              case Failed(e) => r == Err(e)
      decreases Remaining(), 1
    {
      var obj := map[];
      ghost var entries := [];
      ghost var start := offset;
      PrependNothing(CompoundBody(data, start));
      while offset < |data|
        invariant start <= offset
        invariant obj == ToMap(entries)
        invariant CompoundBody(data, start) == Prepend(entries, CompoundBody(data, offset))
        decreases |data| - offset
      {
        ghost var here := offset;
        var tagType := data[offset];
        offset := offset + 1;
        if tagType == 0 {
          CompoundBodyStops(data, here);
          break;
        }
        var entry := ReadEntry(tagType);
        if entry.Err? {
          CompoundBodyEntry(data, here);
          return Err(entry.error);
        }
        var (name, tag) := entry.value;
        ghost var e := Entry(tagType, name, tag);
        CompoundBodyExtend(data, start, entries, here);
        ToMapSnoc(entries, e);
        obj := obj[name := tag];
        entries := entries + [e];
      }
      assert entries + [] == entries;
      assert CompoundBody(data, start) == Parsed(entries, offset);
      r := Ok(obj);
    }

    /** One pass of the `_NBTtoDict` loop after the type byte: `load_string`,
        then `_serialize` of that type. */
    method ReadEntry(tagType: UInt8) returns (r: Result<(Bytes, Value)>)
      modifies this
      ensures Reflects(r, EntryField(data, tagType, old(offset)), offset)
      decreases Remaining(), 0
    {
      var name := LoadString();
      if name.Err? {
        return Err(name.error);
      }
      var tag := Serialize(tagType);
      if tag.Err? {
        return Err(tag.error);
      }
      r := Ok((name.value, tag.value));
    }
  }

  /** `_load` on an already decompressed buffer. */
  method Load(buf: Bytes) returns (r: Result<map<Bytes, Value>>)
    ensures r == Document(buf)
  {
    if |buf| == 0 {
      return Err(EmptyInput);
    }
    if buf[0] != 10 {
      return Err(NoRootCompound);
    }
    var ctx := new Cursor(buf, 1);
    var name := ctx.LoadString();
    if name.Err? {
      return Err(name.error);
    }
    r := ctx.NbtToDict();
  }
}
