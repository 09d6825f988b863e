/** The dispatch tables of the decoder and the values it builds. */
module Tags {
  import opened BigEndian

  /** The value kinds of the `TYPES` table, one per type id 1 to 12. */
  datatype Kind =
    | ByteKind | ShortKind | IntKind | LongKind | FloatKind | DoubleKind
    | ByteArrayKind | StringKind | ListKind | CompoundKind | IntArrayKind | ShortArrayKind

  const TYPES: map<UInt8, Kind> := map[
    1 := ByteKind, 2 := ShortKind, 3 := IntKind, 4 := LongKind,
    5 := FloatKind, 6 := DoubleKind, 7 := ByteArrayKind, 8 := StringKind,
    9 := ListKind, 10 := CompoundKind, 11 := IntArrayKind, 12 := ShortArrayKind]

  /** A big-endian `struct` format: `>b`, `>h`, `>i`, `>q` are Signed of 1, 2, 4
      and 8 bytes; `>f` and `>d` are Ieee of 4 and 8 bytes. */
  datatype Format = Signed(size: nat) | Ieee(size: nat)

  /** `STRUCTS`: the fixed format of each scalar id, and for the array ids 7, 11
      and 12 the format their element count is read with. */
  const STRUCTS: map<UInt8, Format> := map[
    1 := Signed(1), 2 := Signed(2), 3 := Signed(4), 4 := Signed(8),
    5 := Ieee(4), 6 := Ieee(8),
    7 := Signed(1), 11 := Signed(4), 12 := Signed(2)]

  /** `DTYPES`: the element width of each array id. */
  const DTYPES: map<UInt8, ItemSize> := map[7 := 1, 11 := 4, 12 := 2]

  /** A decoded payload. Floats are kept as their raw big-endian bit pattern. */
  datatype Value =
    | NoValue                        // Python's None: the payload of an id that is not in TYPES
    | Byte(n: int)
    | Short(n: int)
    | Int(n: int)
    | Long(n: int)
    | Float(bits: nat)
    | Double(bits: nat)
    | ByteArray(elems: seq<nat>)
    | IntArray(elems: seq<nat>)
    | String(chars: Bytes)
    | List(items: seq<Value>)
    | Compound(entries: map<Bytes, Value>)

  /** `v` is what `TYPES[t]` builds; an id outside the table gives None.
      None is the value of the ids outside the table only, and no value has
      ShortArrayKind: `shortarray` takes an extra leading parameter, so the
      call `TYPES[12](value)` never returns. */
  predicate HasKind(v: Value, t: UInt8): (r: bool)
    ensures r && v.NoValue? ==> t !in TYPES
    ensures t == 12 ==> !r
  {
    if t in TYPES then
      match TYPES[t]
      case ByteKind => v.Byte?
      case ShortKind => v.Short?
      case IntKind => v.Int?
      case LongKind => v.Long?
      case FloatKind => v.Float?
      case DoubleKind => v.Double?
      case ByteArrayKind => v.ByteArray?
      case StringKind => v.String?
      case ListKind => v.List?
      case CompoundKind => v.Compound?
      case IntArrayKind => v.IntArray?
      case ShortArrayKind => false
    else v.NoValue?
  }

  /** The ids of `TYPES` name twelve different kinds: a value has the kind of
      at most one of them. */
  lemma OneKindPerValue(v: Value, t1: UInt8, t2: UInt8)
    requires t1 in TYPES && t2 in TYPES && HasKind(v, t1) && HasKind(v, t2)
    ensures t1 == t2
  {
  }

  /** The value a scalar kind builds from the bytes of its fixed format: the
      integer kinds a value in the signed range of the width, the float kinds
      a bit pattern of the width, any other kind None. */
  function Scalar(k: Kind, bs: Bytes): (v: Value)
    requires |bs| > 0
    ensures (k.ByteKind? <==> v.Byte?) && (k.ShortKind? <==> v.Short?)
    ensures (k.IntKind? <==> v.Int?) && (k.LongKind? <==> v.Long?)
    ensures (k.FloatKind? <==> v.Float?) && (k.DoubleKind? <==> v.Double?)
    ensures v.Byte? || v.Short? || v.Int? || v.Long? || v.Float? || v.Double? || v.NoValue?
    ensures v.Byte? || v.Short? || v.Int? || v.Long? ==>
      0 <= 2 * v.n + Pow256(|bs|) && 2 * v.n < Pow256(|bs|)
    ensures v.Float? || v.Double? ==> v.bits < Pow256(|bs|)
  {
    match k
    case ByteKind => Byte(BeSigned(bs))
    case ShortKind => Short(BeSigned(bs))
    case IntKind => Int(BeSigned(bs))
    case LongKind => Long(BeSigned(bs))
    case FloatKind => Float(BeUnsigned(bs))
    case DoubleKind => Double(BeUnsigned(bs))
    case _ => NoValue
  }

  /** One compound entry as it appears on the wire: type byte, key, payload. */
  datatype Entry = Entry(tag: UInt8, key: Bytes, value: Value)

  /** The dict that `obj[name] = tag` builds from the entries, in order. */
  function ToMap(es: seq<Entry>): (m: map<Bytes, Value>)
    ensures m.Keys == set i | 0 <= i < |es| :: es[i].key
  {
    if es == [] then map[]
    else
      var last := es[|es| - 1];
      var m := ToMap(es[..|es| - 1])[last.key := last.value];
      assert forall i :: 0 <= i < |es| - 1 ==> es[..|es| - 1][i] == es[i];
      m
  }

  /** Storing one more entry updates the dict at its key. */
  lemma ToMapSnoc(es: seq<Entry>, e: Entry)
    ensures ToMap(es + [e]) == ToMap(es)[e.key := e.value]
  {
    assert (es + [e])[..|es|] == es;
  }

  /** A later entry with the same key overwrites an earlier one: the value kept
      for a key is the one of its last entry. */
  lemma {:induction false} LastWriteWins(es: seq<Entry>, i: nat)
    requires i < |es|
    requires forall j :: i < j < |es| ==> es[j].key != es[i].key
    ensures es[i].key in ToMap(es) && ToMap(es)[es[i].key] == es[i].value
  {
    if i < |es| - 1 {
      var init := es[..|es| - 1];
      LastWriteWins(init, i);
    }
  }

  datatype Error =
    | EmptyInput           // ValueError "Cannot read tag of 0 length"
    | NoRootCompound       // ValueError "No root Compound object"
    | DecodeError          // struct.error, IndexError, or an error raised by fromstring or TYPES[12]
    | NegativeArrayCount   // an array count below zero

  datatype Result<T> = Ok(value: T) | Err(error: Error)

  /** The outcome of reading one field at some offset: its value and the offset
      after it, or the error that interrupts decoding. */
  datatype Step<T> = Parsed(value: T, next: nat) | Failed(error: Error)
}
