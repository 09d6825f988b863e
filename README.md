# NBT decoder of nbt.py, modelled in Dafny

This project models the decoder of `nbt.py`. The decoder reads Minecraft's
Named Binary Tag (NBT) format from an already decompressed byte buffer and
returns the root compound as a dict.

- **Dispatch tables.** `TYPES`, `STRUCTS` and `DTYPES` are the maps
  `Tags.TYPES`, `Tags.STRUCTS` and `Tags.DTYPES`. Values are the datatype
  `Tags.Value`. An id outside `TYPES` gives `NoValue`, which stands for Python's
  None.
- **Wire integers.** `struct` formats and numpy dtypes are big-endian unsigned
  and two's-complement integers over bytes (`BigEndian`). numpy
  `fromstring(raw, dtype)` is `BigEndian.Chunks`.
- **Specification functions.** Module `Decoder` has one pure function per
  routine. Each says what the routine reads from a given offset: the value and
  the offset after it, or an error.
  - `StringField` is `load_string`.
  - `Payload`, with `ArrayPayload`, `ListPayload` and `ListItems`, is
    `_serialize`.
  - `CompoundBody` is `_NBTtoDict`.
  - `Document` is `_load`.
- **Cursor.** `ctxobj` is the class `Reader.Cursor`, holding the buffer and a
  mutable offset. Its methods follow the source's recursive routines statement
  by statement. They move the offset forward in place, and each is proved to
  return what its specification function returns and to leave the offset where
  that function says. `Reader.Load` is `_load` and is proved equal to
  `Document`.
- **Properties** (`Properties`, `Documents`):
  - what each type id consumes and builds;
  - the count quirks of the array ids;
  - that every decoded value has the kind `TYPES` names;
  - what a decode depends on, where a decode stops, and that the root name is
    ignored;
  - a few documents decoded byte by byte.

The model follows the code as written. In four places this differs from what a
strict NBT decoder would do:

- **Byte and short array counts.** Ids 7 and 12 read their element count with
  the element's own format: one signed byte for id 7, a signed short for id 12.
  It is not read as a 4-byte integer, even though the offset still skips a
  4-byte prefix (`nbt.py:50`, `nbt.py:52`, `nbt.py:82`).
  `Documents.ByteArrayCountFromFirstByte` shows a correctly written byte array
  that fails to decode because of this.
- **Truncated input.** Slices clamp to the end of the buffer:
  - a string or a byte array whose length runs past the end keeps the bytes
    that are there;
  - an int array does so only if the bytes that are there form whole 4-byte
    items; otherwise `fromstring` raises;
  - the offset still moves on by the full length;
  - a compound that reaches the end of the buffer without its 0 byte ends
    without an error.

  The decoder does not fail with a truncation error in these cases.
  `Documents.MissingTerminator` shows one such document.
- **Strings and nesting.** Strings are kept as bytes and are never validated as
  UTF-8. The code sets no depth limit on nesting.
- **Id 12 never decodes.** `shortarray` (`nbt.py:25`) takes an extra leading
  parameter, so the call `TYPES[12](value)` raises. The model therefore fails on
  id 12.

An id 0 or an id of 13 or more passed to `_serialize` gives None and consumes
nothing. It is not an error.

Every exception the source can raise while decoding is the one outcome
`DecodeError`: `struct.error`, `IndexError`, the `ValueError` of `fromstring`,
and the `TypeError` of id 12. The two `ValueError`s of `_load` are
`EmptyInput` and `NoRootCompound`.

## Model

| member | source | states |
|---|---|---|
| `BigEndian.BeUnsigned` | nbt.py:55-59 | the unsigned big-endian value of n bytes is below 256^n |
| `BigEndian.BeSigned` | nbt.py:43-52 | the signed formats' two's-complement value lies in [-256^n/2, 256^n/2) and equals the unsigned value, less 256^n when negative |
| `BigEndian.SignBit` | nbt.py:44-47 | a signed value is negative exactly when the top bit of its first byte is set |
| `BigEndian.Chunks` | nbt.py:83 | `fromstring` of whole items: count × width equals the number of bytes, and every element fits the width |
| `BigEndian.ChunkAt` | nbt.py:83 | element i of `fromstring` is the big-endian value of the i-th width-byte group |
| `Tags.ToMap` | nbt.py:110-122 | the dict built by `obj[name] = tag` has exactly the keys of the entries read |
| `Tags.ToMapSnoc` | nbt.py:121 | storing one more entry updates the dict at that entry's key and nowhere else |
| `Tags.LastWriteWins` | nbt.py:121 | a key maps to the value of its last entry: a later duplicate overwrites an earlier one |
| `Decoder.StringField` | nbt.py:102-108 | `load_string` succeeds exactly when the 2-byte length is there; the offset moves on by length + 2; the string is the bytes after the length, clamped to the end of the buffer |
| `Tags.HasKind` | nbt.py:28-41 | the kind `TYPES` names for an id: None is the value of the ids outside the table only, and no value has the kind of id 12 |
| `Tags.OneKindPerValue` | nbt.py:28-41 | the twelve ids of `TYPES` name different kinds: a value has the kind of at most one of them |
| `Tags.Scalar` | nbt.py:76-77 | `TYPES[t](value)` for ids 1 to 6 builds the constructor of exactly that kind; an integer lies in the signed range of the width, and a float's bit pattern fits the width |
| `Decoder.Unpack` | nbt.py:76 | `fmt.unpack_from` gives a signed format's value within the signed range of the width, and an IEEE format's bit pattern within the width |
| `Decoder.ArrayPayload` | nbt.py:79-85 | a decoded array never moves the offset back and is of the kind `TYPES` names for the id; one whose end offset falls inside the 4-byte prefix is empty |
| `Decoder.ListPayload` | nbt.py:88-97 | a decoded list consumes at least its type byte and 4-byte count, and is a list |
| `Decoder.Payload` | nbt.py:71-100 | `_serialize` never moves the offset back; an id outside `TYPES` gives None and consumes nothing |
| `Decoder.ListItems` | nbt.py:94-97 | the list loop yields exactly `count` items and never moves the offset back |
| `Decoder.CompoundBody` | nbt.py:110-122 | `_NBTtoDict` stops either at the end of the buffer or right after a 0 type byte |
| `Decoder.ListItemsStep` | nbt.py:95-97 | one pass of the list loop: a payload of the element type, then the remaining items, or the payload's error |
| `Decoder.CompoundBodyStops` | nbt.py:113-116 | a 0 type byte ends the compound with no entries, after consuming that byte |
| `Decoder.EntryField` | nbt.py:118-119 | an entry is its key, as `load_string` reads it, then its payload; it takes at least the 2 bytes of the key length |
| `Decoder.CompoundBodyEntry` | nbt.py:112-121 | a nonzero type byte gives one entry (type, key, payload) followed by the rest of the compound, or the error of that entry |
| `Decoder.CompoundBodyExtend` | nbt.py:112-121 | the `_NBTtoDict` loop invariant: the entries so far, then this entry, then what follows it make up the whole compound |
| `Decoder.Document` | nbt.py:128-142 | an empty buffer fails with EmptyInput and a first byte other than 10 with NoRootCompound; a decoded document starts with 10 and has at least 3 bytes |
| `Reader.Cursor.constructor` | nbt.py:136-138 | the cursor holds the buffer and the starting offset |
| `Reader.Cursor.LoadString` | nbt.py:102-108 | `load_string` on the cursor returns `StringField` at the old offset and leaves the offset at its end |
| `Reader.Cursor.Serialize` | nbt.py:71-100 | `_serialize` on the cursor returns `Payload` at the old offset and leaves the offset at its end |
| `Reader.Cursor.ReadArray` | nbt.py:79-85 | the array branch returns `ArrayPayload` at the old offset and leaves the offset at its end |
| `Reader.Cursor.ReadList` | nbt.py:88-97 | the list branch returns `ListPayload` at the old offset and leaves the offset at its end |
| `Reader.Cursor.NbtToDict` | nbt.py:110-122 | `_NBTtoDict` returns the dict of the `CompoundBody` entries and leaves the offset at its end, or fails with its error |
| `Reader.Cursor.ReadEntry` | nbt.py:118-119 | the key and payload of one entry are `EntryField` at the old offset, and the offset ends after them |
| `Reader.Load` | nbt.py:128-142 | `_load` returns exactly `Document` of the buffer |
| `Properties.ScalarField` | nbt.py:73-78 | ids 1 to 6 succeed exactly when their format's bytes are there, and build `TYPES[t]` of those bytes |
| `Properties.IntegerLayout` | nbt.py:73-78 | ids 1 to 4 succeed exactly when 1, 2, 4 or 8 bytes are there, consume exactly those bytes, and give Byte, Short, Int or Long of their two's-complement value, which is negative exactly when the top bit is set and lies within the signed range of the width |
| `Properties.FloatLayout` | nbt.py:73-78 | ids 5 and 6 consume exactly 4 or 8 bytes and keep their big-endian bit pattern as a Float or Double |
| `Properties.ArrayCount` | nbt.py:79-85 | a decoded byte or int array has its count read from the first 1 or 4 bytes; the offset moves on by 4 + count × itemsize, which is never negative; a count of zero or below gives an empty array |
| `Properties.ByteArrayDecodes` | nbt.py:79-85 | a byte array decodes if and only if its count byte is there and the count is -4 or more |
| `Properties.IntArrayDecodes` | nbt.py:79-85 | an int array decodes if and only if its 4 count bytes are there, the count is -1 or more, and the element bytes the buffer holds make whole 4-byte items |
| `Properties.ArrayRaw` | nbt.py:83 | the elements are `fromstring` of the bytes from the end of the prefix to the end offset, both clamped to the buffer, and none when the end offset falls inside the prefix |
| `Properties.ByteArrayElements` | nbt.py:83-84 | a byte array's element i is the byte at offset + 4 + i, and there is one element per byte available |
| `Properties.IntArrayElements` | nbt.py:83-84 | an int array's element i is the unsigned big-endian value of the 4 bytes at offset + 4 + 4i |
| `Properties.ShortArrayNeverDecodes` | nbt.py:25-26 | a payload of id 12 always fails |
| `Properties.ListLayout` | nbt.py:88-97 | a list has a type byte and a 4-byte signed count, holds max(count, 0) items, and every item is of the kind of the declared element type |
| `Properties.EmptyListDecodes` | nbt.py:88-97 | a list whose 4-byte count is zero or below decodes to the empty list once its 5 header bytes are there, and moves the offset past exactly those 5 bytes |
| `Properties.PayloadKind` | nbt.py:28-41 | every decoded payload has the kind `TYPES` names for its id, or is None for an id outside the table |
| `Properties.ListKinds` | nbt.py:94-97 | every list item has the kind of the list's element type |
| `Properties.BodyKinds` | nbt.py:112-121 | no compound entry has type 0, and every entry's value has the kind of its type byte |
| `Properties.PayloadAtEnd` | nbt.py:71-100 | at or past the end of the buffer only a compound (empty) and an unknown id (None) decode, and neither moves the offset |
| `Properties.StringFieldLocal` | nbt.py:102-108 | `load_string` depends only on the bytes from its offset on |
| `Properties.ArrayLocal` | nbt.py:79-85 | an array payload depends only on the bytes from its offset on |
| `Properties.PayloadLocal` | nbt.py:71-100 | `_serialize` depends only on the bytes from its offset on |
| `Properties.ListLocal` | nbt.py:94-97 | the list loop depends only on the bytes from its offset on |
| `Properties.BodyLocal` | nbt.py:110-122 | `_NBTtoDict` depends only on the bytes from its offset on |
| `Properties.DocumentAfterRootName` | nbt.py:134-142 | after the type byte 10, the document is the dict of the compound body that starts right after the root name, or that body's error |
| `Properties.RootNameIgnored` | nbt.py:140 | documents that differ only in the bytes of the root name decode alike |
| `Documents.ShortEntry` | nbt.py:128-142 | `0A 00 00 02 00 01 'a' 00 05 00` decodes to {"a": Short 5} |
| `Documents.MissingTerminator` | nbt.py:112 | the same document without its final 0 byte still decodes to {"a": Short 5} |
| `Documents.DuplicateKey` | nbt.py:121 | a compound with "a" = Byte 7, then "a" = Byte 9, decodes to {"a": Byte 9} |
| `Documents.LaterEntryKept` | nbt.py:121 | the dict of those two entries keeps only the later one |
| `Documents.ByteArrayCountFromFirstByte` | nbt.py:50 | a byte array written with the count 00 00 00 03 is read as count 0, and the document then fails |
| `Documents.NegativeByteCount` | nbt.py:82-85 | a byte array whose count byte is FF (-1) decodes to an empty array, and the offset moves on by 3 |
| `Documents.ShortArrayNegativeCount` | nbt.py:82-85 | a document whose short array has the count FFFD (-3) fails with DecodeError, as id 12 always does |
| `Documents.NegativeCountRejected` | nbt.py:82-85 | a document whose byte array has the count F9 (-7) fails with NegativeArrayCount |

## Left out

- `gunzip`, `try_gunzip` and `load` (nbt.py:61-69, nbt.py:146-148) are not part of this model. They decompress with gzip. `Document` and `Reader.Load` take the already decompressed bytes.
- The conversion of a `str` argument to a numpy `uint8` array (nbt.py:129-130) is left out: the buffer is a sequence of bytes from the start.
- Floats and doubles are not interpreted as IEEE 754 numbers. They are kept as their raw 32- or 64-bit patterns, because Dafny has no floating point.
- The numpy scalar and array types are left out. Integers are unbounded values, proved to lie in the width's range, and arrays are sequences of naturals.
- Decoder.ArrayPayload: for ids 7 and 11, a count whose end offset 4 + count × itemsize is still 0 or more is modelled as the source behaves: the slice is empty, the array is empty, and the offset moves on by 0 to 3 bytes. A count below that is the failure `NegativeArrayCount`. There, the source slices from the end of the buffer, often decodes on, and moves the offset backwards. `_NBTtoDict` can then read the same entry again and again without end: `0A 00 00 07 00 00 F9` (`Documents.NegativeCountRejected`) sends the offset from 6 back to 3. The model fails instead, so every decoder moves only forward and always terminates. Id 12 is not affected: it raises before its offset moves, whatever its count, and fails with `DecodeError` in the model too (`Documents.ShortArrayNegativeCount`).
- Documents.NegativeCountRejected: states the model's failure `NegativeArrayCount` for `0A 00 00 07 00 00 F9`. The source instead moves the offset from 6 back to 3 and does not terminate, as the line above says.
- Decoder.Payload: all exceptions raised while decoding are the single outcome `DecodeError`. The model does not tell which Python exception is raised.
- Reader.Cursor.Serialize: after a failure, the cursor's offset is left unspecified, because the source propagates the exception and abandons the cursor. The same holds for `Reader.Cursor.LoadString`, `Reader.Cursor.ReadArray`, `Reader.Cursor.ReadList`, `Reader.Cursor.NbtToDict` and `Reader.Cursor.ReadEntry`.
- Decoder.Payload: nesting depth is unbounded in the model. Run by CPython, deeply nested lists and compounds exhaust the interpreter's recursion limit and raise `RuntimeError` (each compound level costs two frames, `_serialize` and `_NBTtoDict`). The model decodes any depth.
- The source has no encoder, so there is no round-trip property.
- The dict's iteration order is left out. A compound is a map from key bytes to values.
