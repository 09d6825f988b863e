/** Big-endian integers over a byte buffer: what the `struct` formats `>b`, `>h`,
    `>i`, `>q`, `>H` and the numpy dtypes `uint8`, `>u2`, `>u4` read from the wire. */
module BigEndian {

  type UInt8 = b: int | 0 <= b < 256

  type Bytes = seq<UInt8>

  /** The element widths of the array dtypes: `uint8`, `>u2` and `>u4`. */
  type ItemSize = w: nat | w == 1 || w == 2 || w == 4 witness 1

  function Min(a: int, b: int): int { if a <= b then a else b }

  function Max(a: int, b: int): int { if a <= b then b else a }

  function Pow256(n: nat): (p: nat)
    ensures p >= 1
  {
    if n == 0 then 1 else 256 * Pow256(n - 1)
  }

  /** Unsigned big-endian value of `bs`: the first byte is the most significant. */
  function BeUnsigned(bs: Bytes): (u: nat)
    ensures u < Pow256(|bs|)
  {
    if |bs| == 0 then 0 else BeUnsigned(bs[..|bs| - 1]) * 256 + bs[|bs| - 1]
  }

  /** A 2-byte field read big-endian. */
  lemma TwoBytes(bs: Bytes, i: nat)
    requires i + 2 <= |bs|
    ensures BeUnsigned(bs[i..i + 2]) == (bs[i] as int) * 256 + bs[i + 1]
  {
    var two := bs[i..i + 2];
    assert two[..1][..0] == [];
    assert BeUnsigned(two[..1]) == bs[i];
  }

  /** A 1-byte field is its byte. */
  lemma OneByte(bs: Bytes, i: nat)
    requires i + 1 <= |bs|
    ensures BeUnsigned(bs[i..i + 1]) == bs[i]
  {
    assert bs[i..i + 1][..0] == [];
  }

  /** The same value, split after the leading byte instead of before the last one. */
  lemma {:induction false} BeUnsignedFront(bs: Bytes)
    requires |bs| > 0
    ensures BeUnsigned(bs) == bs[0] * Pow256(|bs| - 1) + BeUnsigned(bs[1..])
  {
    if |bs| > 1 {
      var init := bs[..|bs| - 1];
      BeUnsignedFront(init);
      assert init[1..] == bs[1..][..|bs| - 2];
      var p := Pow256(|bs| - 2);
      var a := bs[0];
      calc {
        a * Pow256(|bs| - 1);
        a * (256 * p);
        { MulAssoc(a, p); }
        256 * (a * p);
      }
    } else {
      assert bs[1..] == [];
    }
  }

  lemma MulAssoc(a: int, p: int)
    ensures a * (256 * p) == 256 * (a * p)
  {
  }

  lemma MulLe(a: int, b: int, p: nat)
    requires a <= b
    ensures a * p <= b * p
  {
    assert b * p - a * p == (b - a) * p;
  }

  /** Two's-complement big-endian value of `bs`, as the signed `struct` formats
      read it: an unsigned value in the upper half of the range stands for that
      value minus 256^|bs|. */
  function BeSigned(bs: Bytes): (s: int)
    requires |bs| > 0
    ensures 0 <= 2 * s + Pow256(|bs|) && 2 * s < Pow256(|bs|)
    ensures BeUnsigned(bs) == if s < 0 then s + Pow256(|bs|) else s
  {
    var u := BeUnsigned(bs);
    if 2 * u >= Pow256(|bs|) then u - Pow256(|bs|) else u
  }

  /** The sign of a two's-complement value is the top bit of its first byte. */
  lemma SignBit(bs: Bytes)
    requires |bs| > 0
    ensures BeSigned(bs) < 0 <==> bs[0] >= 128
  {
    BeUnsignedFront(bs);
    var p := Pow256(|bs| - 1);
    assert Pow256(|bs|) == 256 * p;
    if bs[0] >= 128 { MulLe(128, bs[0], p); } else { MulLe(bs[0], 127, p); }
  }

  /** `n * w` for an item size `w`, written out per size so that it stays linear. */
  function Scale(n: int, w: ItemSize): int {
    if w == 1 then n else if w == 2 then 2 * n else 4 * n
  }

  /** `n` bytes make a whole number of `w`-byte items. */
  predicate Fits(n: nat, w: ItemSize) {
    if w == 1 then true else if w == 2 then n % 2 == 0 else n % 4 == 0
  }

  /** numpy `fromstring(raw, dtype)` for an unsigned big-endian dtype of `width`
      bytes: one element per `width`-byte group, in order. */
  function Chunks(raw: Bytes, width: ItemSize): (elems: seq<nat>)
    requires Fits(|raw|, width)
    ensures Scale(|elems|, width) == |raw|
    ensures forall i :: 0 <= i < |elems| ==> elems[i] < Pow256(width)
    decreases |raw|
  {
    if |raw| == 0 then []
    else [BeUnsigned(raw[..width])] + Chunks(raw[width..], width)
  }

  /** Element `i` of `fromstring` is the `i`-th `width`-byte group read big-endian. */
  lemma {:induction false} ChunkAt(raw: Bytes, width: ItemSize, i: nat)
    requires Fits(|raw|, width)
    requires i < |Chunks(raw, width)|
    ensures Scale(i, width) + width <= |raw|
    ensures Chunks(raw, width)[i] == BeUnsigned(raw[Scale(i, width)..Scale(i, width) + width])
    decreases i
  {
    var rest := raw[width..];
    assert rest == raw[width..|raw|];
    assert Chunks(raw, width) == [BeUnsigned(raw[..width])] + Chunks(rest, width);
    if i > 0 {
      ChunkAt(rest, width, i - 1);
      var j := Scale(i - 1, width);
      assert Scale(i, width) == width + j;
      SliceOfSlice(raw, width, |raw|, j, j + width);
    }
  }

  /** A slice of a slice is a slice of the whole. */
  lemma SliceOfSlice(s: Bytes, lo: nat, hi: nat, a: nat, b: nat)
    requires lo <= hi <= |s| && a <= b <= hi - lo
    ensures s[lo..hi][a..b] == s[lo + a..lo + b]
  {
    assert forall k :: 0 <= k < b - a ==> s[lo..hi][a..b][k] == s[lo + a + k];
  }
}
