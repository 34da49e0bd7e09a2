/** Bytes and big-endian fields, as Python's `struct` module packs them. */
module Bytes {
  type byte = b: int | 0 <= b < 256 witness 0

  type Octets = seq<byte>

  /** The unsigned 16-bit field at offset `i`. */
  function U16(b: Octets, i: nat): (v: int)
    requires i + 2 <= |b|
    ensures 0 <= v < 0x1_0000
  {
    (b[i] as int) * 256 + b[i + 1]
  }

  function PackU16(v: int): (b: Octets)
    requires 0 <= v < 0x1_0000
    ensures |b| == 2 && U16(b, 0) == v
  {
    [v / 256, v % 256]
  }

  /** The unsigned 32-bit field at offset `i`. */
  function U32(b: Octets, i: nat): (v: int)
    requires i + 4 <= |b|
    ensures 0 <= v < 0x1_0000_0000
  {
    U16(b, i) * 0x1_0000 + U16(b, i + 2)
  }

  function PackU32(v: int): (b: Octets)
    requires 0 <= v < 0x1_0000_0000
    ensures |b| == 4
  {
    PackU16(v / 0x1_0000) + PackU16(v % 0x1_0000)
  }

  lemma U16Packed(pre: Octets, v: int, post: Octets)
    requires 0 <= v < 0x1_0000
    ensures U16(pre + PackU16(v) + post, |pre|) == v
  {
    var b := pre + PackU16(v) + post;
    assert b[|pre|] == PackU16(v)[0] && b[|pre| + 1] == PackU16(v)[1];
  }

  lemma U32Packed(pre: Octets, v: int, post: Octets)
    requires 0 <= v < 0x1_0000_0000
    ensures U32(pre + PackU32(v) + post, |pre|) == v
  {
    hide U16, PackU16;
    var hi, lo := v / 0x1_0000, v % 0x1_0000;
    U16Packed(pre, hi, PackU16(lo) + post);
    U16Packed(pre + PackU16(hi), lo, post);
    assert pre + PackU32(v) + post == pre + PackU16(hi) + (PackU16(lo) + post);
    assert pre + PackU32(v) + post == (pre + PackU16(hi)) + PackU16(lo) + post;
  }

  /** The unsigned little-endian 32-bit field at offset `i`. */
  function LittleU32(b: Octets, i: nat): (v: nat)
    requires i + 4 <= |b|
  {
    (b[i] as int) + 0x100 * (b[i + 1] as int) + 0x1_0000 * (b[i + 2] as int) + 0x100_0000 * (b[i + 3] as int)
  }

  function PackLittleU32(v: nat): (b: Octets)
    requires v < 0x1_0000_0000
    ensures |b| == 4 && LittleU32(b, 0) == v
  {
    LittleDigits(v);
    [v % 0x100, v / 0x100 % 0x100, v / 0x1_0000 % 0x100, v / 0x100_0000]
  }

  lemma LittleDigits(v: nat)
    requires v < 0x1_0000_0000
    ensures v == v % 0x100 + 0x100 * (v / 0x100 % 0x100) + 0x1_0000 * (v / 0x1_0000 % 0x100) + 0x100_0000 * (v / 0x100_0000)
  {
    assert v / 0x1_0000 == v / 0x100 / 0x100;
    assert v / 0x100_0000 == v / 0x1_0000 / 0x100;
  }

  /** Python's slice `b[lo:hi]`, for nonnegative bounds. */
  function Slice(b: Octets, lo: nat, hi: nat): (s: Octets)
    ensures |s| == if hi <= lo || |b| <= lo then 0 else if hi <= |b| then hi - lo else |b| - lo
  {
    var top := if hi <= |b| then hi else |b|;
    if lo <= top then b[lo..top] else []
  }

  /** Python's `b[i:]`. */
  function From(b: Octets, i: nat): Octets {
    if i <= |b| then b[i..] else []
  }

  lemma FromFrom(b: Octets, i: nat, lo: nat)
    ensures From(From(b, i), lo) == From(b, i + lo)
  {
    if i + lo <= |b| {
      assert b[i..][lo..] == b[i + lo..];
    }
  }

  lemma SliceFrom(b: Octets, i: nat, lo: nat, hi: nat)
    requires lo <= hi
    ensures Slice(From(b, i), lo, hi) == Slice(b, i + lo, i + hi)
  {
    if i + lo <= |b| {
      var top := if i + hi <= |b| then i + hi else |b|;
      assert b[i..][lo..top - i] == b[i + lo..top];
    }
  }

  lemma FieldFrom(b: Octets, i: nat, at: nat)
    requires i + at + 2 <= |b|
    ensures U16(From(b, i), at) == U16(b, i + at)
  {
  }

  lemma FromStart(b: Octets, i: nat)
    requires i <= |b|
    ensures From(b, i) == b[i..]
  {
  }

  lemma FromEnd(b: Octets, i: nat)
    ensures |From(b, i)| == if i <= |b| then |b| - i else 0
  {
  }
}
