/**
  Bytes and the little-endian integer fields every DWM1001 characteristic is
  built from: `struct` formats `<H`, `<I`, `<i` and `int.from_bytes(..., "little")`
  with and without `signed=True`, plus the encoders that write them back.
 */
module Bytes {

  /** One octet of a characteristic value. */
  type byte = b: int | 0 <= b < 256

  const TWO_16: int := 0x1_0000
  const TWO_31: int := 0x8000_0000
  const TWO_32: int := 0x1_0000_0000

  predicate IsUInt32(v: int) { 0 <= v < TWO_32 }

  predicate IsInt32(v: int) { -TWO_31 <= v < TWO_31 }

  function Min(a: int, b: int): int { if a <= b then a else b }

  /** How many whole `width`-byte entries fit in a buffer of `len` bytes from `off` on. */
  function Fit(len: nat, off: nat, width: nat): nat
    requires width > 0
  {
    if off <= len then (len - off) / width else 0
  }

  /** Python `s[:n]`: a slice past the end stops at the end instead of failing. */
  function Take<T>(s: seq<T>, n: nat): (r: seq<T>)
    ensures |r| == if n <= |s| then n else |s|
    ensures forall i :: 0 <= i < |r| ==> r[i] == s[i]
  {
    if n <= |s| then s[..n] else s
  }

  /** Python `s[n:]`: empty when `n` is past the end. */
  function Drop<T>(s: seq<T>, n: nat): (r: seq<T>)
    ensures Take(s, n) + r == s
    ensures |r| == if n <= |s| then |s| - n else 0
  {
    if n <= |s| then s[n..] else []
  }

  /** Python `s[lo:hi]` with non-negative bounds: both ends stop at the end of `s`. */
  function Slice<T>(s: seq<T>, lo: nat, hi: nat): (r: seq<T>)
    ensures lo <= hi <= |s| ==> r == s[lo..hi]
  {
    var end := if hi <= |s| then hi else |s|;
    if lo <= end then s[lo..end] else []
  }

  /** `struct.unpack("<H", s)`. */
  function U16LE(s: seq<byte>): (r: nat)
    requires |s| == 2
    ensures r < TWO_16
  {
    s[0] as int + 256 * s[1] as int
  }

  /** `struct.unpack("<I", s)`, also `int.from_bytes(s, "little")` on four bytes. */
  function U32LE(s: seq<byte>): (r: nat)
    requires |s| == 4
    ensures IsUInt32(r)
  {
    s[0] as int + 256 * (s[1] as int + 256 * (s[2] as int + 256 * s[3] as int))
  }

  /** `struct.unpack("<i", s)`: two's complement of the unsigned reading. */
  function S32LE(s: seq<byte>): (r: int)
    requires |s| == 4
    ensures IsInt32(r)
    ensures r < 0 <==> s[3] >= 128
    ensures r == U32LE(s) || r == U32LE(s) - TWO_32
  {
    var u := U32LE(s);
    if u < TWO_31 then u else u - TWO_32
  }

  /** `struct.pack("<H", v)`. */
  function LE16(v: nat): (r: seq<byte>)
    requires v < TWO_16
    ensures |r| == 2
    ensures U16LE(r) == v
  {
    [v % 256, v / 256]
  }

  /** `struct.pack("<I", v)` for a value in range. */
  function LE32(v: nat): (r: seq<byte>)
    requires IsUInt32(v)
    ensures |r| == 4
    ensures U32LE(r) == v
  {
    var q1 := v / 256;
    var q2 := q1 / 256;
    assert q2 / 256 < 256;
    [v % 256, q1 % 256, q2 % 256, q2 / 256]
  }

  /** `struct.pack("<i", v)` for a value in range. */
  function LES32(v: int): (r: seq<byte>)
    requires IsInt32(v)
    ensures |r| == 4
    ensures S32LE(r) == v
  {
    LE32(if v < 0 then v + TWO_32 else v)
  }

  /** Four bytes are fully determined by their unsigned reading. */
  lemma LE32OfU32LE(s: seq<byte>)
    requires |s| == 4
    ensures LE32(U32LE(s)) == s
  {
    var u := U32LE(s);
    var q1 := s[1] as int + 256 * (s[2] as int + 256 * s[3] as int);
    var q2 := s[2] as int + 256 * s[3] as int;
    assert u == s[0] as int + 256 * q1;
    assert u / 256 == q1 && u % 256 == s[0];
    assert q1 / 256 == q2 && q1 % 256 == s[1];
    assert q2 / 256 == s[3] && q2 % 256 == s[2];
  }

  /** ... and by their signed reading. */
  lemma LES32OfS32LE(s: seq<byte>)
    requires |s| == 4
    ensures LES32(S32LE(s)) == s
  {
    LE32OfU32LE(s);
  }

  /** Two bytes are fully determined by their unsigned reading. */
  lemma LE16OfU16LE(s: seq<byte>)
    requires |s| == 2
    ensures LE16(U16LE(s)) == s
  {
  }
}
