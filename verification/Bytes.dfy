/** Bytes and the unaligned 16 and 32 bit fields that get_u16/put_u16 and
    get_u32/put_u32 read and write (cutils.h). The byte order is the little
    endian one; nothing else in the project depends on the order. */
module Bytes {

  type byte = x: int | 0 <= x < 256

  const TWO16: int := 0x1_0000
  const TWO31: int := 0x8000_0000
  const TWO32: int := 0x1_0000_0000

  /** The reserved value that CharRange uses for "no upper limit". */
  const UINT32_MAX: int := 0xffff_ffff

  function U16(v: int): (s: seq<byte>)
    requires 0 <= v < TWO16
    ensures |s| == 2
  {
    [v % 256, v / 256]
  }

  function U32(v: int): (s: seq<byte>)
    requires 0 <= v < TWO32
    ensures |s| == 4
  {
    [v % 256, v / 256 % 256, v / 65536 % 256, v / 16777216]
  }

  function GetU16(s: seq<byte>, i: int): (v: int)
    requires 0 <= i <= |s| - 2
    ensures 0 <= v < TWO16
  {
    var a: int, b: int := s[i], s[i + 1];
    a + 256 * b
  }

  function GetU32(s: seq<byte>, i: int): (v: int)
    requires 0 <= i <= |s| - 4
    ensures 0 <= v < TWO32
  {
    var a: int, b: int, c: int, d: int := s[i], s[i + 1], s[i + 2], s[i + 3];
    a + 256 * b + 65536 * c + 16777216 * d
  }

  /** The 32 bit pattern of a signed displacement. */
  function OfSigned(d: int): (v: int)
    ensures 0 <= v < TWO32
  {
    d % TWO32
  }

  /** The cast (int)get_u32(..). */
  function Signed(v: int): (d: int)
    requires 0 <= v < TWO32
    ensures -TWO31 <= d < TWO31
  {
    if v < TWO31 then v else v - TWO32
  }

  /** A field that was put is the field that is got back. */
  lemma Field32(v: int, s: seq<byte>, i: int)
    requires 0 <= v < TWO32 && 0 <= i <= |s| - 4
    requires s[i..i + 4] == U32(v)
    ensures GetU32(s, i) == v
  {
    var f := U32(v);
    assert f[0] == s[i] && f[1] == s[i + 1] && f[2] == s[i + 2] && f[3] == s[i + 3] by {
      var g := s[i..i + 4];
      assert g[0] == s[i] && g[1] == s[i + 1] && g[2] == s[i + 2] && g[3] == s[i + 3];
    }
  }

  lemma Field16(v: int, s: seq<byte>, i: int)
    requires 0 <= v < TWO16 && 0 <= i <= |s| - 2
    requires s[i..i + 2] == U16(v)
    ensures GetU16(s, i) == v
  {
    var f := U16(v);
    assert f[0] == s[i] && f[1] == s[i + 1] by {
      var g := s[i..i + 2];
      assert g[0] == s[i] && g[1] == s[i + 1];
    }
  }

  lemma SignedRoundTrip(d: int)
    requires -TWO31 <= d < TWO31
    ensures Signed(OfSigned(d)) == d
  {
    if d >= 0 {
      assert d % TWO32 == d;
    } else {
      assert d % TWO32 == d + TWO32;
    }
  }
}
