/**
 * Fixed-width unsigned integers and the little-endian decoders that the
 * parsers use (`read_u32::<LittleEndian>` and `read_u64::<LittleEndian>`
 * of the byteorder crate), with the matching encoders as their inverses.
 */
module Bytes {

  type uint8 = x: int | 0 <= x < 0x100
  type uint32 = x: int | 0 <= x < 0x1_0000_0000
  type uint64 = x: int | 0 <= x < 0x1_0000_0000_0000_0000

  /** The little-endian 32-bit value stored in s[p..p+4]. */
  function U32At(s: seq<uint8>, p: nat): (v: uint32)
    requires p + 4 <= |s|
  {
    s[p] as int + 0x100 * s[p + 1] as int + 0x1_0000 * s[p + 2] as int + 0x100_0000 * s[p + 3] as int
  }

  /** The little-endian 64-bit value stored in s[p..p+8]: low word first. */
  function U64At(s: seq<uint8>, p: nat): (v: uint64)
    requires p + 8 <= |s|
  {
    U32At(s, p) + 0x1_0000_0000 * U32At(s, p + 4)
  }

  /** The four bytes of v, least significant first. */
  function U32Bytes(v: uint32): (bs: seq<uint8>)
  {
    [v % 0x100, v / 0x100 % 0x100, v / 0x1_0000 % 0x100, v / 0x100_0000]
  }

  /** The eight bytes of v, least significant first. */
  function U64Bytes(v: uint64): (bs: seq<uint8>)
  {
    U32Bytes(v % 0x1_0000_0000) + U32Bytes(v / 0x1_0000_0000)
  }

  /** Decoding the encoding of a value gives the value back. */
  lemma U32DecodeEncode(v: uint32)
    ensures |U32Bytes(v)| == 4 && U32At(U32Bytes(v), 0) == v
  {
    var q1 := v / 0x100;
    var q2 := q1 / 0x100;
    var r0, r1, r2, q3 := v % 0x100, q1 % 0x100, q2 % 0x100, q2 / 0x100;
    assert v == r0 + 0x100 * r1 + 0x1_0000 * r2 + 0x100_0000 * q3;
    SplitAt16(r0 + 0x100 * r1, r2 + 0x100 * q3);
    SplitAt8(r2, q3);
    SplitAt24(r0 + 0x100 * r1 + 0x1_0000 * r2, q3);
    assert U32Bytes(v) == [r0, r1, r2, q3];
  }

  /** Encoding a decoded value gives back the bytes it was decoded from. */
  lemma U32EncodeDecode(s: seq<uint8>, p: nat)
    requires p + 4 <= |s|
    ensures U32Bytes(U32At(s, p)) == s[p..p + 4]
  {
    var b0, b1, b2, b3 := s[p] as int, s[p + 1] as int, s[p + 2] as int, s[p + 3] as int;
    var v := U32At(s, p);
    SplitAt8(b0, b1 + 0x100 * b2 + 0x1_0000 * b3);
    SplitAt8(b1, b2 + 0x100 * b3);
    SplitAt16(b0 + 0x100 * b1, b2 + 0x100 * b3);
    SplitAt8(b2, b3);
    SplitAt24(b0 + 0x100 * b1 + 0x1_0000 * b2, b3);
    assert U32Bytes(v) == [b0, b1, b2, b3];
    assert s[p..p + 4] == [b0, b1, b2, b3];
  }

  /** Division and remainder by 2^8, 2^16 and 2^24 split a value into its low and high parts. */
  lemma SplitAt8(lo: int, hi: int)
    requires 0 <= lo < 0x100 && 0 <= hi
    ensures (lo + 0x100 * hi) % 0x100 == lo && (lo + 0x100 * hi) / 0x100 == hi
  {
  }

  lemma SplitAt16(lo: int, hi: int)
    requires 0 <= lo < 0x1_0000 && 0 <= hi
    ensures (lo + 0x1_0000 * hi) % 0x1_0000 == lo && (lo + 0x1_0000 * hi) / 0x1_0000 == hi
  {
  }

  lemma SplitAt24(lo: int, hi: int)
    requires 0 <= lo < 0x100_0000 && 0 <= hi
    ensures (lo + 0x100_0000 * hi) % 0x100_0000 == lo && (lo + 0x100_0000 * hi) / 0x100_0000 == hi
  {
  }

  lemma U64DecodeEncode(v: uint64)
    ensures |U64Bytes(v)| == 8 && U64At(U64Bytes(v), 0) == v
  {
    var lo, hi := v % 0x1_0000_0000, v / 0x1_0000_0000;
    U32DecodeEncode(lo);
    U32DecodeEncode(hi);
    var b := U64Bytes(v);
    assert b[..4] == U32Bytes(lo) && b[4..] == U32Bytes(hi);
    assert U32At(b, 0) == U32At(U32Bytes(lo), 0);
    assert U32At(b, 4) == U32At(U32Bytes(hi), 0);
  }

  lemma U64EncodeDecode(s: seq<uint8>, p: nat)
    requires p + 8 <= |s|
    ensures U64Bytes(U64At(s, p)) == s[p..p + 8]
  {
    var lo, hi := U32At(s, p), U32At(s, p + 4);
    var v := U64At(s, p);
    assert v % 0x1_0000_0000 == lo && v / 0x1_0000_0000 == hi;
    U32EncodeDecode(s, p);
    U32EncodeDecode(s, p + 4);
    assert s[p..p + 8] == s[p..p + 4] + s[p + 4..p + 8];
  }

  /** Two inputs that agree on their first n bytes decode equally inside them. */
  lemma U32AtPrefix(s: seq<uint8>, t: seq<uint8>, n: nat, p: nat)
    requires n <= |s| && n <= |t| && s[..n] == t[..n] && p + 4 <= n
    ensures U32At(s, p) == U32At(t, p)
  {
    assert s[p] == s[..n][p] == t[p];
    assert s[p + 1] == s[..n][p + 1] == t[p + 1];
    assert s[p + 2] == s[..n][p + 2] == t[p + 2];
    assert s[p + 3] == s[..n][p + 3] == t[p + 3];
  }

  lemma U64AtPrefix(s: seq<uint8>, t: seq<uint8>, n: nat, p: nat)
    requires n <= |s| && n <= |t| && s[..n] == t[..n] && p + 8 <= n
    ensures U64At(s, p) == U64At(t, p)
  {
    U32AtPrefix(s, t, n, p);
    U32AtPrefix(s, t, n, p + 4);
  }

  /** A u64 read sees only its own eight bytes. */
  lemma U64AtSlice(s: seq<uint8>, p: nat)
    requires p + 8 <= |s|
    ensures U64At(s, p) == U64At(s[p..p + 8], 0)
  {
    var t := s[p..p + 8];
    assert t[0] == s[p] && t[1] == s[p + 1] && t[2] == s[p + 2] && t[3] == s[p + 3];
    assert t[4] == s[p + 4] && t[5] == s[p + 5] && t[6] == s[p + 6] && t[7] == s[p + 7];
  }

  /** The bytes of an ASCII string, one per character. */
  function AsciiBytes(s: string): (bs: seq<uint8>)
    requires forall k :: 0 <= k < |s| ==> s[k] as int < 0x80
    ensures |bs| == |s| && forall k :: 0 <= k < |s| ==> bs[k] == s[k] as int
  {
    seq(|s|, k requires 0 <= k < |s| => s[k] as int)
  }
}
