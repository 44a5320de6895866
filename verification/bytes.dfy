/** Bytes as the cradle sends them, and the big-endian unsigned fields the
    replies are packed with. */
module Bytes {

  /** One octet of a bulk transfer. */
  type Byte = x: nat | x < 256

  /** Largest value plus one of a 2-byte (u16) and of a 3-byte field. */
  const Bound16: nat := 0x1_0000
  const Bound24: nat := 0x100_0000

  /** Quotient and remainder by 256 are determined by any split with a
      remainder below 256. */
  lemma DivMod256(v: nat, q: nat, r: nat)
    requires r < 256 && v == q * 256 + r
    ensures v / 256 == q && v % 256 == r
  {
  }

  /** Big-endian 2-byte field `hi lo`. */
  function Be16(hi: Byte, lo: Byte): (v: nat)
    ensures v < Bound16
    ensures v / 256 == hi && v % 256 == lo
  {
    DivMod256(hi * 256 + lo, hi, lo);
    hi * 256 + lo
  }

  /** Big-endian 3-byte field `hi mid lo`. */
  function Be24(hi: Byte, mid: Byte, lo: Byte): (v: nat)
    ensures v < Bound24
    ensures v / 65536 == hi && (v / 256) % 256 == mid && v % 256 == lo
  {
    var top := hi * 256 + mid;
    var v := top * 256 + lo;
    DivMod256(v, top, lo);
    DivMod256(top, hi, mid);
    assert v == hi * 65536 + (mid * 256 + lo) && mid * 256 + lo < 65536;
    v
  }

  /** The two bytes, most significant first, that encode `v`. */
  function Be16Bytes(v: nat): (b: seq<Byte>)
    requires v < Bound16
    ensures |b| == 2
    ensures Be16(b[0], b[1]) == v
  {
    [v / 256, v % 256]
  }

  /** The three bytes, most significant first, that encode `v`. */
  function Be24Bytes(v: nat): (b: seq<Byte>)
    requires v < Bound24
    ensures |b| == 3
    ensures Be24(b[0], b[1], b[2]) == v
  {
    var top := v / 256;
    assert top < 65536;
    assert top / 256 == v / 65536;
    [v / 65536, top % 256, v % 256]
  }

  /** Decoding a 3-byte field and encoding it again gives back the bytes. */
  lemma Be24Injective(hi: Byte, mid: Byte, lo: Byte)
    ensures Be24Bytes(Be24(hi, mid, lo)) == [hi, mid, lo]
  {
  }

  /** Decoding a 2-byte field and encoding it again gives back the bytes. */
  lemma Be16Injective(hi: Byte, lo: Byte)
    ensures Be16Bytes(Be16(hi, lo)) == [hi, lo]
  {
  }
}
