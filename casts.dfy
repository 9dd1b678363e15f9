// The C conversions of a signed number into a narrower unsigned field: the
// value is kept modulo 2^width. A 16-bit word is assembled from its two
// bytes, and read back as a number from them, so that no proof has to reason
// about the conversion of a wide number as a whole.

module Casts {
  import opened Wire

  lemma SmallModulo(x: int, m: int)
    requires 0 <= x < m
    ensures x % m == x
  {
  }

  lemma SmallValue4(y: int)
    requires 0 <= y < 16
    ensures (y as bv4) as int == y
  {
  }

  lemma SmallValue6(y: int)
    requires 0 <= y < 64
    ensures (y as bv6) as int == y
  {
  }

  lemma NibblesValue(h: bv4, l: bv4)
    ensures (((h as bv8) << 4) | (l as bv8)) as int == 16 * (h as int) + l as int
  {
  }

  lemma ByteArith(x: int)
    ensures (x / 16) % 16 * 16 + x % 16 == x % 256
  {
    var q, r := x / 16, x % 16;
    var b := q % 16;
    assert x == 16 * q + r;
    assert q == 16 * (q / 16) + b;
    assert x == 256 * (q / 16) + (16 * b + r);
    assert 0 <= 16 * b + r < 256;
  }

  /** (uint8_t) x, nibble by nibble. */
  function Cast8(x: int): (b: bv8)
    ensures b as int == x % 256
  {
    NibblesValue(Cast4(x / 16), Cast4(x));
    ByteArith(x);
    ((Cast4(x / 16) as bv8) << 4) | (Cast4(x) as bv8)
  }

  /** x stored in a 6-bit field */
  function Cast6(x: int): (b: bv6)
    ensures b as int == x % 64
  {
    SmallValue6(x % 64);
    (x % 64) as bv6
  }

  /** x stored in a 4-bit field */
  function Cast4(x: int): (b: bv4)
    ensures b as int == x % 16
  {
    SmallValue4(x % 16);
    (x % 16) as bv4
  }

  /** x stored in a 3-bit field */
  function Cast3(x: int): (b: bv3)
    ensures b as int == x % 8
  {
    (x % 8) as bv3
  }

  /** x stored in a 2-bit field */
  function Cast2(x: int): (b: bv2)
    ensures b as int == x % 4
  {
    (x % 4) as bv2
  }

  /** (uint16_t) x, byte by byte. */
  function Cast16(x: int): bv16
  {
    U16At([Cast8(x / 256), Cast8(x)], 0)
  }

  /** The number a 16-bit word holds, from its two bytes. */
  function WordValue(w: bv16): (n: int)
    ensures 0 <= n < 65536
  {
    Be16(w)[0] as int * 256 + Be16(w)[1] as int
  }

  /** x stored in a 13-bit field: the low 13 bits of (uint16_t) x. */
  function Cast13(x: int): bv13
  {
    (Cast16(x) & 0x1FFF) as bv13
  }

  lemma Be16OfBytes(hi: bv8, lo: bv8)
    ensures Be16(U16At([hi, lo], 0)) == [hi, lo]
  {
  }

  lemma LowFiveBits(b: bv8)
    ensures (b & 0x1F) as int == b as int % 32
  {
  }

  lemma Be16OfFrag(hi: bv8, lo: bv8)
    ensures Be16(((U16At([hi, lo], 0) & 0x1FFF) as bv13) as bv16) == [hi & 0x1F, lo]
  {
  }

  lemma WordArith(x: int)
    ensures (x / 256) % 256 * 256 + x % 256 == x % 65536
  {
    var q, r := x / 256, x % 256;
    var b := q % 256;
    assert x == 256 * q + r;
    assert q == 256 * (q / 256) + b;
    assert x == 65536 * (q / 256) + (256 * b + r);
    assert 0 <= 256 * b + r < 65536;
  }

  lemma FragArith(x: int)
    ensures (x / 256) % 256 % 32 * 256 + x % 256 == x % 8192
  {
    var q, r := x / 256, x % 256;
    var b := q % 256;
    var d := b % 32;
    assert x == 256 * q + r;
    assert q == 256 * (q / 256) + b;
    assert b == 32 * (b / 32) + d;
    assert x == 8192 * (8 * (q / 256) + b / 32) + (256 * d + r);
    assert 0 <= 256 * d + r < 8192;
  }

  /** A number cast to 16 bits reads back as itself modulo 2^16. */
  lemma Cast16Value(x: int)
    ensures WordValue(Cast16(x)) == x % 65536
  {
    Be16OfBytes(Cast8(x / 256), Cast8(x));
    WordArith(x);
  }

  /** A number stored in a 13-bit field reads back as itself modulo 2^13. */
  lemma Cast13Value(x: int)
    ensures WordValue(Cast13(x) as bv16) == x % 8192
  {
    var hi, lo := Cast8(x / 256), Cast8(x);
    Be16OfFrag(hi, lo);
    LowFiveBits(hi);
    FragArith(x);
  }
}
