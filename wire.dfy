/** Big-endian (network order) access to multi-byte fields of a byte buffer,
    and the nibble/bit helpers that the header views are built from.
    Every setter states what the getter reads back and that no other byte moves. */
module Wire {

  /** Two buffers agree on every byte outside the half-open range [lo, hi). */
  ghost predicate AgreeOutside(a: seq<bv8>, b: seq<bv8>, lo: nat, hi: nat)
  {
    |a| == |b| && forall k :: 0 <= k < |a| && (k < lo || k >= hi) ==> a[k] == b[k]
  }

  // ----- 16-bit and 32-bit big-endian words -----

  function U16At(b: seq<bv8>, i: nat): bv16
    requires i + 2 <= |b|
  {
    ((b[i] as bv16) << 8) | (b[i + 1] as bv16)
  }

  function WithU16(b: seq<bv8>, i: nat, v: bv16): (r: seq<bv8>)
    requires i + 2 <= |b|
    ensures |r| == |b|
    ensures U16At(r, i) == v
    ensures AgreeOutside(r, b, i, i + 2)
  {
    b[i := (v >> 8) as bv8][i + 1 := (v & 0xFF) as bv8]
  }

  function U32At(b: seq<bv8>, i: nat): bv32
    requires i + 4 <= |b|
  {
    ((b[i] as bv32) << 24) | ((b[i + 1] as bv32) << 16)
    | ((b[i + 2] as bv32) << 8) | (b[i + 3] as bv32)
  }

  function WithU32(b: seq<bv8>, i: nat, v: bv32): (r: seq<bv8>)
    requires i + 4 <= |b|
    ensures |r| == |b|
    ensures U32At(r, i) == v
    ensures AgreeOutside(r, b, i, i + 4)
  {
    b[i := (v >> 24) as bv8][i + 1 := ((v >> 16) & 0xFF) as bv8]
     [i + 2 := ((v >> 8) & 0xFF) as bv8][i + 3 := (v & 0xFF) as bv8]
  }

  /** A word read from either part of a concatenation is read from that part. */
  lemma U16InConcat(a: seq<bv8>, b: seq<bv8>, i: nat)
    requires i + 2 <= |a| + |b|
    ensures i + 2 <= |a| ==> U16At(a + b, i) == U16At(a, i)
    ensures i >= |a| ==> U16At(a + b, i) == U16At(b, i - |a|)
  {
  }

  lemma U32InConcat(a: seq<bv8>, b: seq<bv8>, i: nat)
    requires i + 4 <= |a| + |b|
    ensures i + 4 <= |a| ==> U32At(a + b, i) == U32At(a, i)
    ensures i >= |a| ==> U32At(a + b, i) == U32At(b, i - |a|)
  {
  }

  /** A word reads the same from two buffers that agree on its bytes. */
  lemma U16Same(a: seq<bv8>, b: seq<bv8>, i: nat)
    requires i + 2 <= |a| && i + 2 <= |b| && a[i] == b[i] && a[i + 1] == b[i + 1]
    ensures U16At(a, i) == U16At(b, i)
  {
  }

  lemma U32Same(a: seq<bv8>, b: seq<bv8>, i: nat)
    requires i + 4 <= |a| && i + 4 <= |b|
    requires a[i] == b[i] && a[i + 1] == b[i + 1] && a[i + 2] == b[i + 2] && a[i + 3] == b[i + 3]
    ensures U32At(a, i) == U32At(b, i)
  {
  }

  /** The two bytes of a 16-bit word, most significant first. */
  function Be16(v: bv16): (r: seq<bv8>)
    ensures |r| == 2 && U16At(r, 0) == v
  {
    [(v >> 8) as bv8, (v & 0xFF) as bv8]
  }

  /** The four bytes of a 32-bit word, most significant first. */
  function Be32(v: bv32): (r: seq<bv8>)
    ensures |r| == 4 && U32At(r, 0) == v
  {
    [(v >> 24) as bv8, ((v >> 16) & 0xFF) as bv8, ((v >> 8) & 0xFF) as bv8, (v & 0xFF) as bv8]
  }

  /** A word read from a buffer is spelled by the bytes it was read from. */
  lemma Be16OfSlice(b: seq<bv8>, i: nat)
    requires i + 2 <= |b|
    ensures b[i..i + 2] == Be16(U16At(b, i))
  {
    var w := Be16(U16At(b, i));
    assert w[0] == b[i] && w[1] == b[i + 1];
  }

  lemma Be32OfSlice(b: seq<bv8>, i: nat)
    requires i + 4 <= |b|
    ensures b[i..i + 4] == Be32(U32At(b, i))
  {
    var w := Be32(U32At(b, i));
    assert w[0] == b[i] && w[1] == b[i + 1] && w[2] == b[i + 2] && w[3] == b[i + 3];
  }

  /** Reading a word at the place where its bytes were put returns the word. */
  lemma U32OfConcat(x: seq<bv8>, v: bv32, y: seq<bv8>)
    ensures U32At(x + Be32(v) + y, |x|) == v
  {
    var b := x + Be32(v) + y;
    assert b[|x|] == Be32(v)[0] && b[|x| + 1] == Be32(v)[1];
    assert b[|x| + 2] == Be32(v)[2] && b[|x| + 3] == Be32(v)[3];
  }

  // ----- writing inside one part of a concatenated buffer -----

  lemma ByteInFirst(x: seq<bv8>, y: seq<bv8>, z: seq<bv8>, i: nat, v: bv8)
    requires i < |x|
    ensures (x + y + z)[i := v] == x[i := v] + y + z
  {
  }

  lemma WithU16InFirst(x: seq<bv8>, y: seq<bv8>, z: seq<bv8>, i: nat, v: bv16)
    requires i + 2 <= |x|
    ensures WithU16(x + y + z, i, v) == WithU16(x, i, v) + y + z
  {
  }

  lemma WithU32InFirst(x: seq<bv8>, y: seq<bv8>, z: seq<bv8>, i: nat, v: bv32)
    requires i + 4 <= |x|
    ensures WithU32(x + y + z, i, v) == WithU32(x, i, v) + y + z
  {
  }

  lemma ByteInSecond(x: seq<bv8>, y: seq<bv8>, z: seq<bv8>, i: nat, v: bv8)
    requires i < |y|
    ensures (x + y + z)[|x| + i := v] == x + y[i := v] + z
  {
  }

  lemma WithU16InSecond(x: seq<bv8>, y: seq<bv8>, z: seq<bv8>, i: nat, v: bv16)
    requires i + 2 <= |y|
    ensures WithU16(x + y + z, |x| + i, v) == x + WithU16(y, i, v) + z
  {
  }

  lemma WithU32InSecond(x: seq<bv8>, y: seq<bv8>, z: seq<bv8>, i: nat, v: bv32)
    requires i + 4 <= |y|
    ensures WithU32(x + y + z, |x| + i, v) == x + WithU32(y, i, v) + z
  {
  }

  // ----- nibbles of one byte (high nibble is the first on the wire) -----

  function HiNibble(x: bv8): bv4 { (x >> 4) as bv4 }

  function LoNibble(x: bv8): bv4 { (x & 0x0F) as bv4 }

  function WithHiNibble(x: bv8, v: bv4): (r: bv8)
    ensures HiNibble(r) == v && LoNibble(r) == LoNibble(x)
  {
    (x & 0x0F) | ((v as bv8) << 4)
  }

  function WithLoNibble(x: bv8, v: bv4): (r: bv8)
    ensures LoNibble(r) == v && HiNibble(r) == HiNibble(x)
  {
    (x & 0xF0) | (v as bv8)
  }

  /** A byte is determined by its two nibbles. */
  lemma NibblesDetermineByte(x: bv8, y: bv8)
    requires HiNibble(x) == HiNibble(y) && LoNibble(x) == LoNibble(y)
    ensures x == y
  {
  }

  // ----- single bits of one byte, addressed by a one-bit mask -----

  predicate IsSingleBit(m: bv8)
  {
    m != 0 && m & (m - 1) == 0
  }

  function WithBit(x: bv8, m: bv8, on: bool): (r: bv8)
    requires IsSingleBit(m)
    ensures (r & m != 0) == on
    ensures r & !m == x & !m
  {
    if on then x | m else x & !m
  }
}
