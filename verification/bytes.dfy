/** Bytes and fixed-width unsigned words, as the C sources use them. */
module Bytes {
  type Byte = b: nat | b < 256
  const TWO32: nat := 0x1_0000_0000
  type Word32 = w: nat | w < TWO32

  const MAX_NBT: nat := 4 * 1024 * 1024
  const MAX_COMPRESSED: nat := 1024 * 1024

  /** C's unsigned 32-bit arithmetic keeps the low 32 bits. */
  function Wrap32(n: nat): (w: Word32)
    ensures n < TWO32 ==> w == n
  {
    n % TWO32
  }

  /** The word whose bytes, from the least significant up, are a, b, c, d. */
  function Join32(a: nat, b: nat, c: nat, d: nat): Word32
    requires a < 256 && b < 256 && c < 256 && d < 256
  {
    a + 0x100 * b + 0x1_0000 * c + 0x100_0000 * d
  }

  /** le32: little-endian word at offset i. */
  function Le32(s: seq<Byte>, i: nat): Word32
    requires i + 4 <= |s|
  {
    Join32(s[i], s[i + 1], s[i + 2], s[i + 3])
  }

  /** u32: big-endian word at offset i. */
  function Be32(s: seq<Byte>, i: nat): Word32
    requires i + 4 <= |s|
  {
    Join32(s[i + 3], s[i + 2], s[i + 1], s[i])
  }

  function Le32Bytes(w: Word32): (s: seq<Byte>)
    ensures |s| == 4
  {
    [w % 0x100, w / 0x100 % 0x100, w / 0x1_0000 % 0x100, w / 0x100_0000]
  }

  function Be32Bytes(w: Word32): (s: seq<Byte>)
    ensures |s| == 4
  {
    [w / 0x100_0000, w / 0x1_0000 % 0x100, w / 0x100 % 0x100, w % 0x100]
  }

  lemma LowDigit(a: Byte, q: nat, w: nat)
    ensures w == a + 0x100 * q <==> w % 0x100 == a && w / 0x100 == q
  {
  }

  lemma JoinSplit(a: Byte, b: Byte, c: Byte, d: Byte, w: Word32)
    ensures Join32(a, b, c, d) == w <==> Le32Bytes(w) == [a, b, c, d]
  {
    var q: nat := w / 0x100;
    var r: nat := q / 0x100;
    var v: nat := r / 0x100;
    assert w / 0x1_0000 == r && w / 0x100_0000 == v;
    var dn: nat, cn: nat, bn: nat, an: nat := d, c, b, a;
    LowDigit(c, dn, r);
    LowDigit(b, cn + 0x100 * dn, q);
    LowDigit(a, bn + 0x100 * (cn + 0x100 * dn), w);
    assert Join32(a, b, c, d) == an + 0x100 * (bn + 0x100 * (cn + 0x100 * dn));
    assert Le32Bytes(w) == [w % 0x100, q % 0x100, r % 0x100, v];
    assert Le32Bytes(w) == [a, b, c, d] <==> w % 0x100 == a && q % 0x100 == b && r % 0x100 == c && v == d;
  }

  lemma Le32RoundTrip(s: seq<Byte>, i: nat, w: Word32)
    requires i + 4 <= |s|
    ensures s[i..i + 4] == Le32Bytes(w) <==> Le32(s, i) == w
  {
    assert s[i..i + 4] == [s[i], s[i + 1], s[i + 2], s[i + 3]];
    JoinSplit(s[i], s[i + 1], s[i + 2], s[i + 3], w);
  }

  lemma Be32RoundTrip(s: seq<Byte>, i: nat, w: Word32)
    requires i + 4 <= |s|
    ensures s[i..i + 4] == Be32Bytes(w) <==> Be32(s, i) == w
  {
    var t := [s[i], s[i + 1], s[i + 2], s[i + 3]];
    assert s[i..i + 4] == t;
    JoinSplit(s[i + 3], s[i + 2], s[i + 1], s[i], w);
    var l, b := Le32Bytes(w), Be32Bytes(w);
    assert l[0] == b[3] && l[1] == b[2] && l[2] == b[1] && l[3] == b[0];
  }
}
