/** The block checksum (`checksum`): XXH32 of the xxHash specification, masked to 28 bits. */
module XxHash {
  import opened Bytes
  import opened Bits

  const P1: Word32 := 2654435761
  const P2: Word32 := 2246822519
  const P3: Word32 := 3266489917
  const P4: Word32 := 668265263
  const P5: Word32 := 374761393
  const SEED: Word32 := 0x9747b28c

  function Add(a: Word32, b: Word32): Word32 {
    var (x: nat, y: nat) := (a, b);
    Wrap32(x + y)
  }

  function Sub(a: Word32, b: Word32): Word32 {
    Add(a, Wrap32(TWO32 - b))
  }

  function Mul(a: Word32, b: Word32): Word32 {
    var (x: nat, y: nat) := (a, b);
    Wrap32(x * y)
  }

  /** `rot`: shift left, OR the bits that fell off. */
  function Rotl(n: Word32, bits: nat): Word32
    requires 0 < bits < 32
  {
    Wrap32(Or(Shl(n, bits, 32), Shr(n, 32 - bits)))
  }

  /** `h ^= h >> n` */
  function XorShift(h: Word32, n: nat): Word32 {
    Wrap32(Xor(h, Shr(h, n)))
  }

  /** The truncations in `Rotl` and `XorShift` never drop a bit. */
  lemma NoBitIsDropped(n: Word32, bits: nat)
    requires 0 < bits < 32
    ensures Rotl(n, bits) == Or(Shl(n, bits, 32), Shr(n, 32 - bits))
    ensures XorShift(n, bits) == Xor(n, Shr(n, bits))
  {
    Pow2Of32();
    OrBound(Shl(n, bits, 32), Shr(n, 32 - bits), 32);
    XorBound(n, Shr(n, bits), 32);
  }

  lemma Pow2Of32()
    ensures Pow2(32) == TWO32
  {
    Pow2Add(8, 8);
    Pow2Add(16, 16);
  }

  // ----- the specification, by consumption of the input -----

  datatype Lanes = Lanes(a: Word32, b: Word32, c: Word32, d: Word32)

  function Round(acc: Word32, lane: Word32): Word32 {
    Mul(Rotl(Add(acc, Mul(lane, P2)), 13), P1)
  }

  function StripeRound(l: Lanes, data: seq<Byte>): Lanes
    requires |data| >= 16
  {
    Lanes(Round(l.a, Le32(data, 0)), Round(l.b, Le32(data, 4)),
          Round(l.c, Le32(data, 8)), Round(l.d, Le32(data, 12)))
  }

  function Stripes(l: Lanes, data: seq<Byte>): Lanes
    decreases |data|
  {
    if |data| < 16 then l else Stripes(StripeRound(l, data), data[16..])
  }

  function Converge(l: Lanes): Word32 {
    Add(Add(Add(Rotl(l.a, 1), Rotl(l.b, 7)), Rotl(l.c, 12)), Rotl(l.d, 18))
  }

  function Remainder(h: Word32, data: seq<Byte>): Word32
    decreases |data|
  {
    if |data| >= 4 then Remainder(Mul(Rotl(Add(h, Mul(Le32(data, 0), P3)), 17), P4), data[4..])
    else if data != [] then Remainder(Mul(Rotl(Add(h, Mul(data[0], P5)), 11), P1), data[1..])
    else h
  }

  function Avalanche(h: Word32): Word32 {
    var h1 := Mul(XorShift(h, 15), P2);
    var h2 := Mul(XorShift(h1, 13), P3);
    XorShift(h2, 16)
  }

  function Start(seed: Word32): Lanes {
    Lanes(Add(Add(seed, P1), P2), Add(seed, P2), seed, Sub(seed, P1))
  }

  function Xxh32(data: seq<Byte>, seed: Word32): Word32 {
    var h := if |data| >= 16 then Converge(Stripes(Start(seed), data)) else Add(seed, P5);
    Avalanche(Remainder(Add(h, Wrap32(|data|)), data[|data| - |data| % 16..]))
  }

  /** The block checksum: XXH32 with the Java seed, masked to 28 bits. */
  function Digest(data: seq<Byte>): Word32 {
    Xxh32(data, SEED) % 0x1000_0000
  }

  // ----- the C loops -----

  /** Lines 191-193: whole stripes, one lane at a time. */
  method StripeLoop(data: seq<Byte>) returns (hash: Word32, offset: nat)
    requires 16 <= |data| <= MAX_NBT
    ensures hash == Converge(Stripes(Start(SEED), data))
    ensures offset == |data| - |data| % 16
  {
    var v := new Word32[4];
    v[0], v[1], v[2], v[3] := Add(Add(SEED, P1), P2), Add(SEED, P2), SEED, Sub(SEED, P1);
    offset := 0;
    var first := true;
    ghost var stripes := 0;
    assert data[0..] == data;
    while first || offset <= |data| - 16
      invariant offset == 16 * stripes <= |data| && (first ==> stripes == 0)
      invariant Stripes(LanesOf(v[..]), data[offset..]) == Stripes(Start(SEED), data)
      decreases |data| - offset
    {
      StripeStep(v, data, offset);
      assert data[offset..][16..] == data[offset + 16..];
      first, offset, stripes := false, offset + 16, stripes + 1;
    }
    ghost var done := Stripes(Start(SEED), data);
    assert LanesOf(v[..]) == done;
    DivUnique(|data|, 16, stripes, |data| - offset);
    hash := Add(Add(Add(Rotl(v[0], 1), Rotl(v[1], 7)), Rotl(v[2], 12)), Rotl(v[3], 18));
  }

  ghost function LanesOf(v: seq<Word32>): Lanes
    requires |v| == 4
  {
    Lanes(v[0], v[1], v[2], v[3])
  }

  method StripeStep(v: array<Word32>, data: seq<Byte>, start: nat)
    requires v.Length == 4 && start + 16 <= |data|
    modifies v
    ensures LanesOf(v[..]) == StripeRound(LanesOf(old(v[..])), data[start..])
  {
    var offset := start;
    for i := 0 to 4
      invariant offset == start + 4 * i
      invariant forall k :: 0 <= k < i ==> v[k] == Round(old(v[k]), Le32(data, start + 4 * k))
      invariant forall k :: i <= k < 4 ==> v[k] == old(v[k])
    {
      v[i] := Mul(Rotl(Add(v[i], Mul(Le32(data, offset), P2)), 13), P1);
      offset := offset + 4;
    }
    ghost var stripe := data[start..];
    assert Le32(stripe, 0) == Le32(data, start) && Le32(stripe, 4) == Le32(data, start + 4);
    assert Le32(stripe, 8) == Le32(data, start + 8) && Le32(stripe, 12) == Le32(data, start + 12);
  }

  /** Lines 196-197: the remaining words, then the remaining bytes. */
  method RemainderLoop(data: seq<Byte>, start: nat, h: Word32) returns (hash: Word32)
    requires start <= |data| <= MAX_NBT
    ensures hash == Remainder(h, data[start..])
  {
    var offset, length := start, |data|;
    hash := h;
    while offset + 4 <= length
      invariant 0 <= offset <= length
      invariant Remainder(hash, data[offset..]) == Remainder(h, data[start..])
    {
      assert data[offset..][4..] == data[offset + 4..];
      assert Le32(data[offset..], 0) == Le32(data, offset);
      hash := Mul(Rotl(Add(hash, Mul(Le32(data, offset), P3)), 17), P4);
      offset := offset + 4;
    }
    while offset < length
      invariant 0 <= offset <= length < offset + 4
      invariant Remainder(hash, data[offset..]) == Remainder(h, data[start..])
    {
      assert data[offset..][1..] == data[offset + 1..];
      hash := Mul(Rotl(Add(hash, Mul(data[offset], P5)), 11), P1);
      offset := offset + 1;
    }
  }

  /** `checksum` */
  method Checksum(data: seq<Byte>) returns (h: Word32)
    requires |data| <= MAX_NBT
    ensures h == Digest(data)
  {
    var hash, offset := Add(SEED, P5), 0;
    if |data| >= 16 {
      hash, offset := StripeLoop(data);
    }
    hash := Add(hash, Wrap32(|data|));
    assert offset == |data| - |data| % 16;
    hash := RemainderLoop(data, offset, hash);
    hash := XorShift(hash, 15);
    hash := Mul(hash, P2);
    hash := XorShift(hash, 13);
    hash := Mul(hash, P3);
    hash := XorShift(hash, 16);
    return hash % 0x1000_0000;
  }
}
