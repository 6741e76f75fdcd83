/**
 The block checksum once more, as arithmetic on numbers: XXH32 of the xxHash specification with its constants written
 out, rotations as an exchange of the two parts of a word and exclusive or as addition of binary digits without carry.
 */
module XxHashPlain {
  import opened Bytes
  import opened Bits
  import XxHash

  /** The word with its part above and its part below `low` exchanged. */
  function Turn(n: nat, low: nat, up: nat): nat
    requires low > 0
  {
    n % low * up + n / low
  }

  function Differ(a: nat, b: nat, digits: nat): nat
    decreases digits, a
  {
    if digits == 0 then 0 else (a % 2 + b % 2) % 2 + 2 * Differ(a / 2, b / 2, digits - 1)
  }

  function Number4(s: seq<Byte>, i: nat): nat
    requires i + 4 <= |s|
  {
    var (a: nat, b: nat, c: nat, d: nat) := (s[i], s[i + 1], s[i + 2], s[i + 3]);
    a + 256 * (b + 256 * (c + 256 * d))
  }

  datatype Sums = Sums(a: nat, b: nat, c: nat, d: nat)

  function Round(acc: nat, lane: nat): nat {
    Turn((acc + lane * 2246822519) % 4294967296, 524288, 8192) * 2654435761 % 4294967296
  }

  function Stripes(v: Sums, data: seq<Byte>): Sums
    decreases |data|
  {
    if |data| < 16 then v else
    Stripes(Sums(Round(v.a, Number4(data, 0)), Round(v.b, Number4(data, 4)),
                 Round(v.c, Number4(data, 8)), Round(v.d, Number4(data, 12))), data[16..])
  }

  function Joined(v: Sums): nat {
    (Turn(v.a, 2147483648, 2) + Turn(v.b, 33554432, 128) + Turn(v.c, 1048576, 4096) + Turn(v.d, 16384, 262144))
    % 4294967296
  }

  function Rest(h: nat, data: seq<Byte>): nat
    decreases |data|
  {
    if |data| >= 4 then
      Rest(Turn((h + Number4(data, 0) * 3266489917) % 4294967296, 32768, 131072) * 668265263 % 4294967296, data[4..])
    else if data != [] then
      var b: nat := data[0];
      Rest(Turn((h + b * 374761393) % 4294967296, 2097152, 2048) * 2654435761 % 4294967296, data[1..])
    else h
  }

  function Mixed(h: nat): nat {
    var h1 := Differ(h, h / 32768, 32) * 2246822519 % 4294967296;
    var h2 := Differ(h1, h1 / 8192, 32) * 3266489917 % 4294967296;
    Differ(h2, h2 / 65536, 32)
  }

  const JAVA := Sums((2538058380 + 2654435761 + 2246822519) % 4294967296, (2538058380 + 2246822519) % 4294967296,
                     2538058380, (2538058380 - 2654435761) % 4294967296)

  /** The seed of the Java block format is 2538058380; the checksum keeps 28 bits. */
  function Digest(data: seq<Byte>): nat {
    var h := if |data| >= 16 then Joined(Stripes(JAVA, data)) else (2538058380 + 374761393) % 4294967296;
    Mixed(Rest((h + |data|) % 4294967296, data[|data| - |data| % 16..])) % 268435456
  }

  // ----- the two agree -----

  lemma Powers()
    ensures Pow2(1) == 2 && Pow2(7) == 128 && Pow2(11) == 2048 && Pow2(12) == 4096 && Pow2(13) == 8192
    ensures Pow2(14) == 16384 && Pow2(15) == 32768 && Pow2(16) == 65536 && Pow2(17) == 131072 && Pow2(18) == 262144
    ensures Pow2(19) == 524288 && Pow2(20) == 1048576 && Pow2(21) == 2097152 && Pow2(25) == 33554432
    ensures Pow2(31) == 2147483648 && Pow2(32) == 4294967296
  {
    Pow2Add(10, 10);
    Pow2Add(20, 5);
    Pow2Add(16, 15);
    XxHash.Pow2Of32();
  }

  lemma {:induction false} OrSymmetric(a: nat, b: nat)
    ensures Or(a, b) == Or(b, a)
    decreases a + b
  {
    if a != 0 && b != 0 {
      OrSymmetric(a / 2, b / 2);
    }
  }

  /** A rotation exchanges the upper and the lower part of a word. */
  lemma RotlIsTurn(n: Word32, bits: nat, low: nat, up: nat)
    requires 0 < bits < 32 && low == Pow2(32 - bits) && up == Pow2(bits)
    ensures XxHash.Rotl(n, bits) == Turn(n, low, up)
  {
    var high, rest := n / low, n % low;
    Pow2Add(bits, 32 - bits);
    XxHash.Pow2Of32();
    ShrIsDiv(n, 32 - bits);
    HighBound(n, low, up);
    ShiftedUp(n, low, up);
    OrSymmetric(rest * up, high);
    OrDisjoint(high, rest, bits);
    XxHash.NoBitIsDropped(n, bits);
  }

  lemma HighBound(n: nat, low: nat, up: nat)
    requires low > 0 && up > 0 && n < up * low
    ensures n / low < up
  {
    DivModProduct(n, low, up);
    assert up * low == low * up;
  }

  lemma ShiftedUp(n: nat, low: nat, up: nat)
    requires low > 0 && up > 0
    ensures up * low > 0 && n * up % (up * low) == n % low * up
  {
    SmallPart(up, low, n % low, 0);
    assert n == n / low * low + n % low;
    assert n * up == n / low * (up * low) + n % low * up;
    DivUnique(n * up, up * low, n / low, n % low * up);
  }

  lemma {:induction false} XorIsDiffer(a: nat, b: nat, digits: nat)
    requires a < Pow2(digits) && b < Pow2(digits)
    ensures Xor(a, b) == Differ(a, b, digits)
    decreases digits
  {
    if digits > 0 {
      XorIsDiffer(a / 2, b / 2, digits - 1);
      XorStep(a, b);
    }
  }

  lemma {:induction false} XorStep(a: nat, b: nat)
    ensures Xor(a, b) == (a % 2 + b % 2) % 2 + 2 * Xor(a / 2, b / 2)
  {
    assert (a % 2 + b % 2) % 2 == if a % 2 != b % 2 then 1 else 0;
    if a == 0 {
      assert Xor(a / 2, b / 2) == b / 2;
    } else if b == 0 {
      assert Xor(a / 2, b / 2) == a / 2;
    }
  }

  lemma ShiftDiffers(h: Word32, bits: nat, unit: nat)
    requires 0 < bits < 32 && unit > 0 && unit == Pow2(bits)
    ensures XxHash.XorShift(h, bits) == Differ(h, h / unit, 32)
  {
    XxHash.Pow2Of32();
    ShrIsDiv(h, bits);
    XorIsDiffer(h, h / unit, 32);
    XxHash.NoBitIsDropped(h, bits);
  }

  lemma NumberIs(s: seq<Byte>, i: nat)
    requires i + 4 <= |s|
    ensures Number4(s, i) == Le32(s, i)
  {
  }

  lemma AddMod(a: nat, b: nat, m: nat)
    requires m > 0
    ensures (a + b % m) % m == (a + b) % m
  {
    var q := b / m;
    assert a + b == q * m + (a + b % m);
    ModShift(a + b % m, q, m);
  }

  lemma ModShift(x: nat, q: nat, m: nat)
    requires m > 0
    ensures (q * m + x) % m == x % m
  {
    assert q * m + x == (q + x / m) * m + x % m;
    DivUnique(q * m + x, m, q + x / m, x % m);
  }

  lemma RoundIs(acc: Word32, lane: Word32)
    ensures XxHash.Round(acc, lane) == Round(acc, lane)
  {
    Powers();
    var next := Stirred(acc, lane, XxHash.P2, 13, 524288, 8192, XxHash.P1);
  }

  /** The step that a lane, a word and a byte have in common. */
  lemma Stirred(h: Word32, lane: Word32, factor: Word32, bits: nat, low: nat, up: nat, last: Word32)
    returns (next: Word32)
    requires 0 < bits < 32 && low == Pow2(32 - bits) && up == Pow2(bits)
    ensures next == XxHash.Mul(XxHash.Rotl(XxHash.Add(h, XxHash.Mul(lane, factor)), bits), last)
    ensures next
         == Turn((h as int + (lane as int) * (factor as int)) % 4294967296, low, up) * (last as int) % 4294967296
  {
    var sum := Scaled(h, lane, factor);
    RotlIsTurn(sum, bits, low, up);
    next := XxHash.Mul(XxHash.Rotl(sum, bits), last);
  }

  lemma Scaled(acc: Word32, lane: Word32, factor: Word32) returns (sum: Word32)
    ensures sum == XxHash.Add(acc, XxHash.Mul(lane, factor))
    ensures sum == (acc as int + (lane as int) * (factor as int)) % 4294967296
  {
    var (x: nat, y: nat) := (lane, factor);
    AddMod(acc, x * y, 4294967296);
    sum := XxHash.Add(acc, XxHash.Mul(lane, factor));
  }

  function SumsOf(l: XxHash.Lanes): Sums {
    Sums(l.a, l.b, l.c, l.d)
  }

  lemma {:induction false} StripesAre(l: XxHash.Lanes, data: seq<Byte>)
    ensures SumsOf(XxHash.Stripes(l, data)) == Stripes(SumsOf(l), data)
    decreases |data|
  {
    if |data| >= 16 {
      NumberIs(data, 0);
      NumberIs(data, 4);
      NumberIs(data, 8);
      NumberIs(data, 12);
      RoundIs(l.a, Le32(data, 0));
      RoundIs(l.b, Le32(data, 4));
      RoundIs(l.c, Le32(data, 8));
      RoundIs(l.d, Le32(data, 12));
      StripesAre(XxHash.StripeRound(l, data), data[16..]);
    }
  }

  lemma {:induction false} ConvergeIs(l: XxHash.Lanes)
    ensures XxHash.Converge(l) == Joined(SumsOf(l))
  {
    var a, b, c, d := FourTurns(l);
    FourSum(a, b, c, d);
    JoinedIs(SumsOf(l), a, b, c, d);
  }

  lemma JoinedIs(v: Sums, a: nat, b: nat, c: nat, d: nat)
    requires a == Turn(v.a, 2147483648, 2) && b == Turn(v.b, 33554432, 128)
    requires c == Turn(v.c, 1048576, 4096) && d == Turn(v.d, 16384, 262144)
    ensures Joined(v) == (a + b + c + d) % 4294967296
  {
  }

  lemma FourTurns(l: XxHash.Lanes) returns (a: Word32, b: Word32, c: Word32, d: Word32)
    ensures a == XxHash.Rotl(l.a, 1) == Turn(l.a, 2147483648, 2)
    ensures b == XxHash.Rotl(l.b, 7) == Turn(l.b, 33554432, 128)
    ensures c == XxHash.Rotl(l.c, 12) == Turn(l.c, 1048576, 4096)
    ensures d == XxHash.Rotl(l.d, 18) == Turn(l.d, 16384, 262144)
  {
    Powers();
    RotlIsTurn(l.a, 1, 2147483648, 2);
    RotlIsTurn(l.b, 7, 33554432, 128);
    RotlIsTurn(l.c, 12, 1048576, 4096);
    RotlIsTurn(l.d, 18, 16384, 262144);
    a, b, c, d := XxHash.Rotl(l.a, 1), XxHash.Rotl(l.b, 7), XxHash.Rotl(l.c, 12), XxHash.Rotl(l.d, 18);
  }

  lemma FourSum(a: Word32, b: Word32, c: Word32, d: Word32)
    ensures XxHash.Add(XxHash.Add(XxHash.Add(a, b), c), d) == (a as int + b as int + c as int + d as int) % 4294967296
  {
    var (x: nat, y: nat, z: nat, w: nat) := (a, b, c, d);
    AddMod(z, x + y, 4294967296);
    AddMod(w, x + y + z, 4294967296);
    assert XxHash.Add(XxHash.Add(a, b), c) == (x + y + z) % 4294967296;
  }

  lemma WordIs(h: Word32, word: Word32) returns (next: Word32)
    ensures next == XxHash.Mul(XxHash.Rotl(XxHash.Add(h, XxHash.Mul(word, XxHash.P3)), 17), XxHash.P4)
         == Turn((h + word * 3266489917) % 4294967296, 32768, 131072) * 668265263 % 4294967296
  {
    Powers();
    next := Stirred(h, word, XxHash.P3, 17, 32768, 131072, XxHash.P4);
  }

  lemma ByteIs(h: Word32, b: Byte) returns (next: Word32)
    ensures next == XxHash.Mul(XxHash.Rotl(XxHash.Add(h, XxHash.Mul(b, XxHash.P5)), 11), XxHash.P1)
         == Turn((h + (b as int) * 374761393) % 4294967296, 2097152, 2048) * 2654435761 % 4294967296
  {
    Powers();
    Powers();
    next := Stirred(h, b, XxHash.P5, 11, 2097152, 2048, XxHash.P1);
  }

  lemma {:induction false} RestIs(h: Word32, data: seq<Byte>)
    ensures XxHash.Remainder(h, data) == Rest(h, data)
    decreases |data|
  {
    if |data| >= 4 {
      var next := WordFirst(h, data);
      RestIs(next, data[4..]);
    } else if data != [] {
      var next := ByteFirst(h, data);
      RestIs(next, data[1..]);
    }
  }

  lemma WordFirst(h: Word32, data: seq<Byte>) returns (next: Word32)
    requires |data| >= 4
    ensures XxHash.Remainder(h, data) == XxHash.Remainder(next, data[4..]) && Rest(h, data) == Rest(next, data[4..])
  {
    NumberIs(data, 0);
    next := WordIs(h, Le32(data, 0));
  }

  lemma ByteFirst(h: Word32, data: seq<Byte>) returns (next: Word32)
    requires 0 < |data| < 4
    ensures XxHash.Remainder(h, data) == XxHash.Remainder(next, data[1..]) && Rest(h, data) == Rest(next, data[1..])
  {
    next := ByteIs(h, data[0]);
  }

  lemma MixedIs(h: Word32)
    ensures XxHash.Avalanche(h) == Mixed(h)
  {
    Powers();
    ShiftDiffers(h, 15, 32768);
    var h1 := XxHash.Mul(XxHash.XorShift(h, 15), XxHash.P2);
    ShiftDiffers(h1, 13, 8192);
    var h2 := XxHash.Mul(XxHash.XorShift(h1, 13), XxHash.P3);
    ShiftDiffers(h2, 16, 65536);
  }

  /** The checksum of any block is the plain one. */
  lemma SameDigest(data: seq<Byte>)
    ensures XxHash.Digest(data) == Digest(data)
  {
    var h := Opening(data);
    Closing(h, |data|, data[|data| - |data| % 16..]);
  }

  lemma {:induction false} Closing(h: Word32, length: nat, tail: seq<Byte>)
    ensures XxHash.Avalanche(XxHash.Remainder(XxHash.Add(h, Wrap32(length)), tail))
         == Mixed(Rest((h + length) % 4294967296, tail))
  {
    AddMod(h, length, 4294967296);
    var sum := XxHash.Add(h, Wrap32(length));
    RestIs(sum, tail);
    MixedIs(XxHash.Remainder(sum, tail));
  }

  lemma JavaStart()
    ensures SumsOf(XxHash.Start(XxHash.SEED)) == JAVA
  {
  }

  lemma ShortOpening()
    ensures XxHash.Add(XxHash.SEED, XxHash.P5) == (2538058380 + 374761393) % 4294967296
  {
  }

  lemma LongOpening(data: seq<Byte>, start: XxHash.Lanes)
    requires start == XxHash.Start(XxHash.SEED)
    ensures XxHash.Converge(XxHash.Stripes(start, data)) == Joined(Stripes(JAVA, data))
  {
    JavaStart();
    StripesAre(start, data);
    ConvergeIs(XxHash.Stripes(start, data));
  }

  lemma {:induction false} Opening(data: seq<Byte>) returns (h: Word32)
    ensures h == if |data| >= 16 then XxHash.Converge(XxHash.Stripes(XxHash.Start(XxHash.SEED), data))
                 else XxHash.Add(XxHash.SEED, XxHash.P5)
    ensures h == if |data| >= 16 then Joined(Stripes(JAVA, data)) else (2538058380 + 374761393) % 4294967296
  {
    if |data| >= 16 {
      LongOpening(data, XxHash.Start(XxHash.SEED));
    } else {
      ShortOpening();
    }
    h := if |data| >= 16 then XxHash.Converge(XxHash.Stripes(XxHash.Start(XxHash.SEED), data))
         else XxHash.Add(XxHash.SEED, XxHash.P5);
  }
}
