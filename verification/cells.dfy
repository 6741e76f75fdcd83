/**
 The bits of a long array, byte by byte: what `section_pixels` (lines 114-131) reads as the state of a cell,
 stated without the words, shifts and masks that it uses.
 */
module Cells {
  import opened Bytes
  import opened Bits
  import opened Packed
  import opened Terrain
  import opened Wrappers

  // ----- bits and the numbers they make -----

  type Bit = b: nat | b < 2

  /** Binary digit `k` of a number. */
  function Digit(v: nat, k: nat): Bit
    decreases k, v
  {
    if k == 0 then v % 2 else Digit(v / 2, k - 1)
  }

  function ByteOf(p: nat): nat {
    8 * (p / 64) + (7 - p % 64 / 8)
  }

  /** Bit `p` of big-endian 64-bit words, counted in each word from its last byte and there from the lowest bit. */
  function BitOf(payload: seq<Byte>, p: nat): Bit
    requires |payload| % 8 == 0 && p < 8 * |payload|
  {
    Digit(payload[ByteOf(p)], p % 8)
  }

  function BitsOf(payload: seq<Byte>): nat -> Bit
    requires |payload| % 8 == 0
  {
    (p: nat) => if p < 8 * |payload| then BitOf(payload, p) else 0
  }

  /** The number of `n` bits from bit `p` on, the first the lowest. */
  function Number(f: nat -> Bit, p: nat, n: nat): nat
    decreases n, p
  {
    if n == 0 then 0 else f(p) + 2 * Number(f, p + 1, n - 1)
  }

  lemma {:induction false} NumberBound(f: nat -> Bit, p: nat, n: nat)
    ensures Number(f, p, n) < Pow2(n)
    decreases n
  {
    if n > 0 {
      NumberBound(f, p + 1, n - 1);
    }
  }

  lemma {:induction false} NumberSplit(f: nat -> Bit, p: nat, a: nat, b: nat)
    ensures Number(f, p, a + b) == Number(f, p, a) + Number(f, p + a, b) * Pow2(a)
    decreases a
  {
    if a > 0 {
      NumberSplit(f, p + 1, a - 1, b);
      Doubled(Number(f, p + a, b), Pow2(a - 1));
    }
  }

  lemma Doubled(m: nat, n: nat)
    ensures m * (2 * n) == 2 * (m * n)
  {
  }

  /** Dropping the lowest `a` bits, and keeping the lowest `a`. */
  lemma NumberParts(f: nat -> Bit, p: nat, a: nat, b: nat)
    ensures Shr(Number(f, p, a + b), a) == Number(f, p + a, b)
    ensures Number(f, p, a + b) % Pow2(a) == Number(f, p, a)
  {
    var x := Number(f, p, a + b);
    NumberSplit(f, p, a, b);
    NumberBound(f, p, a);
    DivUnique(x, Pow2(a), Number(f, p + a, b), Number(f, p, a));
    ShrIsDiv(x, a);
  }

  // ----- the words -----

  lemma {:induction false} UpperStep(v: nat, k: nat)
    ensures Shr(v, k) == Digit(v, k) + 2 * Shr(v, k + 1)
    decreases k
  {
    if k > 0 {
      UpperStep(v / 2, k - 1);
    } else {
      assert Shr(v, 1) == Shr(v / 2, 0) == v / 2;
    }
  }

  lemma ByteEnds(v: Byte)
    ensures Shr(v, 8) == 0
  {
    ShrIsDiv(v, 8);
    assert Pow2(8) == 256;
  }

  lemma BitIs(payload: seq<Byte>, w: nat, j: nat, k: nat)
    requires |payload| % 8 == 0 && 8 * w + 8 <= |payload| && j < 8 && k < 8
    ensures BitsOf(payload)(64 * w + 8 * j + k) == Digit(payload[8 * w + (7 - j)], k)
  {
    BitPlace(w, j, k);
    assert ByteOf(64 * w + 8 * j + k) == 8 * w + (7 - j);
  }

  lemma BitPlace(w: nat, j: nat, k: nat)
    requires j < 8 && k < 8
    ensures var p := 64 * w + 8 * j + k; p / 64 == w && p % 64 / 8 == j && p % 8 == k
  {
    var p := 64 * w + 8 * j + k;
    DivUnique(p, 64, w, 8 * j + k);
    DivUnique(8 * j + k, 8, j, k);
    DivUnique(p, 8, 8 * w + j, k);
  }

  lemma {:induction false} UpperBits(payload: seq<Byte>, w: nat, j: nat, k: nat)
    requires |payload| % 8 == 0 && 8 * w + 8 <= |payload| && j < 8 && k <= 8
    ensures Number(BitsOf(payload), 64 * w + 8 * j + k, 8 - k) == Shr(payload[8 * w + (7 - j)], k)
    decreases 8 - k
  {
    if k == 8 {
      ByteEnds(payload[8 * w + (7 - j)]);
    } else {
      BitIs(payload, w, j, k);
      UpperBits(payload, w, j, k + 1);
      UpperStep(payload[8 * w + (7 - j)], k);
    }
  }

  function ByteAt(f: nat -> Bit, p: nat, j: nat): nat {
    Number(f, p + 8 * j, 8)
  }

  /** A byte, and the bits above it. */
  lemma NextByte(f: nat -> Bit, p: nat, n: nat)
    ensures Number(f, p, 8 + n) == Number(f, p, 8) + 256 * Number(f, p + 8, n)
  {
    NumberSplit(f, p, 8, n);
    assert Pow2(8) == 256;
  }

  lemma FourBytes(f: nat -> Bit, p: nat, a: Byte, b: Byte, c: Byte, d: Byte)
    requires Number(f, p, 8) == a && Number(f, p + 8, 8) == b && Number(f, p + 16, 8) == c && Number(f, p + 24, 8) == d
    ensures Number(f, p, 32) == Join32(a, b, c, d)
  {
    NextByte(f, p, 24);
    NextByte(f, p + 8, 16);
    NextByte(f, p + 16, 8);
  }

  lemma EightBytes(f: nat -> Bit, p: nat, s: seq<Byte>)
    requires |s| == 8 && forall j {:trigger ByteAt(f, p, j)} :: 0 <= j < 8 ==> ByteAt(f, p, j) == s[7 - j]
    ensures Number(f, p, 64) == Be64(s, 0)
  {
    assert ByteAt(f, p, 0) == s[7] && ByteAt(f, p, 1) == s[6] && ByteAt(f, p, 2) == s[5] && ByteAt(f, p, 3) == s[4];
    assert ByteAt(f, p, 4) == s[3] && ByteAt(f, p, 5) == s[2] && ByteAt(f, p, 6) == s[1] && ByteAt(f, p, 7) == s[0];
    FourBytes(f, p, s[7], s[6], s[5], s[4]);
    FourBytes(f, p + 32, s[3], s[2], s[1], s[0]);
    NumberSplit(f, p, 32, 32);
    TwoTo32();
  }

  lemma TwoTo32()
    ensures Pow2(32) == TWO32
  {
    assert Pow2(8) == 0x100;
    Pow2Add(8, 8);
    Pow2Add(16, 16);
  }

  /** A word of the decoder is the number of its 64 bits. */
  lemma WordIsNumber(payload: seq<Byte>, w: nat)
    requires |payload| % 8 == 0 && 8 * w + 8 <= |payload|
    ensures WordsOf(payload)[w] == Number(BitsOf(payload), 64 * w, 64)
  {
    var s := payload[8 * w..8 * w + 8];
    forall j | 0 <= j < 8 ensures ByteAt(BitsOf(payload), 64 * w, j) == s[7 - j] {
      UpperBits(payload, w, j, 0);
    }
    EightBytes(BitsOf(payload), 64 * w, s);
    assert Be64(s, 0) == Be64(payload, 8 * w);
  }

  // ----- the state of a cell -----

  /** The first bit of state `index`: the states are in sequence, each whole in one word or not. */
  function FirstBit(bits: nat, padded: bool, index: nat): nat
    requires 4 <= bits <= 12
  {
    if padded then 64 * (index / (64 / bits)) + index % (64 / bits) * bits else index * bits
  }

  /** The words a layout takes for 4096 states. */
  function WordsFor(bits: nat, padded: bool): nat
    requires 4 <= bits <= 12
  {
    if padded then [256, 342, 410, 456, 512, 586, 683, 820, 820][bits - 4] else 64 * bits
  }

  lemma WordsForIs(bits: nat, padded: bool)
    requires 4 <= bits <= 12
    ensures WordsFor(bits, padded) == if padded then PaddedWords(bits) else StraddlingWords(bits)
  {
    PerWordTable(bits);
    StraddlingIsExact(bits);
    if bits == 4 {} else if bits == 5 {} else if bits == 6 {} else if bits == 7 {} else if bits == 8 {}
    else if bits == 9 {} else if bits == 10 {} else if bits == 11 {}
  }

  lemma FirstBitIs(bits: nat, padded: bool, index: nat)
    requires 4 <= bits <= 12 && index < STATES
    ensures FirstBit(bits, padded, index) == 64 * WordIndex(bits, padded, index) + Shift(bits, padded, index)
    ensures Shift(bits, padded, index) < 64 && (padded ==> Shift(bits, padded, index) + bits <= 64)
  {
    PerWordTable(bits);
    if padded {
      LastInWord(index % PerWord(bits), PerWord(bits), bits);
    }
  }

  lemma LastInWord(j: nat, per: nat, bits: nat)
    requires j < per && per * bits <= 64
    ensures j * bits + bits <= 64
  {
    MulMonotone(j + 1, per, bits);
    assert (j + 1) * bits == j * bits + bits;
  }

  lemma WithinNumber(f: nat -> Bit, p: nat, n: nat, shift: nat, bits: nat)
    requires shift + bits <= n
    ensures Shr(Number(f, p, n), shift) % Pow2(bits) == Number(f, p + shift, bits)
  {
    NumberParts(f, p, shift, n - shift);
    NumberParts(f, p + shift, bits, n - shift - bits);
  }

  lemma Halves(f: nat -> Bit, p: nat)
    ensures Number(f, p, 64) == Number(f, p, 128) % Pow2(64)
    ensures Number(f, p + 64, 64) == Shr(Number(f, p, 128), 64) % Pow2(64)
  {
    NumberParts(f, p, 64, 64);
    NumberParts(f, p + 64, 64, 0);
  }

  lemma AcrossWords(f: nat -> Bit, p: nat, shift: nat, bits: nat)
    requires shift < 64 && bits <= 64 < shift + bits
    ensures Or(Shr(Number(f, p, 64), shift), Shl(Number(f, p + 64, 64), 64 - shift, 64)) % Pow2(bits)
         == Number(f, p + shift, bits)
  {
    Halves(f, p);
    BetweenHalves(Number(f, p, 128), Number(f, p, 64), Number(f, p + 64, 64), shift, bits);
    WithinNumber(f, p, 128, shift, bits);
  }

  lemma BetweenHalves(x: nat, low: nat, high: nat, shift: nat, bits: nat)
    requires shift < 64 && bits <= 64 < shift + bits
    requires low == x % Pow2(64) && high == Shr(x, 64) % Pow2(64)
    ensures Or(Shr(low, shift), Shl(high, 64 - shift, 64)) % Pow2(bits) == Shr(x, shift) % Pow2(bits)
  {
    ReadAcross(x, shift, bits);
  }

  /** Lines 128-130 */
  function Combined(low: nat, high: nat, shift: nat, bits: nat): nat
    requires shift < 64
  {
    (if shift + bits > 64 then Or(Shr(low, shift), Shl(high, 64 - shift, 64)) else Shr(low, shift)) % Pow2(bits)
  }

  /** What is read at an offset into one word, or into one word and the next. */
  lemma FromWords(f: nat -> Bit, p: nat, shift: nat, bits: nat, low: nat, high: nat)
    requires shift < 64 && bits <= 64 && low == Number(f, p, 64)
    requires shift + bits > 64 ==> high == Number(f, p + 64, 64)
    ensures Combined(low, high, shift, bits) == Number(f, p + shift, bits)
  {
    if shift + bits > 64 {
      AcrossWords(f, p, shift, bits);
    } else {
      WithinNumber(f, p, 64, shift, bits);
    }
  }

  lemma StateIsCombined(words: seq<nat>, bits: nat, padded: bool, index: nat)
    returns (w: nat, shift: nat, low: nat, high: nat)
    requires 4 <= bits <= 12 && index < STATES && Layout(|words|, bits) == Some(padded)
    ensures w < |words| && shift < 64 && low == words[w] && FirstBit(bits, padded, index) == 64 * w + shift
    ensures shift + bits > 64 ==> w + 1 < |words| && high == words[w + 1]
    ensures States(words, bits, padded)(index) == Combined(low, high, shift, bits)
  {
    FirstBitIs(bits, padded, index);
    WordInBounds(bits, padded, index);
    w, shift := WordIndex(bits, padded, index), Shift(bits, padded, index);
    low, high := words[w], if Spills(bits, padded, index) then words[w + 1] else 0;
  }

  lemma WordsAreNumbers(payload: seq<Byte>, w: nat, spills: bool)
    requires |payload| % 8 == 0 && w < |payload| / 8 && (spills ==> w + 1 < |payload| / 8)
    ensures WordsOf(payload)[w] == Number(BitsOf(payload), 64 * w, 64)
    ensures spills ==> WordsOf(payload)[w + 1] == Number(BitsOf(payload), 64 * w + 64, 64)
  {
    WordIsNumber(payload, w);
    if spills {
      WordIsNumber(payload, w + 1);
    }
  }

  /** The state read from the words is the number that the bits of the cell make, whatever the bytes. */
  lemma StateIsNumber(payload: seq<Byte>, bits: nat, padded: bool, index: nat)
    requires 4 <= bits <= 12 && |payload| % 8 == 0 && index < STATES
    requires Layout(|payload| / 8, bits) == Some(padded)
    ensures States(WordsOf(payload), bits, padded)(index)
         == Number(BitsOf(payload), FirstBit(bits, padded, index), bits)
  {
    var w, shift, low, high := StateIsCombined(WordsOf(payload), bits, padded, index);
    CombinedIsNumber(payload, w, shift, bits, low, high);
  }

  lemma CombinedIsNumber(payload: seq<Byte>, w: nat, shift: nat, bits: nat, low: nat, high: nat)
    requires |payload| % 8 == 0 && w < |payload| / 8 && shift < 64 && bits <= 64 && low == WordsOf(payload)[w]
    requires shift + bits > 64 ==> w + 1 < |payload| / 8 && high == WordsOf(payload)[w + 1]
    ensures Combined(low, high, shift, bits) == Number(BitsOf(payload), 64 * w + shift, bits)
  {
    WordsAreNumbers(payload, w, shift + bits > 64);
    OfWords(BitsOf(payload), w, shift, bits, low, high, Combined(low, high, shift, bits));
  }

  lemma OfWords(f: nat -> Bit, w: nat, shift: nat, bits: nat, low: nat, high: nat, n: nat)
    requires shift < 64 && bits <= 64 && low == Number(f, 64 * w, 64) && n == Combined(low, high, shift, bits)
    requires shift + bits > 64 ==> high == Number(f, 64 * w + 64, 64)
    ensures n == Number(f, 64 * w + shift, bits)
  {
    FromWords(f, 64 * w, shift, bits, low, high);
  }

  // ----- a writer for either layout -----

  /** Bit `p` of 4096 states laid out: which state has it, and which of its digits it is. */
  function LaidOut(states: seq<nat>, bits: nat, padded: bool, p: nat): Bit
    requires 4 <= bits <= 12 && |states| == STATES
  {
    var j := if padded then p % 64 / bits else 0;
    var i := if padded then p / 64 * (64 / bits) + j else p / bits;
    var k := if padded then p % 64 % bits else p % bits;
    if 0 <= i < STATES && j < 64 / bits then Digit(states[i], k) else 0
  }

  function LayOut(states: seq<nat>, bits: nat, padded: bool): nat -> Bit
    requires 4 <= bits <= 12 && |states| == STATES
  {
    (p: nat) => LaidOut(states, bits, padded, p)
  }

  function ByteFrom(f: nat -> Bit, p: nat): Byte {
    NumberBound(f, p, 8);
    assert Pow2(8) == 256;
    Number(f, p, 8)
  }

  /** The bytes of the long array for 4096 states. */
  function Stored(states: seq<nat>, bits: nat, padded: bool): (payload: seq<Byte>)
    requires 4 <= bits <= 12 && |states| == STATES
    ensures |payload| == 8 * WordsFor(bits, padded)
  {
    seq(8 * WordsFor(bits, padded), k requires 0 <= k < 8 * WordsFor(bits, padded) =>
      ByteFrom(LayOut(states, bits, padded), 64 * (k / 8) + 8 * (7 - k % 8)))
  }

  lemma {:induction false} DigitOfNumber(f: nat -> Bit, p: nat, n: nat, k: nat)
    requires k < n
    ensures Digit(Number(f, p, n), k) == f(p + k)
    decreases n
  {
    var rest := Number(f, p + 1, n - 1);
    assert Number(f, p, n) == f(p) + 2 * rest && Number(f, p, n) / 2 == rest && Number(f, p, n) % 2 == f(p);
    if k > 0 {
      DigitOfNumber(f, p + 1, n - 1, k - 1);
    }
  }

  lemma {:induction false} NumberOfDigits(f: nat -> Bit, p: nat, n: nat, v: nat)
    requires v < Pow2(n) && forall k :: 0 <= k < n ==> f(p + k) == Digit(v, k)
    ensures Number(f, p, n) == v
    decreases n
  {
    if n > 0 {
      assert f(p + 0) == Digit(v, 0);
      forall k | 0 <= k < n - 1 ensures f(p + 1 + k) == Digit(v / 2, k) {
        assert f(p + (k + 1)) == Digit(v, k + 1);
      }
      NumberOfDigits(f, p + 1, n - 1, v / 2);
    }
  }

  lemma StoredBits(states: seq<nat>, bits: nat, padded: bool, p: nat)
    requires 4 <= bits <= 12 && |states| == STATES && p < 64 * WordsFor(bits, padded)
    ensures BitsOf(Stored(states, bits, padded))(p) == LaidOut(states, bits, padded, p)
  {
    ByteHolds(p);
    StoredByte(states, bits, padded, ByteOf(p));
    DigitOfNumber(LayOut(states, bits, padded), p - p % 8, 8, p % 8);
  }

  lemma StoredByte(states: seq<nat>, bits: nat, padded: bool, k: nat)
    requires 4 <= bits <= 12 && |states| == STATES && k < 8 * WordsFor(bits, padded)
    ensures Stored(states, bits, padded)[k]
         == Number(LayOut(states, bits, padded), 64 * (k / 8) + 8 * (7 - k % 8), 8)
  {
  }

  lemma ByteHolds(p: nat)
    ensures var k := ByteOf(p); 64 * (k / 8) + 8 * (7 - k % 8) == p - p % 8
  {
    var k := ByteOf(p);
    assert k / 8 == p / 64 && k % 8 == 7 - p % 64 / 8;
  }

  lemma PlaceOf(bits: nat, padded: bool, index: nat, k: nat)
    requires 4 <= bits <= 12 && index < STATES && k < bits
    ensures var p := FirstBit(bits, padded, index) + k;
            && (if padded then p / 64 * (64 / bits) + p % 64 / bits == index && p % 64 % bits == k
                               && p % 64 / bits < 64 / bits
                else p / bits == index && p % bits == k)
            && p < 64 * WordsFor(bits, padded)
  {
    if padded {
      PerWordTable(bits);
      PaddedPlace(bits, index, k);
    } else {
      StraddlingPlace(bits, index, k);
    }
  }

  lemma PaddedPlace(bits: nat, index: nat, k: nat)
    requires 4 <= bits <= 12 && index < STATES && k < bits && PerWord(bits) * bits <= 64
    ensures var p, per := FirstBit(bits, true, index) + k, PerWord(bits);
            && p / 64 == index / per && p % 64 / bits == index % per && p % 64 % bits == k
            && p < 64 * WordsFor(bits, true)
  {
    var per := PerWord(bits);
    WordsForIs(bits, true);
    WordInBounds(bits, true, index);
    InWord(index / per, index % per, per, bits, k);
  }

  lemma StraddlingPlace(bits: nat, index: nat, k: nat)
    requires 4 <= bits <= 12 && index < STATES && k < bits
    ensures var p := FirstBit(bits, false, index) + k;
            p / bits == index && p % bits == k && p < 64 * WordsFor(bits, false)
  {
    DivUnique(index * bits + k, bits, index, k);
    MulMonotone(index + 1, STATES, bits);
    assert (index + 1) * bits == index * bits + bits;
  }

  lemma InWord(i: nat, j: nat, per: nat, bits: nat, k: nat)
    requires j < per && per * bits <= 64 && k < bits
    ensures var p := 64 * i + j * bits + k; p / 64 == i && p % 64 / bits == j && p % 64 % bits == k
  {
    LastInWord(j, per, bits);
    DivUnique(64 * i + (j * bits + k), 64, i, j * bits + k);
    DivUnique(j * bits + k, bits, j, k);
  }

  lemma StoredDigit(states: seq<nat>, bits: nat, padded: bool, index: nat, k: nat)
    requires 4 <= bits <= 12 && |states| == STATES && index < STATES && k < bits
    ensures BitsOf(Stored(states, bits, padded))(FirstBit(bits, padded, index) + k) == Digit(states[index], k)
  {
    PlaceOf(bits, padded, index, k);
    StoredBits(states, bits, padded, FirstBit(bits, padded, index) + k);
    LaidOutIs(states, bits, padded, index, k, FirstBit(bits, padded, index) + k);
  }

  lemma LaidOutIs(states: seq<nat>, bits: nat, padded: bool, index: nat, k: nat, p: nat)
    requires 4 <= bits <= 12 && |states| == STATES && index < STATES && k < bits
    requires if padded then p / 64 * (64 / bits) + p % 64 / bits == index && p % 64 % bits == k
                            && p % 64 / bits < 64 / bits
             else p / bits == index && p % bits == k
    ensures LaidOut(states, bits, padded, p) == Digit(states[index], k)
  {
  }

  /** Any 4096 states, in either layout, are read back from the bytes that are written of them. */
  lemma StoredReads(states: seq<nat>, bits: nat, padded: bool, index: nat)
    requires 4 <= bits <= 12 && |states| == STATES && Small(states, bits) && index < STATES
    requires Layout(WordsFor(bits, padded), bits) == Some(padded)
    ensures States(WordsOf(Stored(states, bits, padded)), bits, padded)(index) == states[index]
  {
    var payload := Stored(states, bits, padded);
    StateIsNumber(payload, bits, padded, index);
    StoredNumber(states, bits, padded, index, FirstBit(bits, padded, index));
  }

  lemma StoredNumber(states: seq<nat>, bits: nat, padded: bool, index: nat, p: nat)
    requires 4 <= bits <= 12 && |states| == STATES && Small(states, bits) && index < STATES
    requires p == FirstBit(bits, padded, index)
    ensures Number(BitsOf(Stored(states, bits, padded)), p, bits) == states[index]
  {
    var f := BitsOf(Stored(states, bits, padded));
    forall k | 0 <= k < bits ensures f(p + k) == Digit(states[index], k) {
      StoredDigit(states, bits, padded, index, k);
    }
    NumberOfDigits(f, p, bits, states[index]);
  }
}
