/**
 Bit-packed palette indices (`section_pixels`, lines 114-131): 4096 states of
 4 to 12 bits in 64-bit words, either padded (no state crosses a word) or straddling.
 */
module Packed {
  import opened Bytes
  import opened Bits

  const STATES: nat := 4096

  /** Line 114: the least width, from 4, whose range covers the palette. */
  function BitsFor(count: nat, bits: nat): (b: nat)
    requires 4 <= bits <= 12 && count <= STATES
    ensures bits <= b <= 12 && count <= Pow2(b)
    ensures b > bits ==> Pow2(b - 1) < count
    decreases 12 - bits
  {
    if count <= Pow2(bits) then bits else
      assert Pow2(12) == 4096; BitsFor(count, bits + 1)
  }

  function PerWord(bits: nat): nat
    requires bits > 0
  {
    64 / bits
  }

  function PaddedWords(bits: nat): nat
    requires 4 <= bits <= 12
  {
    (STATES + PerWord(bits) - 1) / PerWord(bits)
  }

  function StraddlingWords(bits: nat): nat {
    (STATES * bits + 63) / 64
  }

  function WordIndex(bits: nat, padded: bool, index: nat): nat
    requires 4 <= bits <= 12
  {
    if padded then index / PerWord(bits) else index * bits / 64
  }

  function Shift(bits: nat, padded: bool, index: nat): nat
    requires 4 <= bits <= 12
  {
    if padded then index % PerWord(bits) * bits else index * bits % 64
  }

  /** A state that spills into the next word. */
  predicate Spills(bits: nat, padded: bool, index: nat)
    requires 4 <= bits <= 12
  {
    !padded && Shift(bits, padded, index) + bits > 64
  }

  /** Lines 126-130 */
  function StateAt(words: seq<nat>, bits: nat, padded: bool, index: nat): nat
    requires 4 <= bits <= 12
    requires WordIndex(bits, padded, index) < |words|
    requires Spills(bits, padded, index) ==> WordIndex(bits, padded, index) + 1 < |words|
  {
    var word, shift := WordIndex(bits, padded, index), Shift(bits, padded, index);
    var value := Shr(words[word], shift);
    var whole := if Spills(bits, padded, index) then Or(value, Shl(words[word + 1], 64 - shift, 64)) else value;
    whole % Pow2(bits)
  }

  // ----- every read stays inside the array -----

  lemma PerWordTable(bits: nat)
    requires 4 <= bits <= 12
    ensures PerWord(bits) == if bits == 4 then 16 else if bits == 5 then 12 else if bits == 6 then 10
                             else if bits == 7 then 9 else if bits == 8 then 8 else if bits == 9 then 7
                             else if bits == 10 then 6 else 5
    ensures PerWord(bits) * bits <= 64
  {
  }

  lemma WordInBounds(bits: nat, padded: bool, index: nat)
    requires 4 <= bits <= 12 && index < STATES
    ensures WordIndex(bits, padded, index) < if padded then PaddedWords(bits) else StraddlingWords(bits)
    ensures Spills(bits, padded, index) ==> WordIndex(bits, padded, index) + 1 < StraddlingWords(bits)
  {
    PerWordTable(bits);
    StraddlingIsExact(bits);
    if !padded {
      var b := index * bits;
      assert b + bits == (index + 1) * bits <= STATES * bits by { MulMonotone(index + 1, STATES, bits); }
      assert b == 64 * (b / 64) + b % 64;
    }
  }

  lemma MulMonotone(a: nat, b: nat, m: nat)
    requires a <= b
    ensures a * m <= b * m
  {
  }

  lemma StraddlingIsExact(bits: nat)
    ensures StraddlingWords(bits) == 64 * bits
  {
  }

  /** The word count tells the layouts apart, except where they are the same layout. */
  lemma LayoutIsUnambiguous(bits: nat)
    requires 4 <= bits <= 12
    ensures PaddedWords(bits) == StraddlingWords(bits) <==> 64 % bits == 0
  {
    PerWordTable(bits);
    StraddlingIsExact(bits);
  }

  lemma SameIndex(bits: nat, index: nat)
    requires 4 <= bits <= 12 && 64 % bits == 0
    ensures WordIndex(bits, true, index) == WordIndex(bits, false, index)
    ensures Shift(bits, true, index) == Shift(bits, false, index) && !Spills(bits, false, index)
  {
    if bits == 4 {
      assert index / 16 == index * 4 / 64 && index % 16 * 4 == index * 4 % 64;
    } else {
      assert bits == 8;
      assert index / 8 == index * 8 / 64 && index % 8 * 8 == index * 8 % 64;
    }
  }

  lemma SameLayout(words: seq<nat>, bits: nat, index: nat)
    requires 4 <= bits <= 12 && 64 % bits == 0 && index < STATES
    requires |words| == PaddedWords(bits)
    ensures WordIndex(bits, true, index) < |words|
    ensures WordIndex(bits, false, index) < |words| && !Spills(bits, false, index)
    ensures StateAt(words, bits, true, index) == StateAt(words, bits, false, index)
  {
    WordInBounds(bits, true, index);
    SameIndex(bits, index);
  }

  // ----- numbers written in digits of `bits` bits -----

  predicate Small(states: seq<nat>, bits: nat) {
    forall k :: 0 <= k < |states| ==> states[k] < Pow2(bits)
  }

  /** The states as digits of one number, the first the least significant. */
  function Join(states: seq<nat>, bits: nat): nat {
    if states == [] then 0 else states[0] + Join(states[1..], bits) * Pow2(bits)
  }

  lemma {:induction false} JoinAt(states: seq<nat>, bits: nat, k: nat)
    requires Small(states, bits) && k < |states|
    ensures Shr(Join(states, bits), bits * k) % Pow2(bits) == states[k]
    decreases k
  {
    var n, tail := Join(states, bits), Join(states[1..], bits);
    DivUnique(n, Pow2(bits), tail, states[0]);
    if k > 0 {
      ShrIsDiv(n, bits);
      ShrShr(n, bits, bits * (k - 1));
      assert bits + bits * (k - 1) == bits * k;
      JoinAt(states[1..], bits, k - 1);
    }
  }

  // ----- packing -----

  /** Word `i` of the padded layout holds states i * per .. (i + 1) * per. */
  function PaddedWord(states: seq<nat>, bits: nat, i: nat): nat
    requires 4 <= bits <= 12 && |states| == STATES && i * PerWord(bits) <= STATES
  {
    var from, to := i * PerWord(bits), (i + 1) * PerWord(bits);
    Join(states[from..if to <= STATES then to else STATES], bits)
  }

  /** Word `i` of the straddling layout is bits 64 * i .. 64 * (i + 1) of the joined states. */
  function StraddlingWord(states: seq<nat>, bits: nat, i: nat): nat {
    Shr(Join(states, bits), 64 * i) % Pow2(64)
  }

  ghost predicate PacksPadded(words: seq<nat>, states: seq<nat>, bits: nat)
    requires 4 <= bits <= 12 && |states| == STATES
  {
    |words| == PaddedWords(bits) &&
    forall i :: 0 <= i < |words| && i * PerWord(bits) <= STATES ==> words[i] == PaddedWord(states, bits, i)
  }

  ghost predicate PacksStraddling(words: seq<nat>, states: seq<nat>, bits: nat) {
    |words| == StraddlingWords(bits) &&
    forall i :: 0 <= i < |words| ==> words[i] == StraddlingWord(states, bits, i)
  }

  /** A packed word fits in 64 bits. */
  lemma {:induction false} JoinBound(states: seq<nat>, bits: nat)
    requires Small(states, bits)
    ensures Join(states, bits) < Pow2(bits * |states|)
    decreases |states|
  {
    if states != [] {
      JoinBound(states[1..], bits);
      var n := |states| - 1;
      Pow2Add(bits, bits * n);
      assert bits + bits * n == bits * |states|;
      SmallPart(Pow2(bits), Pow2(bits * n), Join(states[1..], bits), states[0]);
    }
  }

  /** Element i * per + j is the j-th of the i-th group. */
  lemma InGroup(states: seq<nat>, per: nat, i: nat, j: nat, index: nat)
    requires j < per && index == i * per + j && index < |states|
    ensures i * per <= |states| && index < (i + 1) * per
    ensures var to := (i + 1) * per;
            states[i * per..if to <= |states| then to else |states|][j] == states[index]
  {
    assert (i + 1) * per == i * per + per;
  }

  lemma {:induction false} Pow2Monotone(a: nat, b: nat)
    requires a <= b
    ensures Pow2(a) <= Pow2(b)
    decreases b
  {
    if a < b {
      Pow2Monotone(a, b - 1);
    }
  }

  /** Both layouts pack into genuine 64-bit words. */
  lemma WordsFit(states: seq<nat>, bits: nat, i: nat)
    requires 4 <= bits <= 12 && |states| == STATES && Small(states, bits) && i * PerWord(bits) <= STATES
    ensures PaddedWord(states, bits, i) < Pow2(64) && StraddlingWord(states, bits, i) < Pow2(64)
  {
    var from, to := i * PerWord(bits), (i + 1) * PerWord(bits);
    assert to == from + PerWord(bits);
    var group := states[from..if to <= STATES then to else STATES];
    JoinBound(group, bits);
    PerWordTable(bits);
    MulMonotone(|group|, PerWord(bits), bits);
    Pow2Monotone(bits * |group|, 64);
  }

  lemma PaddedRoundTrip(words: seq<nat>, states: seq<nat>, bits: nat, index: nat)
    requires 4 <= bits <= 12 && |states| == STATES && Small(states, bits) && index < STATES
    requires PacksPadded(words, states, bits)
    ensures WordIndex(bits, true, index) < |words|
    ensures StateAt(words, bits, true, index) == states[index]
  {
    WordInBounds(bits, true, index);
    var per := PerWord(bits);
    var i, j := index / per, index % per;
    assert index == i * per + j;
    PaddedWordReads(words, states, bits, i, j, index);
    assert Shift(bits, true, index) == j * bits == bits * j;
  }

  lemma PaddedWordReads(words: seq<nat>, states: seq<nat>, bits: nat, i: nat, j: nat, index: nat)
    requires 4 <= bits <= 12 && |states| == STATES && Small(states, bits) && index < STATES
    requires PacksPadded(words, states, bits) && i < |words|
    requires j < PerWord(bits) && index == i * PerWord(bits) + j
    ensures Shr(words[i], bits * j) % Pow2(bits) == states[index]
  {
    var per := PerWord(bits);
    InGroup(states, per, i, j, index);
    var to := (i + 1) * per;
    JoinAt(states[i * per..if to <= STATES then to else STATES], bits, j);
  }

  lemma ScaledSplit(w: nat, q: nat, r: nat, m: nat, n: nat)
    requires w == q * m + r && r < m && n > 0
    ensures w * n == q * (m * n) + r * n && r * n < m * n && m * n > 0
  {
    Regroup(q, m, r, n);
    SmallPart(n, m, r, 0);
  }

  lemma ShlKeepsLow(w: nat, c: nat, s: nat)
    ensures Shl(w, c, c + s) == w % Pow2(s) * Pow2(c)
  {
    Pow2Add(s, c);
    ShlLow(w, Pow2(s), Pow2(c));
    assert c + s == s + c;
  }

  lemma ShlLow(w: nat, m: nat, n: nat)
    requires m > 0 && n > 0
    ensures m * n > 0 && w * n % (m * n) == w % m * n
  {
    var q: nat, r: nat := w / m, w % m;
    assert w == q * m + r;
    ScaledSplit(w, q, r, m, n);
    DivUnique(w * n, m * n, q, r * n);
  }

  lemma SplitMod(y: nat, a: nat, b: nat)
    ensures y % Pow2(a + b) == y % Pow2(a) + Shr(y, a) % Pow2(b) * Pow2(a)
  {
    var z := y % Pow2(a + b);
    ModShr(y, a, b);
    ShrIsDiv(z, a);
    assert z == z / Pow2(a) * Pow2(a) + z % Pow2(a);
  }

  /** Reading `bits` bits at offset `shift` from two consecutive words of `x`. */
  lemma ReadAcross(x: nat, shift: nat, bits: nat)
    requires shift < 64 && bits <= 64
    ensures var low, high := x % Pow2(64), Shr(x, 64) % Pow2(64);
            var value := Shr(low, shift);
            (if shift + bits > 64 then Or(value, Shl(high, 64 - shift, 64)) else value) % Pow2(bits)
            == Shr(x, shift) % Pow2(bits)
  {
    var y, c := Shr(x, shift), 64 - shift;
    var low, high := x % Pow2(64), Shr(x, 64) % Pow2(64);
    ModShr(x, shift, c);
    assert Shr(low, shift) == y % Pow2(c);
    if shift + bits > 64 {
      JoinHalves(x, shift);
      ModShr(y, bits, 64 - bits);
    } else {
      ModShr(y, bits, c - bits);
    }
  }

  /** The upper part of one word and the lower part of the next are 64 consecutive bits. */
  lemma JoinHalves(x: nat, shift: nat)
    requires shift < 64
    ensures Or(Shr(x, shift) % Pow2(64 - shift), Shl(Shr(x, 64) % Pow2(64), 64 - shift, 64))
            == Shr(x, shift) % Pow2(64)
  {
    var y, c, high := Shr(x, shift), 64 - shift, Shr(x, 64) % Pow2(64);
    ShlKeepsLow(high, c, shift);
    ShrShr(x, shift, c);
    ModShr(Shr(x, 64), shift, c);
    SplitMod(y, c, shift);
    assert y % Pow2(c) < Pow2(c);
    OrDisjoint(y % Pow2(c), high % Pow2(shift), c);
  }

  lemma StraddlingRoundTrip(words: seq<nat>, states: seq<nat>, bits: nat, index: nat)
    requires 4 <= bits <= 12 && |states| == STATES && Small(states, bits) && index < STATES
    requires PacksStraddling(words, states, bits)
    ensures WordIndex(bits, false, index) < |words|
    ensures Spills(bits, false, index) ==> WordIndex(bits, false, index) + 1 < |words|
    ensures StateAt(words, bits, false, index) == states[index]
  {
    WordInBounds(bits, false, index);
    var n, b := Join(states, bits), index * bits;
    var word, shift := b / 64, b % 64;
    var x := Shr(n, 64 * word);
    ShrShr(n, 64 * word, 64);
    assert 64 * word + 64 == 64 * (word + 1);
    assert WordIndex(bits, false, index) == word && Shift(bits, false, index) == shift;
    assert words[word] == x % Pow2(64);
    assert shift + bits > 64 ==> words[word + 1] == Shr(x, 64) % Pow2(64);
    ReadAcross(x, shift, bits);
    ShrShr(n, 64 * word, shift);
    assert 64 * word + shift == b == bits * index;
    JoinAt(states, bits, index);
  }
}
