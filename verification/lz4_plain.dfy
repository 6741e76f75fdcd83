/**
 LZ4 blocks byte by byte: the numbers of the LZ4 Block Format Description written out, and what a block of literals and
 matches decodes to, position by position.
 */
module Lz4Plain {
  import opened Bytes
  import opened Lz4

  /** The count that does not fit a nibble: bytes of 255, and a last one below. */
  function MoreOf(n: nat): seq<Byte> {
    if n < 15 then [] else seq((n - 15) / 255, _ => 255) + [(n - 15) % 255]
  }

  function Up15(n: nat): nat {
    if n < 15 then n else 15
  }

  function Plain(b: Block): seq<Byte>
    requires WellFormed(b)
  {
    match b
    case End => []
    case Last(nibble, tail) => [16 * Up15(|tail|) + nibble] + (MoreOf(|tail|) + tail)
    case More(literals, distance, matchLength, rest) =>
      [16 * Up15(|literals|) + Up15(matchLength - 4)] + (MoreOf(|literals|) + (literals
        + ([distance % 256, distance / 256] + (MoreOf(matchLength - 4) + Plain(rest)))))
  }

  lemma {:induction false} TallyIsPlain(n: nat)
    ensures Tally(n) == seq(n / 255, _ => 255) + [n % 255]
    decreases n
  {
    if n >= 255 {
      TallyIsPlain(n - 255);
      var k := n / 255;
      assert (n - 255) / 255 == k - 1 && (n - 255) % 255 == n % 255;
      assert [255] + seq(k - 1, _ => 255) == seq(k, _ => 255);
    }
  }

  lemma ExtensionIsPlain(n: nat)
    ensures Extension(n) == MoreOf(n) && Nibble(n) == Up15(n)
  {
    if n >= 15 {
      TallyIsPlain(n - 15);
    }
  }

  /** The encoding of a block is what the format description says. */
  lemma {:induction false} EncodeIsPlain(b: Block)
    requires WellFormed(b)
    ensures Encode(b) == Plain(b)
    decreases b
  {
    match b
    case End =>
    case Last(nibble, tail) =>
      ExtensionIsPlain(|tail|);
      assert tail + [] == tail;
    case More(literals, distance, matchLength, rest) =>
      ExtensionIsPlain(|literals|);
      ExtensionIsPlain(matchLength - 4);
      EncodeIsPlain(rest);
  }

  /** A match copies, one after another, the bytes `distance` back, those it has just written included. */
  lemma CopyReads(out: seq<Byte>, distance: nat, n: nat)
    requires 1 <= distance <= |out|
    ensures var r := Copy(out, distance, n);
            && |r| == |out| + n && r[..|out|] == out
            && forall k :: |out| <= k < |r| ==> r[k] == r[k - distance]
  {
    var r := Copy(out, distance, n);
    forall k | 0 <= k < |out| ensures r[k] == out[k] {
      CopyKeeps(out, distance, n, k);
    }
    forall k | |out| <= k < |r| ensures r[k] == r[k - distance] {
      CopyIsPeriodic(out, distance, n, k);
    }
  }

  /** What a block decodes to, as a relation between positions. */
  ghost predicate Yields(b: Block, out: seq<Byte>, content: seq<Byte>) {
    match b
    case End => content == out
    case Last(_, tail) => content == out + tail
    case More(literals, distance, matchLength, rest) =>
      var n := |out| + |literals|;
      exists next :: 1 <= distance <= n && |next| == n + matchLength && next[..n] == out + literals
        && (forall k :: n <= k < |next| ==> next[k] == next[k - distance]) && Yields(rest, next, content)
  }

  lemma {:induction false} ExpandYields(b: Block, out: seq<Byte>)
    requires WellFormed(b) && Resolves(b, out)
    ensures Yields(b, out, Expand(b, out))
    decreases b
  {
    if b.More? {
      CopyReads(out + b.literals, b.distance, b.matchLength);
      ExpandYields(b.rest, Copy(out + b.literals, b.distance, b.matchLength));
    }
  }

  /** Any block whose matches start inside the output decodes to what it yields. */
  method DecodePlain(ghost b: Block, src: seq<Byte>, dest: array<Byte>) returns (ok: bool)
    requires WellFormed(b) && Resolves(b, []) && src == Plain(b)
    requires |src| <= MAX_COMPRESSED && dest.Length == |Expand(b, [])| <= MAX_NBT
    modifies dest
    ensures ok && Yields(b, [], dest[..])
  {
    EncodeIsPlain(b);
    ExpandYields(b, []);
    assert Means(b, src, Expand(b, []));
    ok := DecodeBlock(src, dest);
    if ok {
      EncodesIsFunctional(src, dest[..], Expand(b, []));
    }
  }
}
