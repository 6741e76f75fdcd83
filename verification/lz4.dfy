/**
 The LZ4 block decoder (`lz4_block`) against the LZ4 Block Format Description:
 a block is a run of sequences, each a token, literals, a distance and a match
 that may overlap the bytes it is still producing.
 */
module Lz4 {
  import opened Bytes
  import opened Wrappers

  /** `End` follows a match (or is the whole of an empty block); `Last` holds trailing
      literals, whose token has an unused low nibble. */
  datatype Block =
    | End
    | Last(nibble: nat, tail: seq<Byte>)
    | More(literals: seq<Byte>, distance: nat, matchLength: nat, rest: Block)

  predicate WellFormed(b: Block) {
    match b
    case End => true
    case Last(nibble, _) => nibble < 16
    case More(_, distance, matchLength, rest) =>
      distance < 0x1_0000 && matchLength >= 4 && WellFormed(rest)
  }

  function Le16(low: nat, high: nat): nat {
    low + 256 * high
  }

  function Le16Bytes(w: nat): (s: seq<Byte>)
    requires w < 0x1_0000
    ensures |s| == 2 && Le16(s[0], s[1]) == w
  {
    [w % 256, w / 256]
  }

  lemma Le16RoundTrip(low: Byte, high: Byte)
    ensures Le16Bytes(Le16(low, high)) == [low, high]
  {
    LowDigit(low, high, Le16(low, high));
  }

  // ----- encoding -----

  function Nibble(n: nat): (r: nat)
    ensures r < 16
  {
    if n < 15 then n else 15
  }

  function Tally(n: nat): seq<Byte> {
    if n < 255 then [n] else [255] + Tally(n - 255)
  }

  /** The extra length bytes that follow a nibble of 15. */
  function Extension(n: nat): seq<Byte> {
    if n < 15 then [] else Tally(n - 15)
  }

  function Token(high: nat, low: nat): (t: Byte)
    requires high < 16 && low < 16
    ensures t / 16 == high && t % 16 == low
  {
    16 * high + low
  }

  /** A token, its literal count, the literals and what follows them. */
  function EncodeLiterals(low: nat, literals: seq<Byte>, t: seq<Byte>): seq<Byte>
    requires low < 16
  {
    [Token(Nibble(|literals|), low)] + (Extension(|literals|) + (literals + t))
  }

  function EncodeLast(nibble: nat, tail: seq<Byte>): seq<Byte>
    requires nibble < 16
  {
    EncodeLiterals(nibble, tail, [])
  }

  function EncodeMore(literals: seq<Byte>, distance: nat, matchLength: nat, rest: seq<Byte>): seq<Byte>
    requires distance < 0x1_0000 && matchLength >= 4
  {
    EncodeLiterals(Nibble(matchLength - 4), literals,
                   Le16Bytes(distance) + (Extension(matchLength - 4) + rest))
  }

  function Encode(b: Block): seq<Byte>
    requires WellFormed(b)
  {
    match b
    case End => []
    case Last(nibble, tail) => EncodeLast(nibble, tail)
    case More(literals, distance, matchLength, rest) =>
      EncodeMore(literals, distance, matchLength, Encode(rest))
  }

  // ----- meaning -----

  /** Byte-by-byte copy from `distance` back: a match may read bytes it has just written. */
  function Copy(out: seq<Byte>, distance: nat, n: nat): (r: seq<Byte>)
    requires 1 <= distance <= |out|
    ensures |r| == |out| + n
    decreases n
  {
    if n == 0 then out else Copy(out + [out[|out| - distance]], distance, n - 1)
  }

  lemma {:induction false} CopyKeeps(out: seq<Byte>, distance: nat, n: nat, k: nat)
    requires 1 <= distance <= |out| && k < |out|
    ensures Copy(out, distance, n)[k] == out[k]
    decreases n
  {
    if n > 0 {
      CopyKeeps(out + [out[|out| - distance]], distance, n - 1, k);
    }
  }

  /** The copied region repeats with period `distance`, overlapping or not. */
  lemma {:induction false} CopyIsPeriodic(out: seq<Byte>, distance: nat, n: nat, k: nat)
    requires 1 <= distance <= |out| <= k < |out| + n
    ensures Copy(out, distance, n)[k] == Copy(out, distance, n)[k - distance]
    decreases n
  {
    var next := out + [out[|out| - distance]];
    if k == |out| {
      CopyKeeps(next, distance, n - 1, k);
      CopyKeeps(next, distance, n - 1, k - distance);
    } else {
      CopyIsPeriodic(next, distance, n - 1, k);
    }
  }

  /** Every match starts inside the output produced so far. */
  predicate Resolves(b: Block, out: seq<Byte>)
    requires WellFormed(b)
  {
    match b
    case End => true
    case Last(_, _) => true
    case More(literals, distance, matchLength, rest) =>
      1 <= distance <= |out| + |literals| && Resolves(rest, Copy(out + literals, distance, matchLength))
  }

  function Expand(b: Block, out: seq<Byte>): (r: seq<Byte>)
    requires WellFormed(b) && Resolves(b, out)
    ensures |r| >= |out|
  {
    match b
    case End => out
    case Last(_, tail) => out + tail
    case More(literals, distance, matchLength, rest) =>
      Expand(rest, Copy(out + literals, distance, matchLength))
  }

  ghost predicate Means(b: Block, src: seq<Byte>, content: seq<Byte>) {
    && WellFormed(b) && Encode(b) == src
    && Resolves(b, []) && Expand(b, []) == content
  }

  /** `src` is the encoding of some block that expands to `content`. */
  ghost predicate Encodes(src: seq<Byte>, content: seq<Byte>) {
    exists b :: Means(b, src, content)
  }

  // ----- parsing the format -----

  function ReadTally(s: seq<Byte>, sum: nat): (r: Option<(nat, seq<Byte>)>)
    ensures r.Some? ==> |r.value.1| < |s|
  {
    if s == [] then None
    else if s[0] == 255 then ReadTally(s[1..], sum + 255)
    else Some((sum + s[0], s[1..]))
  }

  function ReadLength(nibble: nat, s: seq<Byte>): (r: Option<(nat, seq<Byte>)>)
    ensures r.Some? ==> |r.value.1| <= |s|
  {
    if nibble != 15 then Some((nibble, s)) else ReadTally(s, 15)
  }

  lemma {:induction false} TallyReads(n: nat, rest: seq<Byte>, sum: nat)
    ensures ReadTally(Tally(n) + rest, sum) == Some((sum + n, rest))
  {
    var s := Tally(n) + rest;
    if n < 255 {
      assert s[1..] == rest;
    } else {
      assert s[0] == 255 && s[1..] == Tally(n - 255) + rest;
      TallyReads(n - 255, rest, sum + 255);
    }
  }

  lemma {:induction false} ReadTallyIsTally(s: seq<Byte>, sum: nat)
    requires ReadTally(s, sum).Some?
    ensures var (n, rest) := ReadTally(s, sum).value; n >= sum && s == Tally(n - sum) + rest
  {
    if s[0] == 255 {
      ReadTallyIsTally(s[1..], sum + 255);
      var (n, rest) := ReadTally(s, sum).value;
      assert s == [255] + (Tally(n - sum - 255) + rest);
    } else {
      assert s == [s[0]] + s[1..];
    }
  }

  lemma LengthReads(n: nat, rest: seq<Byte>)
    ensures ReadLength(Nibble(n), Extension(n) + rest) == Some((n, rest))
  {
    if n < 15 {
      assert Extension(n) + rest == rest;
    } else {
      TallyReads(n - 15, rest, 15);
    }
  }

  lemma ReadLengthIsExtension(nibble: nat, s: seq<Byte>)
    requires nibble < 16 && ReadLength(nibble, s).Some?
    ensures var (n, rest) := ReadLength(nibble, s).value; nibble == Nibble(n) && s == Extension(n) + rest
  {
    if nibble == 15 {
      ReadTallyIsTally(s, 15);
    } else {
      assert s == Extension(nibble) + s;
    }
  }

  /** The next piece of a non-empty source: malformed, trailing literals, or one sequence and what follows it. */
  datatype Piece =
    | Malformed
    | Tail(nibble: nat, tail: seq<Byte>)
    | Sequence(literals: seq<Byte>, distance: nat, matchLength: nat, after: seq<Byte>)

  function AfterLiterals(low: nat, literals: seq<Byte>, t: seq<Byte>): (r: Piece)
    requires low < 16
    ensures r.Tail? ==> r.nibble < 16
    ensures r.Sequence? ==> r.distance < 0x1_0000 && r.matchLength >= 4 && |r.after| + 2 <= |t|
  {
    if t == [] then Tail(low, literals) else
    if |t| < 2 then Malformed else
    var m := ReadLength(low, t[2..]);
    if m.None? then Malformed else
    Sequence(literals, Le16(t[0], t[1]), m.value.0 + 4, m.value.1)
  }

  function NextPiece(src: seq<Byte>): (r: Piece)
    requires src != []
    ensures r.Tail? ==> r.nibble < 16
    ensures r.Sequence? ==> r.distance < 0x1_0000 && r.matchLength >= 4 && |r.after| < |src|
  {
    var len := ReadLength(src[0] / 16, src[1..]);
    if len.None? || len.value.0 > |len.value.1| then Malformed else
    var (n, s) := len.value;
    AfterLiterals(src[0] % 16, s[..n], s[n..])
  }

  lemma NextAfterLiterals(low: nat, literals: seq<Byte>, t: seq<Byte>)
    requires low < 16
    ensures NextPiece(EncodeLiterals(low, literals, t)) == AfterLiterals(low, literals, t)
  {
    var s := literals + t;
    var src := EncodeLiterals(low, literals, t);
    assert src[1..] == Extension(|literals|) + s;
    LengthReads(|literals|, s);
    assert s[..|literals|] == literals && s[|literals|..] == t;
  }

  lemma NextOfLast(nibble: nat, tail: seq<Byte>)
    requires nibble < 16
    ensures NextPiece(EncodeLast(nibble, tail)) == Tail(nibble, tail)
  {
    NextAfterLiterals(nibble, tail, []);
  }

  lemma NextOfMore(literals: seq<Byte>, distance: nat, matchLength: nat, rest: seq<Byte>)
    requires distance < 0x1_0000 && matchLength >= 4
    ensures NextPiece(EncodeMore(literals, distance, matchLength, rest))
            == Sequence(literals, distance, matchLength, rest)
  {
    var after := Extension(matchLength - 4) + rest;
    var t := Le16Bytes(distance) + after;
    NextAfterLiterals(Nibble(matchLength - 4), literals, t);
    assert t[2..] == after;
    LengthReads(matchLength - 4, rest);
  }

  lemma AfterLiteralsEncodes(low: nat, literals: seq<Byte>, t: seq<Byte>)
    requires low < 16
    ensures var p := AfterLiterals(low, literals, t);
            && (p.Tail? ==> t == [] && p == Tail(low, literals))
            && (p.Sequence? ==>
                  && p.literals == literals && low == Nibble(p.matchLength - 4)
                  && t == Le16Bytes(p.distance) + (Extension(p.matchLength - 4) + p.after))
  {
    var p := AfterLiterals(low, literals, t);
    if p.Sequence? {
      ReadLengthIsExtension(low, t[2..]);
      Le16RoundTrip(t[0], t[1]);
      assert t == [t[0], t[1]] + t[2..];
    }
  }

  lemma LiteralsEncode(src: seq<Byte>)
    requires src != [] && !NextPiece(src).Malformed?
    ensures var (n, s) := ReadLength(src[0] / 16, src[1..]).value;
            src == EncodeLiterals(src[0] % 16, s[..n], s[n..])
  {
    var (high, low) := (src[0] / 16, src[0] % 16);
    ReadLengthIsExtension(high, src[1..]);
    var (n, s) := ReadLength(high, src[1..]).value;
    assert s[..n] + s[n..] == s;
    assert Token(high, low) == src[0];
    assert src[1..] == Extension(n) + s;
    assert EncodeLiterals(low, s[..n], s[n..]) == [src[0]] + (Extension(n) + s);
  }

  lemma PieceEncodes(src: seq<Byte>)
    requires src != []
    ensures var p := NextPiece(src);
            && (p.Tail? ==> src == EncodeLast(p.nibble, p.tail))
            && (p.Sequence? ==> src == EncodeMore(p.literals, p.distance, p.matchLength, p.after))
  {
    if !NextPiece(src).Malformed? {
      var (n, s) := ReadLength(src[0] / 16, src[1..]).value;
      AfterLiteralsEncodes(src[0] % 16, s[..n], s[n..]);
      LiteralsEncode(src);
    }
  }

  function Parse(src: seq<Byte>): (r: Option<Block>)
    ensures r.Some? ==> WellFormed(r.value)
    decreases |src|
  {
    if src == [] then Some(End) else
    match NextPiece(src)
    case Malformed => None
    case Tail(nibble, tail) => Some(Last(nibble, tail))
    case Sequence(literals, distance, matchLength, after) =>
      var rest := Parse(after);
      if rest.None? then None else Some(More(literals, distance, matchLength, rest.value))
  }

  lemma {:induction false} ParseEncode(b: Block)
    requires WellFormed(b)
    ensures Parse(Encode(b)) == Some(b)
    decreases b
  {
    match b
    case End =>
    case Last(nibble, tail) => NextOfLast(nibble, tail);
    case More(literals, distance, matchLength, rest) =>
      NextOfMore(literals, distance, matchLength, Encode(rest));
      ParseEncode(rest);
  }

  lemma {:induction false} EncodeParse(src: seq<Byte>)
    requires Parse(src).Some?
    ensures Encode(Parse(src).value) == src
    decreases |src|
  {
    if src != [] {
      PieceEncodes(src);
      if NextPiece(src).Sequence? {
        EncodeParse(NextPiece(src).after);
      }
    }
  }

  /** A source is the encoding of at most one block, so it has at most one content. */
  lemma EncodesIsFunctional(src: seq<Byte>, c: seq<Byte>, c': seq<Byte>)
    requires Encodes(src, c) && Encodes(src, c')
    ensures c == c'
  {
    var b :| Means(b, src, c);
    var b' :| Means(b', src, c');
    ParseEncode(b);
    ParseEncode(b');
  }

  // ----- the decoder's steps -----

  /** What the decoder still has to do: `out` is written, `src` is unread, `length` is the buffer size. */
  function DecodeFrom(src: seq<Byte>, out: seq<Byte>, length: nat): Option<seq<Byte>>
    requires |out| <= length
    decreases |src|
  {
    if src == [] then (if |out| == length then Some(out) else None) else
    match NextPiece(src)
    case Malformed => None
    case Tail(_, tail) => if |out| + |tail| == length then Some(out + tail) else None
    case Sequence(literals, distance, matchLength, after) =>
      var n := |out| + |literals|;
      if 1 <= distance <= n && n + matchLength <= length
      then DecodeFrom(after, Copy(out + literals, distance, matchLength), length)
      else None
  }

  lemma {:induction false} DecodeIsExpand(src: seq<Byte>, out: seq<Byte>, length: nat)
    requires |out| <= length
    ensures DecodeFrom(src, out, length) ==
            match Parse(src)
            case None => None
            case Some(b) => if Resolves(b, out) && |Expand(b, out)| == length then Some(Expand(b, out)) else None
    decreases |src|
  {
    if src != [] && NextPiece(src).Sequence? {
      var p := NextPiece(src);
      var n := |out| + |p.literals|;
      if 1 <= p.distance <= n && n + p.matchLength <= length {
        DecodeIsExpand(p.after, Copy(out + p.literals, p.distance, p.matchLength), length);
      }
    }
  }

  lemma DecodeMeaning(src: seq<Byte>, length: nat)
    ensures DecodeFrom(src, [], length).Some? ==>
              |DecodeFrom(src, [], length).value| == length && Encodes(src, DecodeFrom(src, [], length).value)
    ensures DecodeFrom(src, [], length).None? ==> forall c :: |c| == length ==> !Encodes(src, c)
  {
    DecodeIsExpand(src, [], length);
    if Parse(src).Some? {
      EncodeParse(src);
      var b := Parse(src).value;
      assert Resolves(b, []) ==> Means(b, src, Expand(b, []));
    }
    if DecodeFrom(src, [], length).None? {
      forall c | |c| == length
        ensures !Encodes(src, c)
      {
        if Encodes(src, c) {
          var b :| Means(b, src, c);
          ParseEncode(b);
        }
      }
    }
  }

  // ----- the C loops -----

  /** The length loops at lines 206 and 214: 32-bit sums over bytes of 255 and one closing byte. */
  method ReadLengthLoop(src: seq<Byte>, start: nat, nibble: nat, base: nat)
    returns (ok: bool, next: nat, total: Word32)
    requires start <= |src| <= MAX_COMPRESSED && nibble < 16 && base <= 4
    ensures ok <==> ReadLength(nibble, src[start..]).Some?
    ensures ok ==> start <= next <= |src| && ReadLength(nibble, src[start..]).value == (total - base, src[next..])
  {
    next, total := start, nibble + base;
    if nibble == 15 {
      var more: Byte := 255;
      while more == 255
        invariant start <= next <= |src|
        invariant more == 255 ==> base <= total <= 19 + 255 * (next - start)
        invariant more == 255 ==> ReadTally(src[next..], total - base) == ReadTally(src[start..], 15)
        invariant more != 255 ==> base <= total && ReadTally(src[start..], 15) == Some((total - base, src[next..]))
        decreases if more == 255 then 1 else 0, |src| - next
      {
        if next == |src| {
          return false, next, total;
        }
        more := src[next];
        assert src[next..][1..] == src[next + 1..];
        next := next + 1;
        total := Wrap32(total + more);
      }
    }
    ok := true;
  }

  /** The match loop at line 216. */
  method CopyMatch(dest: array<Byte>, at: nat, distance: nat, n: nat)
    requires 1 <= distance <= at && at + n <= dest.Length
    modifies dest
    ensures dest[..at + n] == Copy(old(dest[..at]), distance, n)
  {
    ghost var before := dest[..at];
    for i := 0 to n
      invariant Copy(before, distance, n) == Copy(dest[..at + i], distance, n - i)
    {
      ghost var done := dest[..at + i];
      dest[at + i] := dest[at + i - distance];
      assert dest[..at + i + 1] == done + [done[|done| - distance]];
    }
  }

  method CopyLiterals(src: seq<Byte>, start: nat, dest: array<Byte>, at: nat, n: nat)
    requires start + n <= |src| && at + n <= dest.Length
    modifies dest
    ensures dest[..at + n] == old(dest[..at]) + src[start..start + n]
  {
    for i := 0 to n
      invariant dest[..at + i] == old(dest[..at]) + src[start..start + i]
    {
      ghost var done := dest[..at + i];
      dest[at + i] := src[start + i];
      assert dest[..at + i + 1] == done + [src[start + i]];
    }
  }

  /** The piece cannot be written: it is malformed or has more literals than there is room for. */
  predicate TooLong(p: Piece, room: nat) {
    match p
    case Malformed => true
    case Tail(_, tail) => |tail| > room
    case Sequence(literals, _, _, _) => |literals| > room
  }

  /** Lines 205-208: the token, its literal count and the literals. */
  method LiteralRun(src: seq<Byte>, start: nat, dest: array<Byte>, out: nat)
    returns (ok: bool, next: nat, written: nat, ghost literals: seq<Byte>)
    requires start < |src| <= MAX_COMPRESSED && out <= dest.Length <= MAX_NBT
    modifies dest
    ensures if ok then
              && start < next <= |src| && out <= written <= dest.Length
              && dest[..written] == old(dest[..out]) + literals
              && NextPiece(src[start..]) == AfterLiterals(src[start] % 16, literals, src[next..])
            else
              TooLong(NextPiece(src[start..]), dest.Length - out)
  {
    ghost var here := src[start..];
    assert here[1..] == src[start + 1..];
    var okLength, pos, count := ReadLengthLoop(src, start + 1, src[start] / 16, 0);
    if !okLength || count > |src| - pos {
      return false, start, out, [];
    }
    assert src[pos..][..count] == src[pos..pos + count] && src[pos..][count..] == src[pos + count..];
    assert NextPiece(here) == AfterLiterals(here[0] % 16, src[pos..pos + count], src[pos + count..]);
    if count > dest.Length - out {
      return false, start, out, [];
    }
    CopyLiterals(src, pos, dest, out, count);
    return true, pos + count, out + count, src[pos..pos + count];
  }

  /** Lines 210-216: the distance, the match length and the overlapping copy. */
  method MatchRun(src: seq<Byte>, start: nat, low: nat, dest: array<Byte>, out: nat, ghost literals: seq<Byte>)
    returns (ok: bool, next: nat, written: nat)
    requires start < |src| <= MAX_COMPRESSED && out <= dest.Length <= MAX_NBT && low < 16
    modifies dest
    ensures var p := AfterLiterals(low, literals, src[start..]);
            if ok then
              && p.Sequence? && start < next <= |src| && out <= written <= dest.Length
              && p.after == src[next..] && 1 <= p.distance <= out && written == out + p.matchLength
              && dest[..written] == Copy(old(dest[..out]), p.distance, p.matchLength)
            else
              p.Malformed? || (p.Sequence? && !(1 <= p.distance <= out && out + p.matchLength <= dest.Length))
  {
    ghost var t := src[start..];
    if |src| - start < 2 {
      return false, start, out;
    }
    var distance := Le16(src[start], src[start + 1]);
    assert t[2..] == src[start + 2..];
    if distance == 0 || distance > out {
      return false, start, out;
    }
    var okLength, pos, matchLength := ReadLengthLoop(src, start + 2, low, 4);
    if !okLength || matchLength > dest.Length - out {
      return false, start, out;
    }
    CopyMatch(dest, out, distance, matchLength);
    return true, pos, out + matchLength;
  }

  method DecodeLoop(src: seq<Byte>, dest: array<Byte>) returns (ok: bool)
    requires |src| <= MAX_COMPRESSED && dest.Length <= MAX_NBT
    modifies dest
    ensures DecodeFrom(src, [], dest.Length) == if ok then Some(dest[..]) else None
  {
    var pos, out := 0, 0;
    while pos < |src|
      invariant 0 <= pos <= |src| && 0 <= out <= dest.Length
      invariant DecodeFrom(src[pos..], dest[..out], dest.Length) == DecodeFrom(src, [], dest.Length)
    {
      var low := src[pos] % 16;
      var okLiterals, next, written, literals := LiteralRun(src, pos, dest, out);
      if !okLiterals {
        return false;
      }
      if next == |src| {
        assert written == dest.Length ==> dest[..written] == dest[..];
        return written == dest.Length;
      }
      var okMatch, after, end := MatchRun(src, next, low, dest, written, literals);
      if !okMatch {
        return false;
      }
      pos, out := after, end;
    }
    assert out == dest.Length ==> dest[..out] == dest[..];
    return out == dest.Length;
  }

  /** `lz4_block`: succeeds exactly on encodings of as many bytes as the buffer holds, and fills it with them. */
  method DecodeBlock(src: seq<Byte>, dest: array<Byte>) returns (ok: bool)
    requires |src| <= MAX_COMPRESSED && dest.Length <= MAX_NBT
    modifies dest
    ensures ok ==> Encodes(src, dest[..])
    ensures !ok ==> forall c :: |c| == dest.Length ==> !Encodes(src, c)
  {
    ok := DecodeLoop(src, dest);
    DecodeMeaning(src, dest.Length);
  }
}
