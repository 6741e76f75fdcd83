/**
 Java LZ4 streams as they lie in a file, byte for byte, and what `decompress` makes of them. The token, the header and
 the checksum are given here without the functions of the reader.
 */
module Lz4Frames {
  import opened Bytes
  import opened Bits
  import opened Wrappers
  import opened Lz4Stream
  import Lz4
  import XxHash
  import XxHashPlain

  /** A block as it is, or packed; `level` says how large a block may be. */
  datatype Piece =
    | AsIs(level: nat, content: seq<Byte>)
    | Packed(level: nat, payload: seq<Byte>, content: seq<Byte>)
  {
    function Bytes(): seq<Byte> {
      if AsIs? then content else payload
    }
  }

  ghost predicate IsPiece(p: Piece) {
    && p.level < 16 && 0 < |p.content| <= 1024 * Pow2(p.level) && 0 < |p.Bytes()| < 4294967296
    && |p.content| <= 4_194_304
    && (p.Packed? ==> Lz4.Encodes(p.payload, p.content))
  }

  /** Four bytes, the lowest first. */
  function WordBytes(n: nat): seq<Byte>
    requires n < 4294967296
  {
    [n % 256, n / 256 % 256, n / 65536 % 256, n / 16777216]
  }

  function PieceBytes(p: Piece): seq<Byte>
    requires p.level < 16 && |p.Bytes()| < 4294967296 && |p.content| < 4294967296
  {
    [76, 90, 52, 66, 108, 111, 99, 107, (if p.AsIs? then 0x10 else 0x20) + p.level]
    + WordBytes(|p.Bytes()|) + WordBytes(|p.content|) + WordBytes(XxHashPlain.Digest(p.content) % 268435456) + p.Bytes()
  }

  /** A stream may end with an empty block of either kind. */
  datatype Ending = Open | Closed(token: Byte)

  predicate IsEnding(e: Ending) {
    e.Closed? ==> 0x10 <= e.token < 0x30
  }

  function EndingBytes(e: Ending): seq<Byte> {
    if e.Open? then [] else [76, 90, 52, 66, 108, 111, 99, 107, e.token] + [0, 0, 0, 0, 0, 0, 0, 0, 0, 0, 0, 0]
  }

  ghost function StreamBytes(l: seq<Piece>, e: Ending): seq<Byte>
    requires forall p <- l :: IsPiece(p)
  {
    assert l != [] ==> IsPiece(l[0]);
    if l == [] then EndingBytes(e) else PieceBytes(l[0]) + StreamBytes(l[1..], e)
  }

  function Contents(l: seq<Piece>): seq<Byte> {
    if l == [] then [] else l[0].content + Contents(l[1..])
  }

  // ----- a piece is a frame -----

  function Framed(p: Piece): Frame
    requires p.level < 16
  {
    Frame((if p.AsIs? then 0x10 else 0x20) + p.level, p.Bytes(), p.content)
  }

  lemma PowerOfLevel(level: nat)
    ensures Pow2(10 + level) == 1024 * Pow2(level)
  {
    Pow2Add(10, level);
    assert Pow2(10) == 1024;
  }

  lemma WordIs(n: Word32)
    ensures WordBytes(n) == Le32Bytes(n)
  {
  }

  lemma SmallModulo(n: nat, m: nat)
    requires n < m
    ensures n % m == n
  {
  }

  lemma PieceIs(p: Piece)
    requires IsPiece(p)
    ensures PieceBytes(p) == LZ4_FORMAT.EncodeFrame(Framed(p))
  {
    XxHashPlain.SameDigest(p.content);
    SmallModulo(XxHash.Digest(p.content), 268435456);
    HeaderIs(Framed(p).token, |p.Bytes()|, |p.content|, XxHash.Digest(p.content));
  }

  lemma HeaderIs(token: Byte, packed: Word32, length: Word32, check: Word32)
    ensures Header(token, packed, length, check)
         == [76, 90, 52, 66, 108, 111, 99, 107, token] + WordBytes(packed) + WordBytes(length) + WordBytes(check)
  {
    WordIs(packed);
    WordIs(length);
    WordIs(check);
    assert MAGIC + [token] == [76, 90, 52, 66, 108, 111, 99, 107, token];
  }

  lemma PieceValid(p: Piece, room: nat)
    requires IsPiece(p) && |p.content| <= room
    ensures ValidFrame(Framed(p), room)
  {
    PowerOfLevel(p.level);
    var token := Framed(p).token;
    assert token % 16 == p.level && token / 16 == if p.AsIs? then 1 else 2;
  }

  lemma PieceStarts(p: Piece, rest: seq<Byte>, room: nat)
    requires IsPiece(p) && |p.content| <= room < TWO32
    ensures LZ4_FORMAT.StartsFrame(PieceBytes(p) + rest, room, Framed(p), rest)
  {
    PieceIs(p);
    PieceValid(p, room);
    LZ4_FORMAT.FrameFields(PieceBytes(p) + rest, Framed(p), rest);
  }

  // ----- streams -----

  lemma EndingDecodes(e: Ending, room: nat)
    requires e.Closed? && IsEnding(e)
    ensures LZ4_FORMAT.Decodes(EndingBytes(e), room, [])
  {
    var data := EndingBytes(e);
    assert Le32Bytes(0) == [0, 0, 0, 0];
    assert data == Header(e.token, 0, 0, 0);
    assert data[..HEADER] == data && data[8] == e.token;
    LZ4_FORMAT.TerminatorEnds(data, room);
  }

  lemma {:induction false} RestIsDecoded(l: seq<Piece>, e: Ending, room: nat)
    requires (forall p <- l :: IsPiece(p)) && IsEnding(e) && |Contents(l)| <= room < TWO32
    ensures LZ4_FORMAT.RestDecodes(StreamBytes(l, e), room, Contents(l))
    decreases |l|
  {
    if l == [] {
      if e.Closed? {
        EndingDecodes(e, room);
      }
    } else {
      var rest, c := StreamBytes(l[1..], e), Contents(l[1..]);
      RestIsDecoded(l[1..], e, room - |l[0].content|);
      PieceStarts(l[0], rest, room);
      LZ4_FORMAT.FrameThenRestComplete(PieceBytes(l[0]) + rest, room, Framed(l[0]), rest, c);
    }
  }

  // ----- one content only -----

  lemma {:induction false} ContentIsUnique(format: Format, data: seq<Byte>, room: nat, c: seq<Byte>, d: seq<Byte>)
    requires format.Decodes(data, room, c) && format.Decodes(data, room, d)
    ensures c == d
    decreases |data|
  {
    var ends, f, rest := Opens(format, data, room, c);
    if ends {
      TerminatorHoldsNothing(format, data, room, d);
    } else {
      FrameHolds(format, data, room, f, rest, c, d);
    }
  }

  lemma Opens(format: Format, data: seq<Byte>, room: nat, c: seq<Byte>)
    returns (ends: bool, f: Frame, rest: seq<Byte>)
    requires format.Decodes(data, room, c)
    ensures if ends then IsTerminator(data) && c == [] else format.StartsFrame(data, room, f, rest)
  {
    var s :| format.Reads(s, data, room, c);
    format.StreamOpens(data, room, s);
    ends := s.Terminator?;
    f := if s.LastFrame? then s.last else if s.MoreFrames? then s.head else Frame(0, [], []);
    rest := if s.MoreFrames? then format.EncodeStream(s.rest, room - |f.content|) else [];
  }

  lemma TerminatorHoldsNothing(format: Format, data: seq<Byte>, room: nat, d: seq<Byte>)
    requires IsTerminator(data) && format.Decodes(data, room, d)
    ensures d == []
  {
    var s :| format.Reads(s, data, room, d);
    format.StreamOpens(data, room, s);
    match s
    case Terminator(_) =>
    case LastFrame(_) => assert false;
    case MoreFrames(_, _) => assert false;
  }

  lemma {:induction false} FrameHolds(format: Format, data: seq<Byte>, room: nat, f: Frame, rest: seq<Byte>,
                                      c: seq<Byte>, d: seq<Byte>)
    requires format.StartsFrame(data, room, f, rest)
    requires format.Decodes(data, room, c) && format.Decodes(data, room, d)
    ensures c == d
    decreases |data|, 0
  {
    var a := ContentAfter(format, data, room, f, rest, c);
    var b := ContentAfter(format, data, room, f, rest, d);
    if rest != [] {
      ContentIsUnique(format, rest, room - |f.content|, a, b);
    }
  }

  lemma ContentAfter(format: Format, data: seq<Byte>, room: nat, f: Frame, rest: seq<Byte>, c: seq<Byte>)
    returns (after: seq<Byte>)
    requires format.StartsFrame(data, room, f, rest) && format.Decodes(data, room, c)
    ensures |rest| < |data| && |f.content| <= room && c == f.content + after
    ensures if rest == [] then after == [] else format.Decodes(rest, room - |f.content|, after)
  {
    format.FrameThenRest(data, room, f, rest, c);
    after := AfterLink(format, data, room, f.content, rest, c);
    RestIsShorter(format, data, room, f, rest);
  }

  lemma AfterLink(format: Format, data: seq<Byte>, room: nat, content: seq<Byte>, rest: seq<Byte>, c: seq<Byte>)
    returns (after: seq<Byte>)
    requires format.Links(data, room, content, rest, c) && format.Decodes(data, room, c)
    ensures |content| <= room && c == content + after && format.RestDecodes(rest, room - |content|, after)
  {
    after := c[|content|..];
  }

  lemma RestIsShorter(format: Format, data: seq<Byte>, room: nat, f: Frame, rest: seq<Byte>)
    requires format.StartsFrame(data, room, f, rest)
    ensures |rest| < |data|
  {
  }

  // ----- what the method does -----

  /** Blocks of either kind, written one after another, are decompressed to their contents. */
  method DecompressPieces(ghost l: seq<Piece>, e: Ending, data: seq<Byte>) returns (r: Option<seq<Byte>>)
    requires (forall p <- l :: IsPiece(p)) && IsEnding(e) && (l != [] || e.Closed?)
    requires |Contents(l)| <= 4_194_304 && |data| <= 1_048_576 && data == StreamBytes(l, e)
    ensures r == Some(Contents(l))
  {
    r := DecompressLz4(data);
    RestIsDecoded(l, e, MAX_NBT);
    StreamIsNotEmpty(l, e);
    if r.Some? {
      ContentIsUnique(LZ4_FORMAT, data, MAX_NBT, r.value, Contents(l));
    }
  }

  lemma StreamIsNotEmpty(l: seq<Piece>, e: Ending)
    requires (forall p <- l :: IsPiece(p)) && (l != [] || e.Closed?)
    ensures StreamBytes(l, e) != []
  {
  }

  function WordAt(data: seq<Byte>, i: nat): nat
    requires i + 4 <= |data|
  {
    var (a: nat, b: nat, c: nat, d: nat) := (data[i], data[i + 1], data[i + 2], data[i + 3]);
    a + 256 * (b + 256 * (c + 256 * d))
  }

  /** What a first block is refused for, whatever its payload and checksum. */
  predicate IsWrong(data: seq<Byte>) {
    || |data| < 21
    || data[..8] != [76, 90, 52, 66, 108, 111, 99, 107]  // "LZ4Block"
    || data[8] < 0x10 || data[8] >= 0x30
    || WordAt(data, 9) > |data| - 21
    || WordAt(data, 13) > 4_194_304 || WordAt(data, 13) > 1024 * Pow2(data[8] % 16)
    || (WordAt(data, 9) == 0) != (WordAt(data, 13) == 0)
    || (data[8] < 0x20 && WordAt(data, 9) != WordAt(data, 13))
  }

  method RefuseWrong(data: seq<Byte>) returns (r: Option<seq<Byte>>)
    requires |data| <= 1_048_576 && IsWrong(data)
    ensures r == None
  {
    r := DecompressLz4(data);
    if |data| >= HEADER {
      WrongIsBad(data);
    }
    LZ4_FORMAT.BadHeaderRefuses(data, MAX_NBT);
    if r.Some? {
      LZ4_FORMAT.NothingOpens(data, MAX_NBT, r.value);
    }
  }

  lemma WrongIsBad(data: seq<Byte>)
    requires |data| >= HEADER && IsWrong(data)
    ensures LZ4_FORMAT.BadHeader(data, MAX_NBT) && !IsTerminator(data)
  {
    PowerOfLevel(data[8] % 16);
    assert WordAt(data, 9) == Le32(data, 9) && WordAt(data, 13) == Le32(data, 13);
    ClosesIsTerminator(data);
  }
}
