/**
 The Java LZ4Block stream (`decompress`, compression type 4): checksummed frames
 in a row, optionally closed by an empty one.
 */
module Lz4Stream {
  import opened Bytes
  import opened Bits
  import opened Wrappers
  import Lz4
  import XxHash

  const MAGIC: seq<Byte> := [76, 90, 52, 66, 108, 111, 99, 107]  // "LZ4Block"
  const HEADER: nat := 21

  /** `token` holds the storage kind in its high nibble and the block size level in its low one. */
  datatype Frame = Frame(token: Byte, payload: seq<Byte>, content: seq<Byte>)

  function Kind(token: Byte): nat {
    token / 16
  }

  /** A frame is usable when `room` bytes are still allowed. */
  ghost predicate ValidFrame(f: Frame, room: nat) {
    && 0 < |f.payload| < TWO32
    && 0 < |f.content| <= room
    && |f.content| <= Pow2(10 + f.token % 16)
    && ((Kind(f.token) == 1 && f.payload == f.content)
        || (Kind(f.token) == 2 && Lz4.Encodes(f.payload, f.content)))
  }

  function Header(token: Byte, packed: Word32, length: Word32, check: Word32): (h: seq<Byte>)
    ensures |h| == HEADER
  {
    MAGIC + [token] + Le32Bytes(packed) + Le32Bytes(length) + Le32Bytes(check)
  }

  datatype Stream = Terminator(token: Byte) | LastFrame(last: Frame) | MoreFrames(head: Frame, rest: Stream)

  ghost predicate Valid(s: Stream, room: nat) {
    match s
    case Terminator(token) => Kind(token) == 1 || Kind(token) == 2
    case LastFrame(f) => ValidFrame(f, room) && room < TWO32
    case MoreFrames(f, rest) => ValidFrame(f, room) && room < TWO32 && Valid(rest, room - |f.content|)
  }

  function Content(s: Stream): seq<Byte> {
    match s
    case Terminator(_) => []
    case LastFrame(f) => f.content
    case MoreFrames(f, rest) => f.content + Content(rest)
  }

  // ----- headers -----

  lemma HeaderFields(data: seq<Byte>, token: Byte, packed: Word32, length: Word32, check: Word32)
    requires |data| >= HEADER
    ensures data[..HEADER] == Header(token, packed, length, check) <==>
            data[..8] == MAGIC && data[8] == token
            && Le32(data, 9) == packed && Le32(data, 13) == length && Le32(data, 17) == check
  {
    Le32RoundTrip(data, 9, packed);
    Le32RoundTrip(data, 13, length);
    Le32RoundTrip(data, 17, check);
    var h := Header(token, packed, length, check);
    assert h[..8] == MAGIC && h[8] == token;
    assert h[9..13] == Le32Bytes(packed) && h[13..17] == Le32Bytes(length) && h[17..21] == Le32Bytes(check);
    var d := data[..HEADER];
    assert d[..8] == data[..8] && d[9..13] == data[9..13] && d[13..17] == data[13..17] && d[17..21] == data[17..21];
    assert d == d[..8] + [d[8]] + d[9..13] + d[13..17] + d[17..21];
  }

  predicate IsTerminator(data: seq<Byte>) {
    |data| == HEADER && (Kind(data[8]) == 1 || Kind(data[8]) == 2) && data[..HEADER] == Header(data[8], 0, 0, 0)
  }

  /** The test at line 229. */
  predicate Closes(d: seq<Byte>) {
    && |d| == HEADER && d[..8] == MAGIC && (Kind(d[8]) == 1 || Kind(d[8]) == 2)
    && Le32(d, 9) == 0 && Le32(d, 13) == 0 && Le32(d, 17) == 0
  }

  lemma ClosesIsTerminator(d: seq<Byte>)
    ensures Closes(d) <==> IsTerminator(d)
  {
    if |d| == HEADER {
      HeaderFields(d, d[8], 0, 0, 0);
    }
  }

  /** The format, over any checksum function; the loop below uses XXH32. */
  datatype Format = Format(sum: seq<Byte> -> Word32) {
    ghost predicate UsesXxh32() {
      forall c {:trigger XxHash.Digest(c)} :: sum(c) == XxHash.Digest(c)
    }

    function EncodeFrame(f: Frame): seq<Byte>
      requires |f.payload| < TWO32 && |f.content| < TWO32
    {
      Header(f.token, |f.payload|, |f.content|, sum(f.content)) + f.payload
    }

    ghost function EncodeStream(s: Stream, room: nat): (e: seq<Byte>)
      requires Valid(s, room)
      ensures |e| >= HEADER
    {
      match s
      case Terminator(token) => Header(token, 0, 0, 0)
      case LastFrame(f) => EncodeFrame(f)
      case MoreFrames(f, rest) => EncodeFrame(f) + EncodeStream(rest, room - |f.content|)
    }

    /** `s` is a valid stream, encoded as `data`, holding `content`. */
    ghost predicate Reads(s: Stream, data: seq<Byte>, room: nat, content: seq<Byte>) {
      Valid(s, room) && EncodeStream(s, room) == data && Content(s) == content
    }

    /** `data` is a stream whose frames, in order, hold `content`, at most `room` bytes. */
    ghost predicate Decodes(data: seq<Byte>, room: nat, content: seq<Byte>) {
      exists s :: Reads(s, data, room, content)
    }

    /** The fields of a frame at the start of `data`, and what follows it. */
    predicate HasFields(data: seq<Byte>, f: Frame, rest: seq<Byte>) {
      && |data| >= HEADER + |f.payload|
      && data[..8] == MAGIC && data[8] == f.token
      && Le32(data, 9) == |f.payload| && Le32(data, 13) == |f.content| && Le32(data, 17) == sum(f.content)
      && data[HEADER..HEADER + |f.payload|] == f.payload && data[HEADER + |f.payload|..] == rest
    }

    lemma FrameFields(data: seq<Byte>, f: Frame, rest: seq<Byte>)
      requires |f.payload| < TWO32 && |f.content| < TWO32
      ensures data == EncodeFrame(f) + rest <==> HasFields(data, f, rest)
    {
      var h := Header(f.token, |f.payload|, |f.content|, sum(f.content));
      var e := h + f.payload + rest;
      var n := HEADER + |f.payload|;
      assert e[..HEADER] == h && e[HEADER..n] == f.payload && e[n..] == rest;
      if |data| >= n {
        HeaderFields(data, f.token, |f.payload|, |f.content|, sum(f.content));
        assert data == data[..HEADER] + data[HEADER..n] + data[n..];
      }
    }

    ghost predicate StartsFrame(data: seq<Byte>, room: nat, f: Frame, rest: seq<Byte>) {
      room < TWO32 && ValidFrame(f, room) && HasFields(data, f, rest)
    }

    /** The header fixes the frame: same token, same payload, hence the same content. */
    lemma FrameIsUnique(data: seq<Byte>, room: nat, f: Frame, rest: seq<Byte>, g: Frame, rest': seq<Byte>)
      requires StartsFrame(data, room, f, rest) && StartsFrame(data, room, g, rest')
      ensures f == g && rest == rest' && !IsTerminator(data)
    {
      HeaderFields(data, data[8], 0, 0, 0);
      if Kind(f.token) == 2 {
        Lz4.EncodesIsFunctional(f.payload, f.content, g.content);
      }
    }

    lemma TerminatorEnds(data: seq<Byte>, room: nat)
      requires IsTerminator(data)
      ensures Decodes(data, room, [])
    {
      assert data[..HEADER] == data;
      assert Reads(Terminator(data[8]), data, room, []);
    }

    /** Every stream opens with a terminator or with a valid frame. */
    lemma StreamOpens(data: seq<Byte>, room: nat, s: Stream)
      requires Valid(s, room) && EncodeStream(s, room) == data
      ensures match s
              case Terminator(_) => IsTerminator(data)
              case LastFrame(f) => StartsFrame(data, room, f, [])
              case MoreFrames(f, rest) => StartsFrame(data, room, f, EncodeStream(rest, room - |f.content|))
    {
      match s
      case Terminator(token) =>
        assert data[..HEADER] == data;
        HeaderFields(data, token, 0, 0, 0);
      case LastFrame(f) =>
        assert data == EncodeFrame(f) + [];
        FrameFields(data, f, []);
      case MoreFrames(f, rest) =>
        FrameFields(data, f, EncodeStream(rest, room - |f.content|));
    }

    /** The content after the first frame comes from the bytes after it. */
    ghost predicate RestDecodes(rest: seq<Byte>, room: nat, c: seq<Byte>) {
      if rest == [] then c == [] else Decodes(rest, room, c)
    }

    lemma FrameThenRestSound(data: seq<Byte>, room: nat, f: Frame, rest: seq<Byte>, s: Stream)
      returns (c: seq<Byte>)
      requires StartsFrame(data, room, f, rest) && Valid(s, room) && EncodeStream(s, room) == data
      ensures Content(s) == f.content + c && RestDecodes(rest, room - |f.content|, c)
    {
      StreamOpens(data, room, s);
      match s
      case Terminator(_) =>
        FrameIsUnique(data, room, f, rest, f, rest);
        c := [];
      case LastFrame(g) =>
        FrameIsUnique(data, room, f, rest, g, []);
        c := [];
      case MoreFrames(g, more) =>
        var tail := EncodeStream(more, room - |g.content|);
        FrameIsUnique(data, room, f, rest, g, tail);
        c := Content(more);
        assert Reads(more, tail, room - |g.content|, c);
    }

    lemma FrameThenRestComplete(data: seq<Byte>, room: nat, f: Frame, rest: seq<Byte>, c: seq<Byte>)
      requires StartsFrame(data, room, f, rest) && RestDecodes(rest, room - |f.content|, c)
      ensures Decodes(data, room, f.content + c)
    {
      FrameFields(data, f, rest);
      if rest == [] {
        assert EncodeFrame(f) + rest == EncodeFrame(f) && f.content + c == f.content;
        LastReads(data, room, f);
      } else {
        var room' := room - |f.content|;
        var more :| Reads(more, rest, room', c);
        MoreReads(data, room, f, rest, more, c);
      }
    }

    lemma LastReads(data: seq<Byte>, room: nat, f: Frame)
      requires room < TWO32 && ValidFrame(f, room) && data == EncodeFrame(f)
      ensures Reads(LastFrame(f), data, room, f.content)
    {
    }

    lemma MoreReads(data: seq<Byte>, room: nat, f: Frame, rest: seq<Byte>, more: Stream, c: seq<Byte>)
      requires room < TWO32 && ValidFrame(f, room) && data == EncodeFrame(f) + rest
      requires Reads(more, rest, room - |f.content|, c)
      ensures Reads(MoreFrames(f, more), data, room, f.content + c)
    {
    }

    /** Whatever `d` decodes to begins with `content` and goes on with what `rest` decodes to. */
    ghost predicate Links(d: seq<Byte>, room: nat, content: seq<Byte>, rest: seq<Byte>, c: seq<Byte>) {
      && |content| <= room
      && (Decodes(d, room, c) <==> content <= c && RestDecodes(rest, room - |content|, c[|content|..]))
    }

    ghost predicate LinksAll(d: seq<Byte>, room: nat, content: seq<Byte>, rest: seq<Byte>) {
      forall c :: Links(d, room, content, rest, c)
    }

    lemma FrameThenRest(data: seq<Byte>, room: nat, f: Frame, rest: seq<Byte>, c: seq<Byte>)
      requires StartsFrame(data, room, f, rest)
      ensures Links(data, room, f.content, rest, c)
    {
      if Decodes(data, room, c) {
        var s :| Reads(s, data, room, c);
        var c' := FrameThenRestSound(data, room, f, rest, s);
        assert c == f.content + c';
        assert c[|f.content|..] == c';
      } else if f.content <= c {
        assert f.content + c[|f.content|..] == c;
        if RestDecodes(rest, room - |f.content|, c[|f.content|..]) {
          FrameThenRestComplete(data, room, f, rest, c[|f.content|..]);
        }
      }
    }

    /** After a frame, the content goes on with what the rest decodes to; nothing is left over. */
    lemma FrameLinks(data: seq<Byte>, room: nat, f: Frame, rest: seq<Byte>)
      requires StartsFrame(data, room, f, rest)
      ensures LinksAll(data, room, f.content, rest)
    {
      forall c
        ensures Links(data, room, f.content, rest, c)
      {
        FrameThenRest(data, room, f, rest, c);
      }
    }

    // ----- what the loop knows -----

    ghost predicate Agrees(data: seq<Byte>, out: seq<Byte>, d: seq<Byte>, c: seq<Byte>)
      requires |out| <= MAX_NBT
    {
      Decodes(data, MAX_NBT, c) <==> out <= c && Decodes(d, MAX_NBT - |out|, c[|out|..])
    }

    /** `out` is decoded and `d` is left: the contents of `data` are `out` followed by the contents of `d`. */
    ghost predicate Resumes(data: seq<Byte>, out: seq<Byte>, d: seq<Byte>) {
      && |out| <= MAX_NBT
      && forall c :: Agrees(data, out, d, c)
    }

    ghost predicate NoFrame(d: seq<Byte>, room: nat) {
      forall f, rest :: !StartsFrame(d, room, f, rest)
    }

    lemma NothingOpensStream(d: seq<Byte>, room: nat, s: Stream)
      requires !IsTerminator(d) && NoFrame(d, room) && Valid(s, room)
      ensures EncodeStream(s, room) != d
    {
      if EncodeStream(s, room) == d {
        StreamOpens(d, room, s);
      }
    }

    lemma NothingOpens(d: seq<Byte>, room: nat, c: seq<Byte>)
      requires !IsTerminator(d) && NoFrame(d, room)
      ensures !Decodes(d, room, c)
    {
      forall s | Valid(s, room)
        ensures !Reads(s, d, room, c)
      {
        NothingOpensStream(d, room, s);
      }
    }

    lemma StartsWhole(data: seq<Byte>)
      ensures Resumes(data, [], data[0..])
    {
      assert data[0..] == data;
      forall c
        ensures Agrees(data, [], data[0..], c)
      {
        assert c[0..] == c;
      }
    }

    /** Nothing that is neither a terminator nor a frame continues a stream. */
    lemma Refuse(data: seq<Byte>, out: seq<Byte>, d: seq<Byte>)
      requires Resumes(data, out, d)
      requires !IsTerminator(d) && NoFrame(d, MAX_NBT - |out|)
      ensures forall c :: !Decodes(data, MAX_NBT, c)
    {
      forall c
        ensures !Decodes(data, MAX_NBT, c)
      {
        assert Agrees(data, out, d, c);
        if out <= c {
          NothingOpens(d, MAX_NBT - |out|, c[|out|..]);
        }
      }
    }

    lemma FinishWith(data: seq<Byte>, out: seq<Byte>, d: seq<Byte>, last: seq<Byte>)
      requires Resumes(data, out, d) && Decodes(d, MAX_NBT - |out|, last)
      ensures Decodes(data, MAX_NBT, out + last)
    {
      assert (out + last)[|out|..] == last;
      assert Agrees(data, out, d, out + last);
    }

    lemma PrefixOfRest(out: seq<Byte>, a: seq<Byte>, c: seq<Byte>)
      requires out <= c
      ensures a <= c[|out|..] <==> out + a <= c
      ensures a <= c[|out|..] ==> c[|out|..][|a|..] == c[|out + a|..]
    {
      var tail := c[|out|..];
      assert c == out + tail;
      if a <= tail {
        assert tail == a + tail[|a|..];
        assert c == (out + a) + tail[|a|..];
      }
      if out + a <= c {
        assert forall i :: 0 <= i < |a| ==> a[i] == (out + a)[|out| + i] == c[|out| + i] == tail[i];
      }
    }

    lemma AdvanceOne(data: seq<Byte>, out: seq<Byte>, d: seq<Byte>, content: seq<Byte>, rest: seq<Byte>, c: seq<Byte>)
      requires |out + content| <= MAX_NBT && Agrees(data, out, d, c) && rest != []
      requires out <= c ==> Links(d, MAX_NBT - |out|, content, rest, c[|out|..])
      ensures Agrees(data, out + content, rest, c)
    {
      if out <= c {
        PrefixOfRest(out, content, c);
      } else {
        assert out <= out + content;
        assert !(out + content <= c);
      }
    }

    lemma Advance(data: seq<Byte>, out: seq<Byte>, d: seq<Byte>, content: seq<Byte>, rest: seq<Byte>)
      requires Resumes(data, out, d) && |out + content| <= MAX_NBT
      requires LinksAll(d, MAX_NBT - |out|, content, rest)
      ensures if rest == [] then Decodes(data, MAX_NBT, out + content) else Resumes(data, out + content, rest)
    {
      if rest == [] {
        assert Links(d, MAX_NBT - |out|, content, rest, content);
        FinishWith(data, out, d, content);
      } else {
        forall c
          ensures Agrees(data, out + content, rest, c)
        {
          assert Agrees(data, out, d, c);
          if out <= c {
            assert Links(d, MAX_NBT - |out|, content, rest, c[|out|..]);
          }
          AdvanceOne(data, out, d, content, rest, c);
        }
      }
    }

    /** The frame whose header opens `d`, holding `content`, and what follows it. */
    ghost predicate FrameHere(d: seq<Byte>, room: nat, content: seq<Byte>) {
      && |d| >= HEADER && HEADER + Le32(d, 9) <= |d|
      && StartsFrame(d, room, Frame(d[8], d[HEADER..HEADER + Le32(d, 9)], content), d[HEADER + Le32(d, 9)..])
    }

    lemma FrameHereLinks(d: seq<Byte>, room: nat, content: seq<Byte>)
      requires FrameHere(d, room, content)
      ensures |content| <= room && LinksAll(d, room, content, d[HEADER + Le32(d, 9)..])
    {
      FrameLinks(d, room, Frame(d[8], d[HEADER..HEADER + Le32(d, 9)], content), d[HEADER + Le32(d, 9)..]);
    }

    /** The header alone rules a frame out. */
    predicate BadHeader(d: seq<Byte>, room: nat)
      requires |d| >= HEADER
    {
      var packed, length := Le32(d, 9), Le32(d, 13);
      || d[..8] != MAGIC || length == 0 || packed == 0 || packed > |d| - HEADER || length > room
      || length > Pow2(10 + d[8] % 16)
      || !((Kind(d[8]) == 1 && packed == length) || Kind(d[8]) == 2)
    }

    lemma FrameHasGoodHeader(d: seq<Byte>, room: nat, f: Frame, rest: seq<Byte>)
      requires StartsFrame(d, room, f, rest)
      ensures |d| >= HEADER && !BadHeader(d, room)
    {
    }

    lemma BadHeaderRefuses(d: seq<Byte>, room: nat)
      requires |d| >= HEADER ==> BadHeader(d, room)
      ensures NoFrame(d, room)
    {
      forall f, rest
        ensures !StartsFrame(d, room, f, rest)
      {
        if StartsFrame(d, room, f, rest) {
          FrameHasGoodHeader(d, room, f, rest);
        }
      }
    }

    /** With a good header, the frame is there exactly when the payload yields content of that length and checksum. */
    lemma PayloadDecides(d: seq<Byte>, room: nat, content: seq<Byte>)
      requires |d| >= HEADER && !BadHeader(d, room) && room < TWO32
      requires var payload := d[HEADER..HEADER + Le32(d, 9)];
               if Kind(d[8]) == 1 then content == payload else Lz4.Encodes(payload, content)
      requires |content| == Le32(d, 13)
      ensures if sum(content) == Le32(d, 17) then FrameHere(d, room, content) else NoFrame(d, room)
    {
      forall f, rest | StartsFrame(d, room, f, rest)
        ensures sum(content) == Le32(d, 17)
      {
        FrameHasContent(d, room, content, f, rest);
      }
    }

    lemma FrameHasContent(d: seq<Byte>, room: nat, content: seq<Byte>, f: Frame, rest: seq<Byte>)
      requires StartsFrame(d, room, f, rest)
      requires |d| >= HEADER && HEADER + Le32(d, 9) <= |d|
      requires var payload := d[HEADER..HEADER + Le32(d, 9)];
               if Kind(d[8]) == 1 then content == payload else Lz4.Encodes(payload, content)
      ensures sum(content) == Le32(d, 17)
    {
      if Kind(d[8]) != 1 {
        Lz4.EncodesIsFunctional(f.payload, content, f.content);
      }
    }

    lemma PackedFrameEncodes(d: seq<Byte>, room: nat, f: Frame, rest: seq<Byte>)
      requires StartsFrame(d, room, f, rest) && Kind(d[8]) == 2
      ensures |f.content| == Le32(d, 13) && HEADER + Le32(d, 9) <= |d|
      ensures Lz4.Encodes(d[HEADER..HEADER + Le32(d, 9)], f.content)
    {
    }

    lemma UndecodableRefuses(d: seq<Byte>, room: nat)
      requires |d| >= HEADER && !BadHeader(d, room) && Kind(d[8]) == 2
      requires forall c :: |c| == Le32(d, 13) ==> !Lz4.Encodes(d[HEADER..HEADER + Le32(d, 9)], c)
      ensures NoFrame(d, room)
    {
      forall f, rest
        ensures !StartsFrame(d, room, f, rest)
      {
        if StartsFrame(d, room, f, rest) {
          PackedFrameEncodes(d, room, f, rest);
        }
      }
    }
  }

  // ----- the C loop -----

  /** Lines 228-229: the magic and the header words. */
  method ReadHeader(data: seq<Byte>, h: nat)
    returns (magic: bool, token: Byte, packed: Word32, length: Word32, check: Word32)
    requires h + HEADER <= |data|
    ensures var d := data[h..];
            && (magic <==> d[..8] == MAGIC) && token == d[8]
            && packed == Le32(d, 9) && length == Le32(d, 13) && check == Le32(d, 17)
  {
    ghost var d := data[h..];
    assert d[..8] == data[h..h + 8];
    magic, token := data[h..h + 8] == MAGIC, data[h + 8];
    packed, length, check := Le32(data, h + 9), Le32(data, h + 13), Le32(data, h + 17);
  }

  /** A block was read and the rest of the stream follows it, or no frame is there. */
  ghost predicate FrameOutcome(format: Format, data: seq<Byte>, h: nat, room: nat, packed: nat,
                               block: Option<seq<Byte>>)
    requires h + HEADER <= |data|
  {
    match block
    case Some(content) =>
      && h + HEADER + packed <= |data| && |content| <= room
      && format.LinksAll(data[h..], room, content, data[h + HEADER + packed..])
    case None => format.NoFrame(data[h..], room)
  }

  /** Lines 231-236: one frame, checked against its header. */
  method ReadFrame(data: seq<Byte>, h: nat, room: nat, token: Byte, packed: Word32, length: Word32, check: Word32,
                   ghost format: Format)
    returns (block: Option<seq<Byte>>)
    requires format.UsesXxh32() && |data| <= MAX_COMPRESSED && room <= MAX_NBT && h + HEADER <= |data|
    requires var d := data[h..];
             && d[..8] == MAGIC && token == d[8]
             && packed == Le32(d, 9) && length == Le32(d, 13) && check == Le32(d, 17)
    ensures FrameOutcome(format, data, h, room, packed, block)
  {
    ghost var d := data[h..];
    var start := h + HEADER;
    if length == 0 || packed == 0 || packed > |data| - start || length > room || length > Pow2(10 + token % 16) {
      format.BadHeaderRefuses(d, room);
      return None;
    }
    var payload := data[start..start + packed];
    assert d[HEADER..HEADER + packed] == payload && d[HEADER + packed..] == data[start + packed..];
    block := Unpack(payload, token, length);
    if block.None? {
      if Kind(token) == 2 {
        format.UndecodableRefuses(d, room);
      } else {
        format.BadHeaderRefuses(d, room);
      }
      return None;
    }
    format.PayloadDecides(d, room, block.value);
    var actual := XxHash.Checksum(block.value);
    if actual != check {
      return None;
    }
    format.FrameHereLinks(d, room, block.value);
  }

  /** Lines 234-235: stored or LZ4-packed content of the declared length. */
  method Unpack(payload: seq<Byte>, token: Byte, length: nat) returns (content: Option<seq<Byte>>)
    requires |payload| <= MAX_COMPRESSED && 0 < length <= MAX_NBT
    ensures match content
            case Some(c) => |c| == length &&
              (if Kind(token) == 1 then c == payload else Kind(token) == 2 && Lz4.Encodes(payload, c))
            case None =>
              if Kind(token) == 2 then forall c :: |c| == length ==> !Lz4.Encodes(payload, c)
              else !(Kind(token) == 1 && |payload| == length)
  {
    if Kind(token) == 1 && |payload| == length {
      return Some(payload);
    }
    if Kind(token) != 2 {
      return None;
    }
    var dest := new Byte[length];
    var ok := Lz4.DecodeBlock(payload, dest);
    return if ok then Some(dest[..]) else None;
  }

  datatype Verdict = Rejected | Accepted | Continue

  /** What a turn of the loop at offset `h` has found out about the whole stream. */
  ghost predicate Settled(format: Format, data: seq<Byte>, h: nat, verdict: Verdict, next: nat, out: seq<Byte>) {
    match verdict
    case Rejected => forall c :: !format.Decodes(data, MAX_NBT, c)
    case Accepted => |out| <= MAX_NBT && format.Decodes(data, MAX_NBT, out)
    case Continue => h < next <= |data| && format.Resumes(data, out, data[next..])
  }

  /** One turn of the loop at lines 226-239, from a full header at `h`. */
  method Turn(data: seq<Byte>, h: nat, out: seq<Byte>, ghost format: Format)
    returns (verdict: Verdict, next: nat, out': seq<Byte>)
    requires format.UsesXxh32() && |data| <= MAX_COMPRESSED && h + HEADER <= |data|
    requires format.Resumes(data, out, data[h..])
    ensures Settled(format, data, h, verdict, next, out')
  {
    ghost var d := data[h..];
    var magic, token, packed, length, check := ReadHeader(data, h);
    next, out' := h + HEADER, out;
    if !magic {
      NoMagic(data, out, d, format);
      return Rejected, next, out';
    }
    if length == 0 && packed == 0 && check == 0 && next == |data| && (Kind(token) == 1 || Kind(token) == 2) {
      assert format.Agrees(data, out, d, out);
      EndHere(data, out, d, format);
      return Accepted, next, out';
    }
    verdict, next, out' := FrameTurn(data, h, out, token, packed, length, check, format);
  }

  method FrameTurn(data: seq<Byte>, h: nat, out: seq<Byte>, token: Byte, packed: Word32, length: Word32, check: Word32,
                   ghost format: Format)
    returns (verdict: Verdict, next: nat, out': seq<Byte>)
    requires format.UsesXxh32() && |data| <= MAX_COMPRESSED && h + HEADER <= |data|
    requires format.Resumes(data, out, data[h..])
    requires var d := data[h..];
             && !Closes(d) && d[..8] == MAGIC && token == d[8]
             && packed == Le32(d, 9) && length == Le32(d, 13) && check == Le32(d, 17)
    ensures Settled(format, data, h, verdict, next, out')
  {
    var block := ReadFrame(data, h, MAX_NBT - |out|, token, packed, length, check, format);
    verdict, next, out' := Rejected, h + HEADER, out;
    if block.Some? {
      next, out' := next + packed, out + block.value;
      verdict := if next == |data| then Accepted else Continue;
    }
    Settle(data, h, out, packed, block, format, verdict, next, out');
  }

  lemma NoMagic(data: seq<Byte>, out: seq<Byte>, d: seq<Byte>, format: Format)
    requires format.Resumes(data, out, d) && (|d| >= HEADER ==> d[..8] != MAGIC)
    ensures forall c :: !format.Decodes(data, MAX_NBT, c)
  {
    format.BadHeaderRefuses(d, MAX_NBT - |out|);
    format.Refuse(data, out, d);
  }

  lemma EndAtTerminator(data: seq<Byte>, out: seq<Byte>, d: seq<Byte>, format: Format)
    requires |out| <= MAX_NBT && format.Agrees(data, out, d, out) && IsTerminator(d)
    ensures format.Decodes(data, MAX_NBT, out)
  {
    assert out[|out|..] == [];
    format.TerminatorEnds(d, MAX_NBT - |out|);
  }

  lemma EndHere(data: seq<Byte>, out: seq<Byte>, d: seq<Byte>, format: Format)
    requires |out| <= MAX_NBT && format.Agrees(data, out, d, out) && Closes(d)
    ensures format.Decodes(data, MAX_NBT, out)
  {
    ClosesIsTerminator(d);
    EndAtTerminator(data, out, d, format);
  }

  /** What a frame, or its absence, at `h` settles about the whole stream. */
  lemma Settle(data: seq<Byte>, h: nat, out: seq<Byte>, packed: nat, block: Option<seq<Byte>>, format: Format,
               verdict: Verdict, next: nat, out': seq<Byte>)
    requires h + HEADER <= |data| && format.Resumes(data, out, data[h..])
    requires !Closes(data[h..]) && FrameOutcome(format, data, h, MAX_NBT - |out|, packed, block)
    requires match block
             case None => verdict == Rejected
             case Some(content) =>
               && next == h + HEADER + packed && out' == out + content
               && verdict == if next == |data| then Accepted else Continue
    ensures Settled(format, data, h, verdict, next, out')
  {
    match block
    case Some(content) => format.Advance(data, out, data[h..], content, data[next..]);
    case None =>
      ClosesIsTerminator(data[h..]);
      format.Refuse(data, out, data[h..]);
  }

  /** The format of the source, whose checksum is the masked XXH32 of the content. */
  const LZ4_FORMAT := Format(content => XxHash.Digest(content))

  /** `decompress`, type 4: the whole input, or nothing. */
  method DecompressLz4(data: seq<Byte>) returns (r: Option<seq<Byte>>)
    requires |data| <= MAX_COMPRESSED
    ensures r.Some? ==> |r.value| <= MAX_NBT && LZ4_FORMAT.Decodes(data, MAX_NBT, r.value)
    ensures r.None? ==> forall c :: !LZ4_FORMAT.Decodes(data, MAX_NBT, c)
  {
    r := DecompressAs(data, LZ4_FORMAT);
  }

  method DecompressAs(data: seq<Byte>, ghost format: Format) returns (r: Option<seq<Byte>>)
    requires format.UsesXxh32() && |data| <= MAX_COMPRESSED
    ensures r.Some? ==> |r.value| <= MAX_NBT && format.Decodes(data, MAX_NBT, r.value)
    ensures r.None? ==> forall c :: !format.Decodes(data, MAX_NBT, c)
  {
    var out: seq<Byte> := [];
    var offset := 0;
    format.StartsWhole(data);
    while |data| - offset >= HEADER
      invariant 0 <= offset <= |data|
      invariant format.Resumes(data, out, data[offset..])
    {
      var verdict, next, out' := Turn(data, offset, out, format);
      if verdict.Rejected? {
        return None;
      }
      offset, out := next, out';
      if verdict.Accepted? {
        return Some(out);
      }
    }
    NoMagic(data, out, data[offset..], format);
    return None;
  }
}
