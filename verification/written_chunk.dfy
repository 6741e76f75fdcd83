/**
 Chunks as they lie in a file, byte for byte, and what the decoder makes of them: the blocks of 16 by 16 columns,
 the highest block that is not air in each. The bytes are given here without the reader's or the writer's functions.
 */
module WrittenChunk {
  import opened Bytes
  import opened Bits
  import opened Wrappers
  import opened Nbt
  import opened NbtReader
  import opened Packed
  import opened Surface
  import opened Terrain
  import opened Cells

  // ----- the bytes -----

  predicate IsPlain(s: string) {
    |s| < 256 && forall i :: 0 <= i < |s| ==> s[i] < '\U{0080}'
  }

  lemma PlainNames()
    ensures IsPlain("Y") && IsPlain("Name") && IsPlain("data") && IsPlain("Level") && IsPlain("Status")
    ensures IsPlain("palette") && IsPlain("Palette") && IsPlain("sections") && IsPlain("Sections")
    ensures IsPlain("block_states") && IsPlain("BlockStates")
  {
  }

  lemma PlainTexts()
    ensures IsPlain("full") && IsPlain("minecraft:full")
  {
  }

  function Letters(s: string): (b: seq<Byte>)
    requires IsPlain(s)
    ensures |b| == |s|
  {
    seq(|s|, i requires 0 <= i < |s| => s[i] as int)
  }

  /** Four bytes, the highest first. */
  function CountBytes(n: nat): seq<Byte>
    requires n < 0x1_0000_0000
  {
    [n / 16777216, n / 65536 % 256, n / 256 % 256, n % 256]
  }

  function TextBytes(text: seq<Byte>): seq<Byte>
    requires |text| < 65536
  {
    [|text| / 256, |text| % 256] + text
  }

  /** A field: type, name, value, and the fields after it. */
  function NamedBytes(kind: Byte, name: string, value: seq<Byte>, more: seq<Byte>): seq<Byte>
    requires IsPlain(name)
  {
    [kind] + (([0, |name|] + Letters(name)) + (value + more))
  }

  function EntriesBytes(names: seq<seq<Byte>>): seq<Byte>
    requires forall name <- names :: |name| < 65536
  {
    PlainNames();
    if names == [] then [] else NamedBytes(8, "Name", TextBytes(names[0]), [0]) + EntriesBytes(names[1..])
  }

  /**
   A section: 16 layers of 16 by 16 cells from height 16 * y up, the palette index of each, from the lowest layer on.
   `wide` is whether Y is written as an int, `padded` which layout the indices have.
   */
  datatype Placed = Placed(y: int, wide: bool, names: seq<seq<Byte>>, cells: seq<nat>, padded: bool)

  function StateWidth(names: nat): (bits: nat)
    ensures 4 <= bits <= 12
  {
    if names <= 16 then 4 else if names <= 32 then 5 else if names <= 64 then 6 else if names <= 128 then 7
    else if names <= 256 then 8 else if names <= 512 then 9 else if names <= 1024 then 10
    else if names <= 2048 then 11 else 12
  }

  predicate IsPlaced(s: Placed) {
    && (if s.wide then -2048 <= s.y <= 2047 else -128 <= s.y <= 127)
    && 0 < |s.names| <= 4096 && (forall name <- s.names :: |name| < 65536)
    && |s.cells| == 4096 && (forall i :: 0 <= i < 4096 ==> s.cells[i] < |s.names|)
    && (s.padded || (StateWidth(|s.names|) != 4 && StateWidth(|s.names|) != 8))  // else they are one layout
  }

  function YBytes(s: Placed): seq<Byte>
    requires IsPlaced(s)
  {
    if s.wide then CountBytes(if s.y >= 0 then s.y else s.y + 0x1_0000_0000)
    else [if s.y >= 0 then s.y else s.y + 256]
  }

  function PaletteBytes(s: Placed): seq<Byte>
    requires IsPlaced(s)
  {
    [10] + (CountBytes(|s.names|) + EntriesBytes(s.names))
  }

  /** One palette entry needs no data. */
  function DataBytes(s: Placed, name: string): seq<Byte>
    requires IsPlaced(s) && IsPlain(name)
  {
    if |s.names| == 1 then [0] else
    var payload := Stored(s.cells, StateWidth(|s.names|), s.padded);
    NamedBytes(12, name, CountBytes(|payload| / 8) + payload, [0])
  }

  function SectionBytes(s: Placed, older: bool): seq<Byte>
    requires IsPlaced(s)
  {
    PlainNames();
    var y := if s.wide then 3 else 1;
    if older then
      NamedBytes(y, "Y", YBytes(s), NamedBytes(9, "Palette", PaletteBytes(s), DataBytes(s, "BlockStates")))
    else
      NamedBytes(y, "Y", YBytes(s),
        NamedBytes(10, "block_states", NamedBytes(9, "palette", PaletteBytes(s), DataBytes(s, "data")), [0]))
  }

  function SectionsBytes(l: seq<Placed>, older: bool): seq<Byte>
    requires forall s <- l :: IsPlaced(s)
  {
    if l == [] then [] else SectionBytes(l[0], older) + SectionsBytes(l[1..], older)
  }

  datatype Chunk = Chunk(older: bool, status: Option<string>, sections: seq<Placed>)

  function BodyBytes(c: Chunk): seq<Byte>
    requires IsChunk(c)
  {
    PlainNames();
    PlainTexts();
    var list := [10] + (CountBytes(|c.sections|) + SectionsBytes(c.sections, c.older));
    var sections := NamedBytes(9, if c.older then "Sections" else "sections", list, [0]);
    if c.status.None? then sections else NamedBytes(8, "Status", TextBytes(Letters(c.status.value)), sections)
  }

  /** The whole file: an unnamed compound, and in it, for an older chunk, a compound "Level". */
  function ChunkBytes(c: Chunk): seq<Byte>
    requires IsChunk(c)
  {
    PlainNames();
    [10, 0, 0] + if c.older then NamedBytes(10, "Level", BodyBytes(c), [0]) else BodyBytes(c)
  }

  /** Values in a section, which a budget of 200000 pays for. */
  function Values(s: Placed, older: bool): nat {
    2 * |s.names| + (if |s.names| == 1 then 3 else 4) + if older then 0 else 1
  }

  function AllValues(l: seq<Placed>, older: bool): nat {
    if l == [] then 0 else Values(l[0], older) + AllValues(l[1..], older)
  }

  /** A generated chunk of at most 64 sections, within the limits of size. */
  predicate IsChunk(c: Chunk) {
    && 0 < |c.sections| <= 64 && (forall s <- c.sections :: IsPlaced(s))
    && (c.status.None? || c.status == Some("full") || c.status == Some("minecraft:full"))
    && AllValues(c.sections, c.older) <= 199_990
  }

  // ----- the blocks -----

  /** The colour of the block at x, z and layer `ly` of a section. */
  function BlockIn(s: Placed, x: nat, ly: nat, z: nat, colour: Colours): nat
    requires IsPlaced(s) && x < 16 && ly < 16 && z < 16
  {
    colour(Tag(8, TextBytes(s.names[s.cells[256 * ly + 16 * z + x]])))
  }

  /** `color` is that of the block at x, z in some section at the height. */
  ghost predicate HasBlock(l: seq<Placed>, x: nat, z: nat, height: int, color: nat, colour: Colours)
    requires (forall s <- l :: IsPlaced(s)) && x < 16 && z < 16
  {
    exists k :: 0 <= k < |l| && 0 <= height - 16 * l[k].y < 16
                && color == BlockIn(l[k], x, height - 16 * l[k].y, z, colour)
  }

  /** A column shows the highest block that is not air. */
  ghost predicate ShowsTop(l: seq<Placed>, x: nat, z: nat, shown: Column, colour: Colours)
    requires (forall s <- l :: IsPlaced(s)) && x < 16 && z < 16
  {
    && (forall h, color :: h > shown.height && HasBlock(l, x, z, h, color, colour) ==> color == 0)
    && (shown.color != 0 ==> HasBlock(l, x, z, shown.height, shown.color, colour))
    && (shown.color == 0 ==> shown.height == -0x8000_0000)
  }
}
