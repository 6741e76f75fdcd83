/**
 From chunk NBT to the visible columns (`section_pixels`, `pumpkin_map_decode_terrain`).
 The decoder works on tags cut from the bytes; its meaning is given on the parsed tree.
 The block colour table is the parameter `colour`.
 */
module Terrain {
  import opened Bytes
  import opened Bits
  import opened Wrappers
  import opened Nbt
  import opened NbtReader
  import opened Packed
  import opened Surface

  type Colours = Tag -> nat

  function Ascii(s: string): seq<Byte> {
    seq(|s|, i requires 0 <= i < |s| => s[i] as int % 256)
  }

  datatype Failure =
    | InvalidRoot | TruncatedRoot | InvalidTree | NotGenerated | UnsupportedSections
    | InvalidSection | InvalidPalette | NoTerrain

  datatype Result<T> = Success(value: T) | Error(error: Failure)

  // ----- a section, on the tree -----

  /** Line 100: a signed byte. */
  function SignedByte(b: Byte): int {
    if b <= 127 then b else b - 256
  }

  /** Line 101: an int outside -2048 .. 2047 is refused. */
  function SectionInt(n: Word32): Option<int> {
    if n > 2047 && n < 0xffff_f800 then None else Some(if n <= 2047 then n else n - TWO32)
  }

  /** The section's Y, from the tag `field` finds. */
  function HeightOf(y: Option<Nbt>): (h: Option<int>)
    requires y.Some? ==> Proper(y.value)
    ensures h.Some? ==> -2048 <= h.value <= 2047
  {
    if y.Some? && y.value.Number? && y.value.kind == 1 then Some(SignedByte(y.value.payload[0]))
    else if y.Some? && y.value.Number? && y.value.kind == 3 then SectionInt(Be32(y.value.payload, 0))
    else None
  }

  /** Newer chunks keep palette and data inside "block_states", older ones in the section itself. */
  function Holder(v: Nbt): Nbt {
    var states := Child(v, Ascii("block_states"));
    if states.Some? && states.value.Compound? then states.value else v
  }

  predicate Newer(v: Nbt) {
    var states := Child(v, Ascii("block_states"));
    states.Some? && states.value.Compound?
  }

  function PaletteKey(v: Nbt): seq<Byte> {
    if Newer(v) then Ascii("palette") else Ascii("Palette")
  }

  function DataKey(v: Nbt): seq<Byte> {
    if Newer(v) then Ascii("data") else Ascii("BlockStates")
  }

  lemma ChildAccepted(v: Nbt, key: seq<Byte>)
    requires Accepted(v)
    ensures Child(v, key).Some? ==> Accepted(Child(v, key).value)
  {
    FieldIsChild(v, key);
  }

  lemma HolderAccepted(v: Nbt)
    requires Accepted(v)
    ensures Accepted(Holder(v))
  {
    ChildAccepted(v, Ascii("block_states"));
  }

  function PaletteOf(v: Nbt): Option<Items> {
    var palette := Child(Holder(v), PaletteKey(v));
    if palette.Some? && palette.value.List? && palette.value.item == 10 then Some(palette.value.elems) else None
  }

  function ColoursOf(l: Items, colour: Colours): (c: seq<nat>)
    requires AcceptedItems(10, l)
    ensures |c| == Count(l)
  {
    match l
    case NoItems => []
    case Item(head, tail) =>
      ChildAccepted(head, Ascii("Name"));
      [colour(TagOfOption(Child(head, Ascii("Name"))))] + ColoursOf(tail, colour)
  }

  /** The 64-bit big-endian words of a long array. */
  function WordsOf(payload: seq<Byte>): (w: seq<nat>)
    requires |payload| % 8 == 0
    ensures |w| == |payload| / 8
  {
    seq(|payload| / 8, i requires 0 <= i < |payload| / 8 => Be64(payload, 8 * i))
  }

  function Be64(s: seq<Byte>, i: nat): nat
    requires i + 8 <= |s|
  {
    Be32(s, i) * TWO32 + Be32(s, i + 4)
  }

  function DataOf(v: Nbt): (w: seq<nat>)
    requires Accepted(v)
  {
    HolderAccepted(v);
    ChildAccepted(Holder(v), DataKey(v));
    var data := Child(Holder(v), DataKey(v));
    if data.Some? && data.value.Array? && data.value.kind == 12 then WordsOf(data.value.payload) else []
  }

  /** Lines 117-118: which layout the word count says, if any. */
  function Layout(words: nat, bits: nat): Option<bool>
    requires 4 <= bits <= 12
  {
    if words == PaddedWords(bits) then Some(true)
    else if words == StraddlingWords(bits) then Some(false)
    else None
  }

  function States(words: seq<nat>, bits: nat, padded: bool): nat -> nat
    requires 4 <= bits <= 12 && Layout(|words|, bits) == Some(padded)
  {
    (i: nat) => if i < STATES then (WordInBounds(bits, padded, i); StateAt(words, bits, padded, i)) else 0
  }

  /** Lines 114-118: one palette entry needs no data; more need words of either layout. */
  function BuildSection(y: int, colors: seq<nat>, words: seq<nat>): (s: Option<Section>)
    requires -2048 <= y <= 2047 && 0 < |colors| <= 4096
    ensures s.Some? ==> ValidSection(s.value)
  {
    if |colors| == 1 then Some(Section(y, colors, i => 0)) else
    var bits := BitsFor(|colors|, 4);
    var layout := Layout(|words|, bits);
    if layout.None? then None else Some(Section(y, colors, States(words, bits, layout.value)))
  }

  /** The section a tree describes, or None where the palette or the data is malformed. */
  function SectionOf(v: Nbt, colour: Colours): (s: Option<Section>)
    requires Accepted(v)
    ensures s.Some? ==> ValidSection(s.value)
  {
    ChildAccepted(v, Ascii("Y"));
    HolderAccepted(v);
    ChildAccepted(Holder(v), PaletteKey(v));
    var y := HeightOf(Child(v, Ascii("Y")));
    var palette := PaletteOf(v);
    if y.None? || palette.None? || Count(palette.value) == 0 || Count(palette.value) > 4096 then None else
    BuildSection(y.value, ColoursOf(palette.value, colour), DataOf(v))
  }

  /** Uniform air shows nothing, whatever was seen (line 119). */
  lemma UniformAirIsSkipped(s: Section, column: nat, seen: Column)
    requires ValidSection(s) && column < COLUMNS && s.colors == [0] && forall i :: s.state(i) == 0
    ensures Scan(s, column, 15, seen) == Some(seen)
  {
    var found, h := ScanFinds(s, column, 15, seen);
  }

  // ----- the chunk, on the tree -----

  predicate IsText(o: Option<Nbt>, text: string) {
    o.Some? && o.value == Text(Ascii(text))
  }

  /** Lines 149-150 */
  function RootOf(v: Nbt): Nbt {
    var level := Child(v, Ascii("Level"));
    if level.Some? && level.value.Compound? then level.value else v
  }

  function SectionsOf(v: Nbt): Option<Nbt> {
    var newer := Child(v, Ascii("sections"));
    if newer.Some? then newer else Child(v, Ascii("Sections"))
  }

  predicate Described(v: Nbt) {
    Child(v, Ascii("block_states")).Some? || Child(v, Ascii("Palette")).Some?
  }

  /** Every column scanned against one section; None when some column meets an invalid palette index. */
  function ScanAll(s: Section, before: seq<Column>): (r: Option<seq<Column>>)
    requires ValidSection(s) && |before| == COLUMNS
    ensures r.Some? ==> |r.value| == COLUMNS
  {
    if exists c :: 0 <= c < COLUMNS && Scan(s, c, 15, before[c]).None? then None else
    Some(seq(COLUMNS,
             c requires 0 <= c < COLUMNS && Scan(s, c, 15, before[c]).Some? => Scan(s, c, 15, before[c]).value))
  }

  /** The sections a chunk describes, in order; None for a malformed one. Entries without blocks are passed over. */
  function SectionsIn(l: Items, colour: Colours): (r: seq<Option<Section>>)
    requires AcceptedItems(10, l)
    ensures forall i :: 0 <= i < |r| && r[i].Some? ==> ValidSection(r[i].value)
  {
    match l
    case NoItems => []
    case Item(head, tail) =>
      if Described(head) then [SectionOf(head, colour)] + SectionsIn(tail, colour) else SectionsIn(tail, colour)
  }

  /** The section loop (lines 159-166): the columns after every section, stopping at the first malformed one. */
  function Process(sections: seq<Option<Section>>, before: seq<Column>): (r: Option<seq<Column>>)
    requires |before| == COLUMNS
    requires forall i :: 0 <= i < |sections| && sections[i].Some? ==> ValidSection(sections[i].value)
    ensures r.Some? ==> |r.value| == COLUMNS
  {
    if sections == [] then Some(before) else
    if sections[0].None? then None else
    var after := ScanAll(sections[0].value, before);
    if after.None? then None else Process(sections[1..], after.value)
  }

  function Unseen(): seq<Column> {
    seq(COLUMNS, i => Column(UNSEEN, 0))
  }

  lemma RootAccepted(v: Nbt)
    requires Accepted(v)
    ensures Accepted(RootOf(v))
  {
    ChildAccepted(v, Ascii("Level"));
  }

  lemma SectionsAccepted(v: Nbt)
    requires Accepted(v)
    ensures SectionsOf(v).Some? ==> Accepted(SectionsOf(v).value)
  {
    ChildAccepted(v, Ascii("sections"));
    ChildAccepted(v, Ascii("Sections"));
  }

  /** Lines 149-167 on the tree. */
  function TerrainOf(v: Nbt, colour: Colours): Result<seq<Column>>
    requires Accepted(v)
  {
    RootAccepted(v);
    SectionsAccepted(RootOf(v));
    var root := RootOf(v);
    var status := Child(root, Ascii("Status"));
    if status.Some? && !IsText(status, "minecraft:full") && !IsText(status, "full") then Error(NotGenerated) else
    var sections := SectionsOf(root);
    if sections.None? || !sections.value.List? || sections.value.item != 10 || Count(sections.value.elems) > 64
    then Error(UnsupportedSections) else
    var described := SectionsIn(sections.value.elems, colour);
    var r := Process(described, Unseen());
    if r.None? then Error(InvalidPalette)
    else if described == [] then Error(NoTerrain)
    else Success(r.value)
  }

  /** The whole decoder: a byte 10, a name, and one accepted compound that uses up the input. */
  function Decoded(nbt: seq<Byte>, colour: Colours): Result<seq<Column>> {
    if |nbt| < 4 || |nbt| > MAX_NBT || nbt[0] != 10 then Error(InvalidRoot) else
    var name := ReadText(nbt[1..]);
    if name.None? then Error(TruncatedRoot) else
    var root := Read(10, name.value.1, 0, BUDGET);
    if root.None? || root.value.rest != [] then Error(InvalidTree) else
    RootIsAccepted(name.value.1);
    TerrainOf(root.value.value, colour)
  }

  // ----- what the columns mean -----

  ghost predicate ColumnsShow(l: seq<Section>, columns: seq<Column>)
    requires AllValid(l)
  {
    |columns| == COLUMNS && forall c :: 0 <= c < COLUMNS ==> IsSurface(l, c, columns[c])
  }

  /** In some column of section `k`, the highest block above what the sections before show has an invalid index. */
  ghost predicate GarbledAt(l: seq<Section>, k: nat)
    requires AllValid(l) && k < |l|
  {
    exists c, seen :: 0 <= c < COLUMNS && IsSurface(l[..k], c, seen) && Garbled(l[k], c, seen.height)
  }

  ghost predicate AnyGarbled(l: seq<Section>, from: nat)
    requires AllValid(l)
  {
    exists k :: from <= k < |l| && GarbledAt(l, k)
  }

  lemma ScanAllExtends(l: seq<Section>, n: nat, before: seq<Column>)
    requires AllValid(l) && n < |l| && ColumnsShow(l[..n], before)
    ensures ScanAll(l[n], before).None? <==> GarbledAt(l, n)
    ensures ScanAll(l[n], before).Some? ==> ColumnsShow(l[..n + 1], ScanAll(l[n], before).value)
  {
    forall c | 0 <= c < COLUMNS
      ensures Scan(l[n], c, 15, before[c]).None? <==> Garbled(l[n], c, before[c].height)
    {
      ScanFailsExactlyWhen(l[n], c, before[c]);
    }
    if GarbledAt(l, n) {
      var c, seen :| 0 <= c < COLUMNS && IsSurface(l[..n], c, seen) && Garbled(l[n], c, seen.height);
      SurfaceIsUnique(l[..n], c, seen, before[c]);
    } else {
      forall c | 0 <= c < COLUMNS
        ensures Scan(l[n], c, 15, before[c]).Some?
        ensures IsSurface(l[..n + 1], c, Scan(l[n], c, 15, before[c]).value)
      {
        assert IsSurface(l[..n], c, before[c]);
        ScanExtendsSurface(l[..n], l[n], c, before[c]);
        assert l[..n] + [l[n]] == l[..n + 1];
      }
    }
  }

  function Wrap(l: seq<Section>): (r: seq<Option<Section>>)
    ensures |r| == |l| && forall i :: 0 <= i < |l| ==> r[i] == Some(l[i])
  {
    seq(|l|, i requires 0 <= i < |l| => Some(l[i]))
  }

  /** Processing the sections from `n` on fails exactly at a garbled one, and otherwise shows the surface of all. */
  lemma {:induction false} ProcessShows(l: seq<Section>, n: nat, before: seq<Column>)
    requires AllValid(l) && n <= |l| && ColumnsShow(l[..n], before)
    ensures Process(Wrap(l)[n..], before).None? <==> AnyGarbled(l, n)
    ensures Process(Wrap(l)[n..], before).Some? ==> ColumnsShow(l, Process(Wrap(l)[n..], before).value)
    decreases |l| - n
  {
    if n == |l| {
      assert l[..n] == l;
    } else {
      ScanAllExtends(l, n, before);
      assert Wrap(l)[n..][0] == Some(l[n]) && Wrap(l)[n..][1..] == Wrap(l)[n + 1..];
      if !GarbledAt(l, n) {
        ProcessShows(l, n + 1, ScanAll(l[n], before).value);
      }
    }
  }

  /** Where every index is valid, nothing is garbled. */
  lemma ReadableIsNotGarbled(l: seq<Section>)
    requires AllValid(l) && forall c :: 0 <= c < COLUMNS ==> AllReadable(l, c)
    ensures !AnyGarbled(l, 0)
  {
    forall k | 0 <= k < |l| ensures !GarbledAt(l, k) {
      forall c, seen | 0 <= c < COLUMNS && IsSurface(l[..k], c, seen) ensures !Garbled(l[k], c, seen.height) {
        assert AllReadable(l, c) && Readable(l[k], c);
        ScanFailsExactlyWhen(l[k], c, seen);
      }
    }
  }

  /**
   A generated chunk with sound sections is decoded unless one of them is garbled, and shows, in every column, its
   highest block that is not air. Invalid indices below that block are not noticed.
   */
  lemma TerrainShowsSurface(v: Nbt, colour: Colours, sections: seq<Section>)
    requires Accepted(v)
    requires TerrainOf(v, colour) != Error(NotGenerated) && TerrainOf(v, colour) != Error(UnsupportedSections)
    requires var l := SectionsOf(RootOf(v)).value.elems;
             AcceptedItems(10, l) && SectionsIn(l, colour) == Wrap(sections) && sections != [] && AllValid(sections)
    ensures TerrainOf(v, colour) == Error(InvalidPalette) || TerrainOf(v, colour).Success?
    ensures TerrainOf(v, colour).Success? <==> !AnyGarbled(sections, 0)
    ensures TerrainOf(v, colour).Success? ==> ColumnsShow(sections, TerrainOf(v, colour).value)
  {
    forall c | 0 <= c < COLUMNS
      ensures IsSurface([], c, Unseen()[c])
    {
      NothingSeen(c);
    }
    assert sections[..0] == [] && Wrap(sections)[0..] == Wrap(sections);
    ProcessShows(sections, 0, Unseen());
  }

  lemma {:induction false} ProcessedAreSections(described: seq<Option<Section>>, before: seq<Column>)
    returns (sections: seq<Section>)
    requires forall i :: 0 <= i < |described| && described[i].Some? ==> ValidSection(described[i].value)
    requires |before| == COLUMNS && Process(described, before).Some?
    ensures described == Wrap(sections) && AllValid(sections)
  {
    sections := [];
    if described != [] {
      var rest := ProcessedAreSections(described[1..], ScanAll(described[0].value, before).value);
      sections := [described[0].value] + rest;
      assert described == [described[0]] + described[1..];
    }
  }

  /** Whatever chunk is decoded: its sections are sound, and the columns show their surface. */
  lemma DecodedShowsSurface(v: Nbt, colour: Colours) returns (sections: seq<Section>)
    requires Accepted(v) && TerrainOf(v, colour).Success?
    ensures AcceptedItems(10, SectionsOf(RootOf(v)).value.elems)
    ensures SectionsIn(SectionsOf(RootOf(v)).value.elems, colour) == Wrap(sections) && sections != []
    ensures AllValid(sections) && ColumnsShow(sections, TerrainOf(v, colour).value)
  {
    RootAccepted(v);
    SectionsAccepted(RootOf(v));
    sections := ProcessedAreSections(SectionsIn(SectionsOf(RootOf(v)).value.elems, colour), Unseen());
    TerrainShowsSurface(v, colour, sections);
  }
}
