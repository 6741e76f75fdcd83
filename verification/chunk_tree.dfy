/** The decoder on written chunks: their bytes are those of a tree, whose sections have the blocks that were written. */
module ChunkTree {
  import opened Bytes
  import opened Bits
  import opened Wrappers
  import opened Nbt
  import opened NbtReader
  import opened Packed
  import opened Surface
  import opened Terrain
  import opened Cells
  import opened WrittenChunk

  // ----- the tree -----

  function EntryTree(name: seq<Byte>): Nbt {
    Compound(Field(Ascii("Name"), Text(name), Stop))
  }

  function Entries(names: seq<seq<Byte>>): Items {
    if names == [] then NoItems else Item(EntryTree(names[0]), Entries(names[1..]))
  }

  function YTree(s: Placed): Nbt
    requires IsPlaced(s)
  {
    Number(if s.wide then 3 else 1, YBytes(s))
  }

  function DataTree(s: Placed): Nbt
    requires IsPlaced(s)
  {
    var payload := Stored(s.cells, StateWidth(|s.names|), s.padded);
    Array(12, |payload| / 8, payload)
  }

  function DataFields(s: Placed, key: string): Fields
    requires IsPlaced(s)
  {
    if |s.names| == 1 then Stop else Field(Ascii(key), DataTree(s), Stop)
  }

  function BlockFields(s: Placed, palette: string, data: string): Fields
    requires IsPlaced(s)
  {
    Field(Ascii(palette), List(10, Entries(s.names)), DataFields(s, data))
  }

  function SectionTree(s: Placed, older: bool): Nbt
    requires IsPlaced(s)
  {
    Compound(Field(Ascii("Y"), YTree(s),
      if older then BlockFields(s, "Palette", "BlockStates")
      else Field(Ascii("block_states"), Compound(BlockFields(s, "palette", "data")), Stop)))
  }

  function SectionTrees(l: seq<Placed>, older: bool): Items
    requires forall s <- l :: IsPlaced(s)
  {
    if l == [] then NoItems else Item(SectionTree(l[0], older), SectionTrees(l[1..], older))
  }

  function BodyTree(c: Chunk): Nbt
    requires IsChunk(c)
  {
    var sections :=
      Field(Ascii(if c.older then "Sections" else "sections"), List(10, SectionTrees(c.sections, c.older)), Stop);
    Compound(if c.status.None? then sections else Field(Ascii("Status"), Text(Ascii(c.status.value)), sections))
  }

  function ChunkTreeOf(c: Chunk): Nbt
    requires IsChunk(c)
  {
    if c.older then Compound(Field(Ascii("Level"), BodyTree(c), Stop)) else BodyTree(c)
  }

  // ----- its bytes -----

  lemma LettersAre(s: string)
    requires IsPlain(s)
    ensures Letters(s) == Ascii(s)
  {
  }

  lemma CountIs(n: Word32)
    ensures CountBytes(n) == Be32Bytes(n)
  {
  }

  lemma TextIs(text: seq<Byte>)
    requires |text| < 65536
    ensures TextBytes(text) == WriteText(text)
  {
  }

  lemma FieldIs(name: string, v: Nbt, more: Fields)
    requires IsPlain(name) && Proper(v) && ProperFields(more)
    ensures ProperFields(Field(Ascii(name), v, more)) && Kind(v) < 256
    ensures WriteFields(Field(Ascii(name), v, more)) == NamedBytes(Kind(v), name, Write(v), WriteFields(more))
    ensures FieldsSize(Field(Ascii(name), v, more)) == Size(v) + FieldsSize(more)
    ensures FieldsHeight(Field(Ascii(name), v, more)) == Max(Height(v), FieldsHeight(more))
    ensures WriteFields(Stop) == [0] && FieldsSize(Stop) == 0 && FieldsHeight(Stop) == -1
  {
    LettersAre(name);
    TextIs(Ascii(name));
    assert |name| / 256 == 0 && |name| % 256 == |name|;
  }

  lemma EntryIs(name: seq<Byte>)
    requires |name| < 65536
    ensures Proper(EntryTree(name)) && Size(EntryTree(name)) == 2 && Height(EntryTree(name)) == 1
    ensures Write(EntryTree(name)) == (PlainNames(); NamedBytes(8, "Name", TextBytes(name), [0]))
  {
    PlainNames();
    TextIs(name);
    FieldIs("Name", Text(name), Stop);
  }

  lemma {:induction false} EntriesAre(names: seq<seq<Byte>>)
    requires forall name <- names :: |name| < 65536
    ensures ProperItems(10, Entries(names)) && Count(Entries(names)) == |names|
    ensures ItemsSize(Entries(names)) == 2 * |names| && ItemsHeight(Entries(names)) <= 1
    ensures WriteItems(10, Entries(names)) == EntriesBytes(names)
  {
    if names != [] {
      EntryIs(names[0]);
      EntriesAre(names[1..]);
    }
  }

  lemma PaletteIs(s: Placed)
    requires IsPlaced(s)
    ensures var palette := List(10, Entries(s.names));
            && Proper(palette) && Size(palette) == 1 + 2 * |s.names| && Height(palette) <= 2
            && Write(palette) == PaletteBytes(s)
  {
    EntriesAre(s.names);
    CountIs(|s.names|);
  }

  lemma YIs(s: Placed)
    requires IsPlaced(s)
    ensures Proper(YTree(s)) && Size(YTree(s)) == 1 && Height(YTree(s)) == 0 && Write(YTree(s)) == YBytes(s)
  {
  }

  lemma DataIs(s: Placed, key: string)
    requires IsPlaced(s) && IsPlain(key)
    ensures ProperFields(DataFields(s, key)) && FieldsHeight(DataFields(s, key)) <= 0
    ensures FieldsSize(DataFields(s, key)) == if |s.names| == 1 then 0 else 1
    ensures WriteFields(DataFields(s, key)) == DataBytes(s, key)
  {
    if |s.names| > 1 {
      ArrayIs(s);
      FieldIs(key, DataTree(s), Stop);
    }
  }

  lemma ArrayIs(s: Placed)
    requires IsPlaced(s)
    ensures Proper(DataTree(s)) && Size(DataTree(s)) == 1 && Height(DataTree(s)) == 0
    ensures var payload := Stored(s.cells, StateWidth(|s.names|), s.padded);
            |payload| / 8 < TWO32 && Write(DataTree(s)) == CountBytes(|payload| / 8) + payload
  {
    var bits := StateWidth(|s.names|);
    assert WordsFor(bits, s.padded) <= 820;
    CountIs(WordsFor(bits, s.padded));
  }

  lemma BlocksAre(s: Placed, palette: string, data: string)
    requires IsPlaced(s) && IsPlain(palette) && IsPlain(data)
    ensures var f := BlockFields(s, palette, data);
            && ProperFields(f) && FieldsHeight(f) <= 2
            && FieldsSize(f) == 1 + 2 * |s.names| + (if |s.names| == 1 then 0 else 1)
            && WriteFields(f) == NamedBytes(9, palette, PaletteBytes(s), DataBytes(s, data))
  {
    PaletteIs(s);
    DataIs(s, data);
    FieldIs(palette, List(10, Entries(s.names)), DataFields(s, data));
  }

  lemma SectionIs(s: Placed, older: bool)
    requires IsPlaced(s)
    ensures var v := SectionTree(s, older);
            && Proper(v) && Height(v) <= 4 && Size(v) == Values(s, older) && Write(v) == SectionBytes(s, older)
  {
    PlainNames();
    YIs(s);
    if older {
      BlocksAre(s, "Palette", "BlockStates");
      FieldIs("Y", YTree(s), BlockFields(s, "Palette", "BlockStates"));
    } else {
      BlocksAre(s, "palette", "data");
      FieldIs("block_states", Compound(BlockFields(s, "palette", "data")), Stop);
      FieldIs("Y", YTree(s), Field(Ascii("block_states"), Compound(BlockFields(s, "palette", "data")), Stop));
    }
  }

  lemma {:induction false} SectionsAre(l: seq<Placed>, older: bool)
    requires forall s <- l :: IsPlaced(s)
    ensures var items := SectionTrees(l, older);
            && ProperItems(10, items) && Count(items) == |l| && ItemsHeight(items) <= 4
            && ItemsSize(items) == AllValues(l, older) && WriteItems(10, items) == SectionsBytes(l, older)
  {
    if l != [] {
      SectionIs(l[0], older);
      SectionsAre(l[1..], older);
    }
  }

  lemma SectionListIs(c: Chunk)
    requires IsChunk(c)
    ensures var list := List(10, SectionTrees(c.sections, c.older));
            && Proper(list) && Height(list) <= 5 && Size(list) == 1 + AllValues(c.sections, c.older)
            && Write(list) == [10] + (CountBytes(|c.sections|) + SectionsBytes(c.sections, c.older))
  {
    SectionsAre(c.sections, c.older);
    CountIs(|c.sections|);
  }

  lemma BodyIs(c: Chunk)
    requires IsChunk(c)
    ensures var v := BodyTree(c);
            && Proper(v) && Height(v) <= 6 && Size(v) <= 3 + AllValues(c.sections, c.older) && Write(v) == BodyBytes(c)
  {
    PlainNames();
    SectionListIs(c);
    var name := if c.older then "Sections" else "sections";
    var list := List(10, SectionTrees(c.sections, c.older));
    FieldIs(name, list, Stop);
    if c.status.Some? {
      PlainTexts();
      LettersAre(c.status.value);
      TextIs(Ascii(c.status.value));
      FieldIs("Status", Text(Ascii(c.status.value)), Field(Ascii(name), list, Stop));
    }
  }

  lemma ChunkIs(c: Chunk)
    requires IsChunk(c)
    ensures Accepted(ChunkTreeOf(c)) && ChunkTreeOf(c).Compound? && ChunkBytes(c) == [10, 0, 0] + Write(ChunkTreeOf(c))
  {
    BodyIs(c);
    if c.older {
      PlainNames();
      FieldIs("Level", BodyTree(c), Stop);
    }
  }

  lemma DecodedIs(c: Chunk, colour: Colours)
    requires IsChunk(c) && |ChunkBytes(c)| <= 4 * 1024 * 1024
    ensures Accepted(ChunkTreeOf(c)) && Decoded(ChunkBytes(c), colour) == TerrainOf(ChunkTreeOf(c), colour)
  {
    ChunkIs(c);
    RootDecodes(ChunkBytes(c), ChunkTreeOf(c), Write(ChunkTreeOf(c)), colour);
  }

  lemma RootDecodes(nbt: seq<Byte>, v: Nbt, w: seq<Byte>, colour: Colours)
    requires Accepted(v) && v.Compound? && w == Write(v) && nbt == [10, 0, 0] + w && 4 <= |nbt| <= MAX_NBT
    ensures Decoded(nbt, colour) == TerrainOf(v, colour)
  {
    assert nbt[1..] == WriteText([]) + w;
    TextRoundTrip(nbt[1..], [], w);
    RootReads(v, w);
  }

  lemma RootReads(v: Nbt, w: seq<Byte>)
    requires Accepted(v) && v.Compound? && w == Write(v)
    ensures Read(10, w, 0, BUDGET) == Some(Parsed(v, [], BUDGET - Size(v)))
  {
    ReadWritten(v, [], 0, BUDGET);
    assert w + [] == w;
  }

  // ----- its sections -----

  lemma NamesDiffer()
    ensures Ascii("Y") != Ascii("block_states") && Ascii("Y") != Ascii("Palette") && Ascii("Y") != Ascii("BlockStates")
    ensures Ascii("Palette") != Ascii("BlockStates") && Ascii("palette") != Ascii("data")
    ensures Ascii("block_states") != Ascii("Palette") && Ascii("block_states") != Ascii("BlockStates")
  {
  }

  lemma BodyNamesDiffer()
    ensures Ascii("Status") != Ascii("Level") && Ascii("Status") != Ascii("sections")
    ensures Ascii("Status") != Ascii("Sections") && Ascii("sections") != Ascii("Level")
    ensures Ascii("Sections") != Ascii("Level") && Ascii("sections") != Ascii("Sections")
  {
    assert Ascii("sections")[0] == 115 && Ascii("Sections")[0] == 83;
  }

  lemma CountReads(n: Word32)
    ensures Be32(CountBytes(n), 0) == n
  {
    CountIs(n);
    assert CountBytes(n)[0..4] == Be32Bytes(n);
    Be32RoundTrip(CountBytes(n), 0, n);
  }

  lemma HeightIs(s: Placed)
    requires IsPlaced(s)
    ensures HeightOf(Some(YTree(s))) == Some(s.y)
  {
    if s.wide {
      CountReads(if s.y >= 0 then s.y else s.y + 0x1_0000_0000);
    }
  }

  lemma SectionAccepted(s: Placed, older: bool)
    requires IsPlaced(s)
    ensures Accepted(SectionTree(s, older))
  {
    SectionIs(s, older);
  }

  /** What the tree of a section has under which name. */
  lemma SectionShape(s: Placed, older: bool)
    requires IsPlaced(s)
    ensures var v := SectionTree(s, older);
            && Child(v, Ascii("Y")) == Some(YTree(s)) && Described(v)
            && Child(Holder(v), PaletteKey(v)) == Some(List(10, Entries(s.names)))
            && Child(Holder(v), DataKey(v)) == if |s.names| == 1 then None else Some(DataTree(s))
  {
    NamesDiffer();
    var v := SectionTree(s, older);
    if older {
      BlocksFound(s, "Palette", "BlockStates");
      var f := BlockFields(s, "Palette", "BlockStates");
      assert Child(v, Ascii("block_states")) == FirstField(f, Ascii("block_states"));
      assert FirstField(f, Ascii("block_states")) == FirstField(DataFields(s, "BlockStates"), Ascii("block_states"));
      assert FirstField(DataFields(s, "BlockStates"), Ascii("block_states")) == None;
    } else {
      BlocksFound(s, "palette", "data");
      var held := Field(Ascii("block_states"), Compound(BlockFields(s, "palette", "data")), Stop);
      assert Child(v, Ascii("block_states")) == FirstField(held, Ascii("block_states"));
      assert Child(v, Ascii("block_states")) == Some(Compound(BlockFields(s, "palette", "data")));
    }
  }

  lemma BlocksFound(s: Placed, palette: string, data: string)
    requires IsPlaced(s) && Ascii(palette) != Ascii(data)
    ensures var f := BlockFields(s, palette, data);
            && FirstField(f, Ascii(palette)) == Some(List(10, Entries(s.names)))
            && FirstField(f, Ascii(data)) == if |s.names| == 1 then None else Some(DataTree(s))
  {
    var f := BlockFields(s, palette, data);
    assert FirstField(f, Ascii(data)) == FirstField(DataFields(s, data), Ascii(data));
  }

  function ColourOf(name: seq<Byte>, colour: Colours): nat
    requires |name| < 65536
  {
    colour(Tag(8, TextBytes(name)))
  }

  lemma {:induction false} ColoursAre(names: seq<seq<Byte>>, colour: Colours, i: nat)
    requires (forall name <- names :: |name| < 65536) && i < |names| && 2 * |names| <= BUDGET
    ensures AcceptedItems(10, Entries(names)) && |ColoursOf(Entries(names), colour)| == |names|
    ensures ColoursOf(Entries(names), colour)[i] == ColourOf(names[i], colour)
  {
    EntriesAre(names);
    EntryIs(names[0]);
    TextIs(names[0]);
    EntriesAre(names[1..]);
    if i > 0 {
      ColoursAre(names[1..], colour, i - 1);
    }
  }

  lemma WidthIs(n: nat)
    requires 0 < n <= 4096
    ensures BitsFor(n, 4) == StateWidth(n) && n <= Pow2(StateWidth(n))
  {
    assert Pow2(4) == 16 && Pow2(5) == 32 && Pow2(6) == 64 && Pow2(7) == 128 && Pow2(8) == 256;
    assert Pow2(9) == 512 && Pow2(10) == 1024 && Pow2(11) == 2048 && Pow2(12) == 4096;
  }

  lemma LayoutIs(s: Placed)
    requires IsPlaced(s)
    ensures var bits := StateWidth(|s.names|); Layout(WordsFor(bits, s.padded), bits) == Some(s.padded)
  {
    var bits := StateWidth(|s.names|);
    WordsForIs(bits, s.padded);
    WordsForIs(bits, true);
  }

  /** A section of the decoder with the cells of a written one. */
  ghost predicate Matches(section: Section, s: Placed, colour: Colours)
    requires IsPlaced(s)
  {
    && section.y == s.y && |section.colors| == |s.names|
    && (forall i :: 0 <= i < |s.names| ==> section.colors[i] == ColourOf(s.names[i], colour))
    && (forall i :: 0 <= i < 4096 ==> section.state(i) == s.cells[i])
  }

  /** The section the decoder builds has the cells that were written. */
  lemma SectionBuilt(s: Placed, older: bool, colour: Colours) returns (section: Section)
    requires IsPlaced(s)
    ensures Accepted(SectionTree(s, older)) && Described(SectionTree(s, older))
    ensures SectionOf(SectionTree(s, older), colour) == Some(section) && Matches(section, s, colour)
  {
    SectionAccepted(s, older);
    SectionShape(s, older);
    DataIsStored(s, older);
    section := BuiltFrom(SectionTree(s, older), s, colour);
  }

  lemma BuiltFrom(v: Nbt, s: Placed, colour: Colours) returns (section: Section)
    requires IsPlaced(s) && Accepted(v) && Child(v, Ascii("Y")) == Some(YTree(s))
    requires Child(Holder(v), PaletteKey(v)) == Some(List(10, Entries(s.names)))
    requires DataOf(v) == if |s.names| == 1 then [] else WordsOf(Stored(s.cells, StateWidth(|s.names|), s.padded))
    ensures SectionOf(v, colour) == Some(section) && Matches(section, s, colour)
  {
    HeightIs(s);
    AllColours(s.names, colour);
    section := CellsBuilt(s, ColoursOf(Entries(s.names), colour), colour);
    SectionIsBuilt(v, s.y, YTree(s), Entries(s.names), colour);
  }

  lemma SectionIsBuilt(v: Nbt, y: int, tree: Nbt, l: Items, colour: Colours)
    requires Accepted(v) && Child(v, Ascii("Y")) == Some(tree) && Proper(tree) && HeightOf(Some(tree)) == Some(y)
    requires Child(Holder(v), PaletteKey(v)) == Some(List(10, l)) && AcceptedItems(10, l) && 0 < Count(l) <= 4096
    ensures SectionOf(v, colour) == BuildSection(y, ColoursOf(l, colour), DataOf(v))
  {
  }

  lemma DataIsStored(s: Placed, older: bool)
    requires IsPlaced(s) && Accepted(SectionTree(s, older))
    ensures DataOf(SectionTree(s, older))
         == if |s.names| == 1 then [] else WordsOf(Stored(s.cells, StateWidth(|s.names|), s.padded))
  {
    SectionShape(s, older);
  }

  lemma AllColours(names: seq<seq<Byte>>, colour: Colours)
    requires (forall name <- names :: |name| < 65536) && 0 < |names| <= 4096
    ensures AcceptedItems(10, Entries(names)) && Count(Entries(names)) == |names|
    ensures forall i :: 0 <= i < |names| ==> ColoursOf(Entries(names), colour)[i] == ColourOf(names[i], colour)
  {
    EntriesAre(names);
    forall i | 0 <= i < |names| ensures ColoursOf(Entries(names), colour)[i] == ColourOf(names[i], colour) {
      ColoursAre(names, colour, i);
    }
  }

  lemma CellsBuilt(s: Placed, colors: seq<nat>, colour: Colours) returns (section: Section)
    requires IsPlaced(s) && |colors| == |s.names|
    requires forall i :: 0 <= i < |s.names| ==> colors[i] == ColourOf(s.names[i], colour)
    ensures Matches(section, s, colour)
    ensures var words := if |s.names| == 1 then [] else WordsOf(Stored(s.cells, StateWidth(|s.names|), s.padded));
            BuildSection(s.y, colors, words) == Some(section)
  {
    if |s.names| > 1 {
      WidthIs(|s.names|);
      LayoutIs(s);
      AllStoredRead(s.cells, StateWidth(|s.names|), s.padded);
    }
    section := BuildSection(s.y, colors,
      if |s.names| == 1 then [] else WordsOf(Stored(s.cells, StateWidth(|s.names|), s.padded))).value;
  }

  lemma AllStoredRead(cells: seq<nat>, bits: nat, padded: bool)
    requires 4 <= bits <= 12 && |cells| == 4096 && Small(cells, bits)
    requires Layout(WordsFor(bits, padded), bits) == Some(padded)
    ensures forall i :: 0 <= i < 4096 ==> States(WordsOf(Stored(cells, bits, padded)), bits, padded)(i) == cells[i]
  {
    forall i | 0 <= i < 4096
      ensures States(WordsOf(Stored(cells, bits, padded)), bits, padded)(i) == cells[i]
    {
      StoredReads(cells, bits, padded, i);
    }
  }

  // ----- the chunk -----

  ghost predicate AllMatch(sections: seq<Section>, l: seq<Placed>, colour: Colours)
    requires forall s <- l :: IsPlaced(s)
  {
    |sections| == |l| && forall k :: 0 <= k < |l| ==> Matches(sections[k], l[k], colour)
  }

  lemma {:induction false} SectionsBuilt(l: seq<Placed>, older: bool, colour: Colours)
    returns (sections: seq<Section>)
    requires (forall s <- l :: IsPlaced(s)) && AllValues(l, older) <= BUDGET
    ensures AcceptedItems(10, SectionTrees(l, older)) && AllMatch(sections, l, colour)
    ensures SectionsIn(SectionTrees(l, older), colour) == Wrap(sections)
  {
    SectionsAre(l, older);
    sections := [];
    if l != [] {
      var rest := SectionsBuilt(l[1..], older, colour);
      var first := SectionBuilt(l[0], older, colour);
      sections := [first] + rest;
      OneMore(first, rest, l, colour);
      MoreIn(SectionTree(l[0], older), SectionTrees(l[1..], older), colour, first, rest);
    }
  }

  lemma MoreIn(head: Nbt, tail: Items, colour: Colours, first: Section, rest: seq<Section>)
    requires AcceptedItems(10, Item(head, tail)) && Described(head)
    requires SectionOf(head, colour) == Some(first) && SectionsIn(tail, colour) == Wrap(rest)
    ensures SectionsIn(Item(head, tail), colour) == Wrap([first] + rest)
  {
    assert [Some(first)] + Wrap(rest) == Wrap([first] + rest);
  }

  lemma OneMore(first: Section, rest: seq<Section>, l: seq<Placed>, colour: Colours)
    requires (forall s <- l :: IsPlaced(s)) && l != [] && Matches(first, l[0], colour) && AllMatch(rest, l[1..], colour)
    ensures AllMatch([first] + rest, l, colour)
  {
    forall k | 0 <= k < |l| ensures Matches(([first] + rest)[k], l[k], colour) {
      if k > 0 {
        assert Matches(rest[k - 1], l[1..][k - 1], colour);
      }
    }
  }

  lemma ChunkShape(c: Chunk)
    requires IsChunk(c)
    ensures var root := RootOf(ChunkTreeOf(c));
            && root == BodyTree(c)
            && Child(root, Ascii("Status")) == (if c.status.None? then None else Some(Text(Ascii(c.status.value))))
            && SectionsOf(root) == Some(List(10, SectionTrees(c.sections, c.older)))
  {
    BodyNamesDiffer();
    BodyShape(c);
    var v := ChunkTreeOf(c);
    if c.older {
      assert Child(v, Ascii("Level")) == Some(BodyTree(c));
    }
  }

  lemma BodyShape(c: Chunk)
    requires IsChunk(c)
    ensures var v := BodyTree(c);
            && Child(v, Ascii("Level")) == None
            && Child(v, Ascii("Status")) == (if c.status.None? then None else Some(Text(Ascii(c.status.value))))
            && Child(v, Ascii(if c.older then "Sections" else "sections"))
               == Some(List(10, SectionTrees(c.sections, c.older)))
            && (c.older ==> Child(v, Ascii("sections")) == None)
  {
    BodyNamesDiffer();
    var list := List(10, SectionTrees(c.sections, c.older));
    var f := Field(Ascii(if c.older then "Sections" else "sections"), list, Stop);
    assert FirstField(f, Ascii("Level")) == None && FirstField(f, Ascii("Status")) == None;
    assert c.older ==> FirstField(f, Ascii("sections")) == None;
    if c.status.Some? {
      var t := Text(Ascii(c.status.value));
      assert FirstField(Field(Ascii("Status"), t, f), Ascii("Level")) == FirstField(f, Ascii("Level"));
      assert FirstField(Field(Ascii("Status"), t, f), Ascii("sections")) == FirstField(f, Ascii("sections"));
      assert FirstField(Field(Ascii("Status"), t, f), Ascii("Sections")) == FirstField(f, Ascii("Sections"));
    }
  }

  lemma ColorIsBlock(section: Section, s: Placed, x: nat, z: nat, h: int, colour: Colours)
    requires ValidSection(section) && IsPlaced(s) && Matches(section, s, colour) && x < 16 && z < 16
    ensures ColorIn(section, 16 * z + x, h)
         == Some(if 0 <= h - 16 * s.y < 16 then BlockIn(s, x, h - 16 * s.y, z, colour) else 0)
  {
    var ly := h - 16 * s.y;
    if 0 <= ly < 16 {
      assert CellIndex(16 * z + x, ly) == 256 * ly + 16 * z + x;
    }
  }

  /** The block at a height is that of one of the sections, and air only where all of them have air. */
  lemma {:induction false} BlockIsPlaced(sections: seq<Section>, l: seq<Placed>, x: nat, z: nat, h: int,
                                         colour: Colours)
    requires AllValid(sections) && (forall s <- l :: IsPlaced(s)) && AllMatch(sections, l, colour) && x < 16 && z < 16
    ensures var color := BlockAt(sections, 16 * z + x, h);
            && (color != 0 ==> HasBlock(l, x, z, h, color, colour))
            && (color == 0 ==> forall other: nat :: HasBlock(l, x, z, h, other, colour) ==> other == 0)
    decreases |l|
  {
    if l != [] {
      var n := |l| - 1;
      BlockIsPlaced(sections[..n], l[..n], x, z, h, colour);
      ColorIsBlock(sections[n], l[n], x, z, h, colour);
      LastAdds(l, x, z, h, colour);
    }
  }

  /** The last section adds its block at the height, if it has one. */
  lemma LastAdds(l: seq<Placed>, x: nat, z: nat, h: int, colour: Colours)
    requires l != [] && (forall s <- l :: IsPlaced(s)) && x < 16 && z < 16
    ensures var n := |l| - 1;
            forall color: nat :: HasBlock(l, x, z, h, color, colour) <==>
              (HasBlock(l[..n], x, z, h, color, colour)
               || (0 <= h - 16 * l[n].y < 16 && color == BlockIn(l[n], x, h - 16 * l[n].y, z, colour)))
  {
    var n := |l| - 1;
    var last := l[..n];
    forall color: nat | HasBlock(l, x, z, h, color, colour)
      ensures HasBlock(last, x, z, h, color, colour)
              || (0 <= h - 16 * l[n].y < 16 && color == BlockIn(l[n], x, h - 16 * l[n].y, z, colour))
    {
      var k :| 0 <= k < |l| && 0 <= h - 16 * l[k].y < 16 && color == BlockIn(l[k], x, h - 16 * l[k].y, z, colour);
      assert k < n ==> last[k] == l[k];
    }
    forall color: nat | HasBlock(last, x, z, h, color, colour) ensures HasBlock(l, x, z, h, color, colour) {
      var k :| 0 <= k < n && 0 <= h - 16 * last[k].y < 16
               && color == BlockIn(last[k], x, h - 16 * last[k].y, z, colour);
      assert last[k] == l[k];
    }
  }

  lemma SurfaceShowsTop(sections: seq<Section>, l: seq<Placed>, x: nat, z: nat, shown: Column, colour: Colours)
    requires AllValid(sections) && (forall s <- l :: IsPlaced(s)) && AllMatch(sections, l, colour) && x < 16 && z < 16
    requires IsSurface(sections, 16 * z + x, shown)
    ensures ShowsTop(l, x, z, shown, colour)
  {
    forall h: int, color: nat | h > shown.height && HasBlock(l, x, z, h, color, colour) ensures color == 0 {
      BlockIsPlaced(sections, l, x, z, h, colour);
    }
    BlockIsPlaced(sections, l, x, z, shown.height, colour);
  }

  lemma NothingGarbled(sections: seq<Section>, l: seq<Placed>, colour: Colours)
    requires AllValid(sections) && (forall s <- l :: IsPlaced(s)) && AllMatch(sections, l, colour)
    ensures !AnyGarbled(sections, 0)
  {
    forall c | 0 <= c < COLUMNS ensures AllReadable(sections, c) {
      forall k, h | 0 <= k < |sections| ensures ColorIn(sections[k], c, h).Some? {
        ColorIsBlock(sections[k], l[k], c % 16, c / 16, h, colour);
        assert 16 * (c / 16) + c % 16 == c;
      }
    }
    ReadableIsNotGarbled(sections);
  }

  /**
   A chunk written to a file is decoded, and every column shows its highest block that is not air. All is said in bytes
   and blocks: old and new chunks, Y of one or four bytes, palettes of 1 to 4096 names, either layout of the indices.
   */
  lemma WrittenIsShown(c: Chunk, colour: Colours)
    requires IsChunk(c) && |ChunkBytes(c)| <= 4 * 1024 * 1024
    ensures ShowsChunk(c, Decoded(ChunkBytes(c), colour), colour)
  {
    DecodedIs(c, colour);
    TreeIsShown(c, colour);
  }

  /** The columns, row by row, of 16 each. */
  ghost predicate ShowsChunk(c: Chunk, r: Terrain.Result<seq<Column>>, colour: Colours)
    requires IsChunk(c)
  {
    && r.Success? && |r.value| == 256
    && forall k :: 0 <= k < 256 ==> ShowsTop(c.sections, k % 16, k / 16, r.value[k], colour)
  }

  lemma TreeIsShown(c: Chunk, colour: Colours)
    requires IsChunk(c) && Accepted(ChunkTreeOf(c))
    ensures ShowsChunk(c, TerrainOf(ChunkTreeOf(c), colour), colour)
  {
    var sections := ChunkBuilt(c, colour);
    TerrainIsShown(ChunkTreeOf(c), colour, c, sections);
    ResultShows(c, sections, TerrainOf(ChunkTreeOf(c), colour), colour);
  }

  lemma ChunkBuilt(c: Chunk, colour: Colours) returns (sections: seq<Section>)
    requires IsChunk(c)
    ensures AcceptedItems(10, SectionTrees(c.sections, c.older)) && Count(SectionTrees(c.sections, c.older)) <= 64
    ensures AllMatch(sections, c.sections, colour)
    ensures SectionsIn(SectionTrees(c.sections, c.older), colour) == Wrap(sections)
  {
    sections := SectionsBuilt(c.sections, c.older, colour);
    SectionsAre(c.sections, c.older);
  }

  lemma ResultShows(c: Chunk, sections: seq<Section>, r: Terrain.Result<seq<Column>>, colour: Colours)
    requires IsChunk(c) && AllValid(sections) && AllMatch(sections, c.sections, colour)
    requires r.Success? && ColumnsShow(sections, r.value)
    ensures ShowsChunk(c, r, colour)
  {
    ColumnsShowTop(sections, c.sections, r.value, colour);
  }

  lemma ColumnsShowTop(sections: seq<Section>, l: seq<Placed>, columns: seq<Column>, colour: Colours)
    requires AllValid(sections) && (forall s <- l :: IsPlaced(s)) && AllMatch(sections, l, colour)
    requires ColumnsShow(sections, columns)
    ensures forall k :: 0 <= k < 256 ==> ShowsTop(l, k % 16, k / 16, columns[k], colour)
  {
    forall k | 0 <= k < 256 ensures ShowsTop(l, k % 16, k / 16, columns[k], colour) {
      assert 16 * (k / 16) + k % 16 == k;
      SurfaceShowsTop(sections, l, k % 16, k / 16, columns[k], colour);
    }
  }

  lemma TerrainIsShown(v: Nbt, colour: Colours, c: Chunk, sections: seq<Section>)
    requires IsChunk(c) && v == ChunkTreeOf(c) && Accepted(v) && AllMatch(sections, c.sections, colour)
    requires AcceptedItems(10, SectionTrees(c.sections, c.older)) && Count(SectionTrees(c.sections, c.older)) <= 64
    requires SectionsIn(SectionTrees(c.sections, c.older), colour) == Wrap(sections)
    ensures AllValid(sections) && TerrainOf(v, colour).Success? && ColumnsShow(sections, TerrainOf(v, colour).value)
  {
    ChunkShape(c);
    forall k | 0 <= k < |sections| ensures ValidSection(sections[k]) {
      assert Matches(sections[k], c.sections[k], colour);
    }
    NothingGarbled(sections, c.sections, colour);
    TerrainShowsSurface(v, colour, sections);
  }

  // ----- what is refused -----

  /** No palette entry or more than 4096, and an int Y outside -2048 .. 2047, make a section malformed. */
  lemma SectionIsRefused(v: Nbt, colour: Colours, y: int)
    requires Accepted(v)
    requires (PaletteOf(v).Some? && (Count(PaletteOf(v).value) == 0 || Count(PaletteOf(v).value) >= 4097))
             || (-0x8000_0000 <= y < 0x8000_0000 && (y < -2048 || y > 2047)
                 && Child(v, Ascii("Y")) == Some(Number(3, CountBytes(if y >= 0 then y else y + 0x1_0000_0000))))
    ensures SectionOf(v, colour) == None
  {
    CountReads(if 0 <= y < 0x8000_0000 then y else if -0x8000_0000 <= y < 0 then y + 0x1_0000_0000 else 0);
  }

  /** So do more than 64 sections a chunk, and any status but the two. */
  lemma ChunkIsRefused(v: Nbt, colour: Colours, l: Items, status: seq<Byte>)
    requires Accepted(v)
    requires (SectionsOf(RootOf(v)) == Some(List(10, l)) && Count(l) >= 65)
             || (Child(RootOf(v), Ascii("Status")) == Some(Text(status))
                 && status != Ascii("full") && status != Ascii("minecraft:full"))
    ensures TerrainOf(v, colour) in {Error(NotGenerated), Error(UnsupportedSections)}
  {
  }
}
