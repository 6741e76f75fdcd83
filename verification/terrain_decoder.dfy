/** The decoder's loops over tags, buffers and columns, against the tree they read. */
module TerrainDecoder {
  import opened Bytes
  import opened Bits
  import opened Cells
  import opened Wrappers
  import opened Nbt
  import opened NbtReader
  import opened Packed
  import opened Surface
  import opened Terrain

  // ----- lines 119-136: the columns of one section -----

  ghost function ColumnsOf(pixels: array<nat>, heights: array<int>): (c: seq<Column>)
    requires pixels.Length == heights.Length == COLUMNS
    reads pixels, heights
    ensures |c| == COLUMNS
  {
    seq(COLUMNS, i requires 0 <= i < COLUMNS reads pixels, heights => Column(heights[i], pixels[i]))
  }

  /** The long array's bytes hold the words of this layout. */
  predicate HoldsWords(data: seq<Byte>, bits: nat, padded: bool) {
    && 4 <= bits <= 12 && |data| >= 4 && (|data| - 4) % 8 == 0
    && Layout((|data| - 4) / 8, bits) == Some(padded)
  }

  lemma StateIs(words: seq<nat>, bits: nat, padded: bool, index: nat)
    requires 4 <= bits <= 12 && Layout(|words|, bits) == Some(padded) && index < STATES
    ensures var word := WordIndex(bits, padded, index);
            && word < |words| && (Spills(bits, padded, index) ==> word + 1 < |words|)
            && States(words, bits, padded)(index) == StateAt(words, bits, padded, index)
  {
    WordInBounds(bits, padded, index);
  }

  /** Lines 126-130: a palette index out of the long array's bytes. */
  method ReadState(data: seq<Byte>, bits: nat, padded: bool, index: nat) returns (state: nat)
    requires HoldsWords(data, bits, padded) && index < STATES
    ensures state == States(WordsOf(data[4..]), bits, padded)(index)
    ensures state == Cells.Number(BitsOf(data[4..]), FirstBit(bits, padded, index), bits)
  {
    StateIsNumber(data[4..], bits, padded, index);
    ghost var words := WordsOf(data[4..]);
    StateIs(words, bits, padded, index);
    var word, shift := WordIndex(bits, padded, index), Shift(bits, padded, index);
    var low, high := ReadWord(data, word), 0;
    if Spills(bits, padded, index) {
      high := ReadWord(data, word + 1);
    }
    var value := Shr(low, shift);
    if Spills(bits, padded, index) {
      value := Or(value, Shl(high, 64 - shift, 64));
    }
    state := value % Pow2(bits);
    assert state == StateAt(words, bits, padded, index);
  }

  /** `u64(data.p + 4 + word * 8)` */
  function ReadWord(data: seq<Byte>, word: nat): (w: nat)
    requires |data| >= 4 && (|data| - 4) % 8 == 0 && word < (|data| - 4) / 8
    ensures w == WordsOf(data[4..])[word]
  {
    WordBytes(data, word);
    Be64(data, 4 + word * 8)
  }

  lemma Be32InSlice(s: seq<Byte>, from: nat, i: nat)
    requires from + i + 4 <= |s|
    ensures Be32(s[from..], i) == Be32(s, from + i)
  {
  }

  lemma Be64InSlice(s: seq<Byte>, from: nat, i: nat)
    requires from + i + 8 <= |s|
    ensures Be64(s[from..], i) == Be64(s, from + i)
  {
    Be32InSlice(s, from, i);
    Be32InSlice(s, from, i + 4);
  }

  lemma WordFits(size: nat, i: nat)
    requires size % 8 == 0 && i < size / 8
    ensures i * 8 + 8 <= size
  {
  }

  lemma WordBytes(data: seq<Byte>, i: nat)
    requires |data| >= 4 && (|data| - 4) % 8 == 0 && i < (|data| - 4) / 8
    ensures 4 + i * 8 + 8 <= |data| && Be64(data, 4 + i * 8) == WordsOf(data[4..])[i]
  {
    WordFits(|data| - 4, i);
    Be64InSlice(data, 4, i * 8);
  }

  /** A cell's palette index: stored when the palette has a choice, 0 otherwise (lines 124-131). */
  method ReadCell(count: nat, data: seq<Byte>, bits: nat, padded: bool, index: nat, ghost state: nat -> nat)
    returns (n: nat)
    requires index < STATES && HoldsStates(count, data, bits, padded, state)
    ensures n == state(index)
  {
    n := 0;
    if count > 1 {
      n := ReadState(data, bits, padded, index);
    }
  }

  /** `state` is what the cells hold: the long array's states, or all 0 for a single palette entry. */
  ghost predicate HoldsStates(count: nat, data: seq<Byte>, bits: nat, padded: bool, state: nat -> nat) {
    if count > 1
    then HoldsWords(data, bits, padded)
         && forall i {:trigger States(WordsOf(data[4..]), bits, padded)(i)} ::
              0 <= i < STATES ==> state(i) == States(WordsOf(data[4..]), bits, padded)(i)
    else forall i :: 0 <= i < STATES ==> state(i) == 0
  }

  /** The inner loop at lines 122-134: what the column shows after this section. */
  method ScanColumn(y: int, colors: seq<nat>, data: seq<Byte>, bits: nat, padded: bool, column: nat, seen: Column,
                    ghost s: Section)
    returns (ok: bool, shown: Column)
    requires column < COLUMNS && ValidSection(s) && s.y == y && s.colors == colors
    requires HoldsStates(|colors|, data, bits, padded, s.state)
    ensures Scan(s, column, 15, seen) == if ok then Some(shown) else None
  {
    var ly := 15;
    while ly >= 0
      invariant -1 <= ly <= 15
      invariant Scan(s, column, 15, seen) == Scan(s, column, ly, seen)
    {
      var height := y * 16 + ly;
      if height <= seen.height {
        return true, seen;
      }
      var index := ly * 256 + column;
      var state := ReadCell(|colors|, data, bits, padded, index, s.state);
      if state >= |colors| {
        return false, seen;
      }
      if colors[state] != 0 {
        return true, Column(height, colors[state]);
      }
      ly := ly - 1;
    }
    return true, seen;
  }

  method ScanColumns(y: int, colors: seq<nat>, data: seq<Byte>, bits: nat, padded: bool,
                     pixels: array<nat>, heights: array<int>, ghost s: Section)
    returns (ok: bool)
    requires pixels.Length == heights.Length == COLUMNS && pixels as object != heights as object
    requires ValidSection(s) && s.y == y && s.colors == colors && HoldsStates(|colors|, data, bits, padded, s.state)
    modifies pixels, heights
    ensures ScanAll(s, old(ColumnsOf(pixels, heights))) == if ok then Some(ColumnsOf(pixels, heights)) else None
  {
    ghost var before := ColumnsOf(pixels, heights);
    for column := 0 to COLUMNS
      invariant forall c :: 0 <= c < column ==> Scan(s, c, 15, before[c]) == Some(Column(heights[c], pixels[c]))
      invariant forall c :: column <= c < COLUMNS ==> Column(heights[c], pixels[c]) == before[c]
    {
      var shown;
      ok, shown := ScanColumn(y, colors, data, bits, padded, column, Column(heights[column], pixels[column]), s);
      if !ok {
        return false;
      }
      pixels[column], heights[column] := shown.color, shown.height;
    }
    ok := true;
    assert ScanAll(s, before).value == ColumnsOf(pixels, heights);
  }

  // ----- lines 97-118: the section's tags -----

  /** A tag cut from an accepted tree: its kind tells the shape of the value. */
  lemma TagShape(o: Option<Nbt>)
    requires o.Some? ==> Proper(o.value)
    ensures var t := TagOfOption(o);
            && (t.kind == 0 <==> o.None?)
            && (t.kind == 1 <==> o.Some? && o.value.Number? && o.value.kind == 1)
            && (t.kind == 3 <==> o.Some? && o.value.Number? && o.value.kind == 3)
            && (t.kind == 8 <==> o.Some? && o.value.Text?)
            && (t.kind == 9 <==> o.Some? && o.value.List?)
            && (t.kind == 10 <==> o.Some? && o.value.Compound?)
            && (t.kind == 12 <==> o.Some? && o.value.Array? && o.value.kind == 12)
  {
  }

  /** Lines 99-102 */
  method ReadHeight(section: Tag, ghost v: Nbt) returns (y: Option<int>)
    requires Accepted(v) && section == TagOf(v)
    ensures Child(v, Ascii("Y")).Some? ==> Proper(Child(v, Ascii("Y")).value)
    ensures y == HeightOf(Child(v, Ascii("Y")))
  {
    FieldIsChild(v, Ascii("Y"));
    var t := FindField(section, Ascii("Y"));
    TagShape(Child(v, Ascii("Y")));
    if t.kind == 1 {
      return Some(SignedByte(t.bytes[0]));
    } else if t.kind == 3 {
      return SectionInt(Be32(t.bytes, 0));
    }
    return None;
  }

  lemma ListHeader(item: Byte, n: Word32, body: seq<Byte>)
    ensures var b := [item] + (Be32Bytes(n) + body); |b| >= 5 && b[0] == item && Be32(b, 1) == n && b[5..] == body
  {
    var b := [item] + (Be32Bytes(n) + body);
    assert b[1..5] == Be32Bytes(n);
    Be32RoundTrip(b, 1, n);
  }

  lemma ListTag(l: Nbt)
    requires l.List? && Proper(l)
    ensures var b := Write(l);
            && |b| >= 5 && b[0] == l.item && Be32(b, 1) == Count(l.elems) && b[5..] == WriteItems(l.item, l.elems)
  {
    ListHeader(l.item, Count(l.elems), WriteItems(l.item, l.elems));
  }

  lemma ArrayTag(a: Nbt)
    requires a.Array? && Proper(a)
    ensures var b := Write(a); |b| == 4 + |a.payload| && Be32(b, 0) == a.count && b[4..] == a.payload
  {
    var b := Write(a);
    assert b[0..4] == Be32Bytes(a.count);
    Be32RoundTrip(b, 0, a.count);
  }

  /** The next element of a list of compounds: the walk cannot fail on it. */
  method NextCompound(r: Reader, ghost todo: Items) returns (ok: bool, tag: Tag)
    requires todo.Item? && AcceptedItems(10, todo) && r.unread == WriteItems(10, todo) && ItemsSize(todo) <= r.remaining
    modifies r
    ensures ok && Accepted(todo.head) && tag == TagOf(todo.head)
    ensures AcceptedItems(10, todo.tail) && r.unread == WriteItems(10, todo.tail) && ItemsSize(todo.tail) <= r.remaining
  {
    ghost var rest := WriteItems(10, todo.tail);
    ReadWritten(todo.head, rest, 0, r.remaining);
    var start := r.unread;
    ok := r.Skip(10, 0);
    PrefixOf(Write(todo.head), rest);
    tag := Tag(10, start[..|start| - |r.unread|]);
  }

  /** Lines 107-113 */
  method ReadColours(palette: Tag, ghost l: Items, colour: Colours) returns (ok: bool, colors: seq<nat>)
    requires AcceptedItems(10, l) && Count(l) < TWO32
    requires |palette.bytes| >= 5 && Be32(palette.bytes, 1) == Count(l) && palette.bytes[5..] == WriteItems(10, l)
    ensures ok == (0 < Count(l) <= 4096) && (ok ==> colors == ColoursOf(l, colour))
  {
    var count := Be32(palette.bytes, 1);
    colors := [];
    if count == 0 || count > 4096 {
      return false, colors;
    }
    var r := new Reader(palette.bytes[5..], BUDGET);
    ghost var todo := l;
    for i := 0 to count
      invariant AcceptedItems(10, todo) && r.unread == WriteItems(10, todo) && ItemsSize(todo) <= r.remaining
      invariant Count(todo) == count - i && colors + ColoursOf(todo, colour) == ColoursOf(l, colour)
    {
      var tag;
      ok, tag := NextCompound(r, todo);
      if !ok {
        return false, colors;
      }
      ghost var head := todo.head;
      FieldIsChild(head, Ascii("Name"));
      var name := FindField(tag, Ascii("Name"));
      assert ColoursOf(todo, colour) == [colour(name)] + ColoursOf(todo.tail, colour);
      colors := colors + [colour(name)];
      todo := todo.tail;
    }
    return true, colors;
  }

  /** Lines 103-105: palette and data, from "block_states" when it is a compound, else from the section. */
  method ReadHolder(section: Tag, ghost v: Nbt) returns (palette: Tag, data: Tag)
    requires Accepted(v) && section == TagOf(v)
    ensures Accepted(Holder(v))
    ensures var p, d := Child(Holder(v), PaletteKey(v)), Child(Holder(v), DataKey(v));
            && (p.Some? ==> Accepted(p.value)) && (d.Some? ==> Accepted(d.value))
            && palette == TagOfOption(p) && data == TagOfOption(d)
  {
    HolderAccepted(v);
    FieldIsChild(v, Ascii("block_states"));
    TagShape(Child(v, Ascii("block_states")));
    FieldIsChild(Holder(v), PaletteKey(v));
    FieldIsChild(Holder(v), DataKey(v));
    var states := FindField(section, Ascii("block_states"));
    var holder := if states.kind == 10 then states else section;
    palette := FindField(holder, if states.kind == 10 then Ascii("palette") else Ascii("Palette"));
    data := FindField(holder, if states.kind == 10 then Ascii("data") else Ascii("BlockStates"));
  }

  lemma CountHeld(d: Option<Nbt>, data: Tag)
    requires (d.Some? ==> Accepted(d.value)) && data == TagOfOption(d)
    ensures data.kind == 12 <==> d.Some? && d.value.Array? && d.value.kind == 12
    ensures data.kind == 12 ==> |data.bytes| >= 4 && data.bytes[4..] == d.value.payload
    ensures data.kind == 12 ==> (|data.bytes| - 4) % 8 == 0 && Be32(data.bytes, 0) == (|data.bytes| - 4) / 8
  {
    TagShape(d);
    if data.kind == 12 {
      ArrayTag(d.value);
    }
  }

  /** The long array's count is its number of words; without one there are none. */
  lemma WordCount(v: Nbt, data: Tag)
    requires Accepted(v) && Accepted(Holder(v))
    requires var d := Child(Holder(v), DataKey(v)); (d.Some? ==> Accepted(d.value)) && data == TagOfOption(d)
    ensures if data.kind == 12
            then && |data.bytes| >= 4 && (|data.bytes| - 4) % 8 == 0 && Be32(data.bytes, 0) == (|data.bytes| - 4) / 8
                 && DataOf(v) == WordsOf(data.bytes[4..])
            else DataOf(v) == []
  {
    CountHeld(Child(Holder(v), DataKey(v)), data);
  }

  lemma CellsHeld(count: nat, data: seq<Byte>, bits: nat, padded: bool, words: seq<nat>)
    requires count > 1 && 4 <= bits <= 12 && |data| >= 4 && (|data| - 4) % 8 == 0 && words == WordsOf(data[4..])
    requires Layout(|words|, bits) == Some(padded)
    ensures HoldsStates(count, data, bits, padded, States(words, bits, padded))
  {
    assert HoldsWords(data, bits, padded);
  }

  /** The checks at lines 114-118 accept exactly the buildable sections, and the cells are theirs. */
  lemma SectionRead(y: int, colors: seq<nat>, data: Tag, bits: nat, words: seq<nat>)
    requires -2048 <= y <= 2047 && 0 < |colors| <= 4096 && bits == BitsFor(|colors|, 4)
    requires if data.kind == 12
             then |data.bytes| >= 4 && (|data.bytes| - 4) % 8 == 0 && words == WordsOf(data.bytes[4..])
             else words == []
    ensures var padded := |words| == PaddedWords(bits);
            var s := BuildSection(y, colors, words);
            if |colors| > 1 && !padded && |words| != StraddlingWords(bits) then s.None?
            else s.Some? && s.value.y == y && s.value.colors == colors
                 && HoldsStates(|colors|, data.bytes, bits, padded, s.value.state)
                 && (|colors| == 1 ==> forall i :: s.value.state(i) == 0)
  {
    if |colors| > 1 {
      NoWordsNoLayout(bits);
      if Layout(|words|, bits).Some? {
        ManyRead(y, colors, data.bytes, bits, words);
      }
    } else {
      OneRead(y, colors, words);
    }
  }

  lemma OneRead(y: int, colors: seq<nat>, words: seq<nat>)
    requires -2048 <= y <= 2047 && |colors| == 1
    ensures var s := BuildSection(y, colors, words);
            s.Some? && s.value.y == y && s.value.colors == colors && forall i :: s.value.state(i) == 0
  {
  }

  lemma ManyRead(y: int, colors: seq<nat>, data: seq<Byte>, bits: nat, words: seq<nat>)
    requires -2048 <= y <= 2047 && 1 < |colors| <= 4096 && bits == BitsFor(|colors|, 4)
    requires |data| >= 4 && (|data| - 4) % 8 == 0 && words == WordsOf(data[4..])
    requires Layout(|words|, bits).Some?
    ensures var s := BuildSection(y, colors, words);
            s.Some? && s.value.y == y && s.value.colors == colors
            && HoldsStates(|colors|, data, bits, Layout(|words|, bits).value, s.value.state)
  {
    CellsHeld(|colors|, data, bits, Layout(|words|, bits).value, words);
  }

  lemma NoWordsNoLayout(bits: nat)
    requires 4 <= bits <= 12
    ensures PaddedWords(bits) != 0 && StraddlingWords(bits) != 0
  {
    StraddlingIsExact(bits);
  }

  /** Lines 114-136 */
  method ScanSection(y: int, colors: seq<nat>, data: Tag, pixels: array<nat>, heights: array<int>,
                     ghost v: Nbt, colour: Colours)
    returns (ok: bool)
    requires Accepted(v) && PaletteOf(v).Some? && 0 < |colors| <= 4096
    requires AcceptedItems(10, PaletteOf(v).value) && colors == ColoursOf(PaletteOf(v).value, colour)
    requires var h := Child(v, Ascii("Y")); (h.Some? ==> Proper(h.value)) && HeightOf(h) == Some(y)
    requires Accepted(Holder(v))
    requires var d := Child(Holder(v), DataKey(v)); (d.Some? ==> Accepted(d.value)) && data == TagOfOption(d)
    requires pixels.Length == heights.Length == COLUMNS && pixels as object != heights as object
    modifies pixels, heights
    ensures var s := SectionOf(v, colour);
            var after := if s.None? then None else ScanAll(s.value, old(ColumnsOf(pixels, heights)));
            after == if ok then Some(ColumnsOf(pixels, heights)) else None
  {
    WordCount(v, data);
    var bits := BitsFor(|colors|, 4);
    var words := if data.kind == 12 then Be32(data.bytes, 0) else 0;
    var padded := words == PaddedWords(bits);
    SectionRead(y, colors, data, bits, DataOf(v));
    if |colors| > 1 && !padded && words != StraddlingWords(bits) {
      return false;
    }
    ghost var s := SectionOf(v, colour).value;
    if |colors| == 1 && colors[0] == 0 {
      SkippedEverywhere(s, ColumnsOf(pixels, heights));
      return true;
    }
    ok := ScanColumns(y, colors, data.bytes, bits, padded, pixels, heights, s);
  }

  lemma SkippedEverywhere(s: Section, before: seq<Column>)
    requires ValidSection(s) && |before| == COLUMNS && s.colors == [0] && forall i :: s.state(i) == 0
    ensures ScanAll(s, before) == Some(before)
  {
    forall c | 0 <= c < COLUMNS
      ensures Scan(s, c, 15, before[c]) == Some(before[c])
    {
      UniformAirIsSkipped(s, c, before[c]);
    }
    assert ScanAll(s, before).value == before;
  }

  /** `section_pixels` */
  method SectionPixels(section: Tag, pixels: array<nat>, heights: array<int>, colour: Colours, ghost v: Nbt)
    returns (ok: bool)
    requires Accepted(v) && section == TagOf(v)
    requires pixels.Length == heights.Length == COLUMNS && pixels as object != heights as object
    modifies pixels, heights
    ensures var s := SectionOf(v, colour);
            var after := if s.None? then None else ScanAll(s.value, old(ColumnsOf(pixels, heights)));
            after == if ok then Some(ColumnsOf(pixels, heights)) else None
  {
    var y := ReadHeight(section, v);
    if y.None? {
      return false;
    }
    var palette, data := ReadHolder(section, v);
    ghost var p := Child(Holder(v), PaletteKey(v));
    TagShape(p);
    if palette.kind != 9 {
      return false;
    }
    ListTag(p.value);
    if palette.bytes[0] != 10 {
      return false;
    }
    var colors;
    ok, colors := ReadColours(palette, p.value.elems, colour);
    if !ok {
      return false;
    }
    ok := ScanSection(y.value, colors, data, pixels, heights, v, colour);
  }

  // ----- lines 142-167: the chunk -----

  /** `equals` */
  predicate TagEquals(t: Tag, text: string) {
    t.kind == 8 && |t.bytes| == |text| + 2 && t.bytes[2..] == Ascii(text)
  }

  lemma TagEqualsIsText(o: Option<Nbt>, text: string)
    requires (o.Some? ==> Proper(o.value)) && |text| < 0x1_0000
    ensures TagEquals(TagOfOption(o), text) <==> IsText(o, text)
  {
    TagShape(o);
    if o.Some? && o.value.Text? {
      assert Write(o.value)[2..] == o.value.text;
    }
  }

  /** Lines 149-153: the level, and whether the chunk is fully generated. */
  method ReadRoot(root: Tag, ghost v: Nbt) returns (level: Tag, generated: bool)
    requires Accepted(v) && root == TagOf(v)
    ensures Accepted(RootOf(v)) && level == TagOf(RootOf(v))
    ensures var status := Child(RootOf(v), Ascii("Status"));
            generated <==> status.None? || IsText(status, "minecraft:full") || IsText(status, "full")
  {
    RootAccepted(v);
    FieldIsChild(v, Ascii("Level"));
    TagShape(Child(v, Ascii("Level")));
    level := FindField(root, Ascii("Level"));
    if level.kind != 10 {
      level := root;
    }
    FieldIsChild(RootOf(v), Ascii("Status"));
    ghost var found := Child(RootOf(v), Ascii("Status"));
    TagShape(found);
    TagEqualsIsText(found, "minecraft:full");
    TagEqualsIsText(found, "full");
    var status := FindField(level, Ascii("Status"));
    generated := status.kind == 0 || TagEquals(status, "minecraft:full") || TagEquals(status, "full");
  }

  /** Line 154 */
  method ReadSections(level: Tag, ghost v: Nbt) returns (sections: Tag)
    requires Accepted(v) && level == TagOf(v)
    ensures SectionsOf(v).Some? ==> Accepted(SectionsOf(v).value)
    ensures sections == TagOfOption(SectionsOf(v))
  {
    SectionsAccepted(v);
    FieldIsChild(v, Ascii("sections"));
    FieldIsChild(v, Ascii("Sections"));
    TagShape(Child(v, Ascii("sections")));
    sections := FindField(level, Ascii("sections"));
    if sections.kind == 0 {
      sections := FindField(level, Ascii("Sections"));
    }
  }

  /** Line 163 */
  method IsDescribed(section: Tag, ghost v: Nbt) returns (yes: bool)
    requires Accepted(v) && section == TagOf(v)
    ensures yes <==> Described(v)
  {
    FieldIsChild(v, Ascii("block_states"));
    FieldIsChild(v, Ascii("Palette"));
    TagShape(Child(v, Ascii("block_states")));
    TagShape(Child(v, Ascii("Palette")));
    var states := FindField(section, Ascii("block_states"));
    var palette := FindField(section, Ascii("Palette"));
    yes := states.kind != 0 || palette.kind != 0;
  }

  /** What the section loop has left to do. */
  ghost predicate Remaining(l: Items, todo: Items, colour: Colours, now: seq<Column>, valid: nat)
    requires AcceptedItems(10, l) && AcceptedItems(10, todo) && |now| == COLUMNS
  {
    && Process(SectionsIn(todo, colour), now) == Process(SectionsIn(l, colour), Unseen())
    && |SectionsIn(l, colour)| == valid + |SectionsIn(todo, colour)|
  }

  lemma OneSection(todo: Items, colour: Colours, now: seq<Column>)
    requires todo.Item? && AcceptedItems(10, todo) && |now| == COLUMNS
    ensures var all, rest := SectionsIn(todo, colour), SectionsIn(todo.tail, colour);
            if Described(todo.head) then
              && |all| == 1 + |rest|
              && Process(all, now)
                 == var s := SectionOf(todo.head, colour);
                    var after := if s.None? then None else ScanAll(s.value, now);
                    if after.None? then None else Process(rest, after.value)
            else all == rest
  {
    if Described(todo.head) {
      var all := SectionsIn(todo, colour);
      assert all[1..] == SectionsIn(todo.tail, colour) && all[0] == SectionOf(todo.head, colour);
    }
  }

  /** Lines 158-166; the walk over the list itself cannot fail. */
  method SectionLoop(sections: Tag, pixels: array<nat>, heights: array<int>, colour: Colours, ghost l: Items)
    returns (ok: bool, valid: nat)
    requires AcceptedItems(10, l) && Count(l) < TWO32
    requires |sections.bytes| >= 5 && Be32(sections.bytes, 1) == Count(l) && sections.bytes[5..] == WriteItems(10, l)
    requires pixels.Length == heights.Length == COLUMNS && pixels as object != heights as object
    requires ColumnsOf(pixels, heights) == Unseen()
    modifies pixels, heights
    ensures Process(SectionsIn(l, colour), Unseen()) == if ok then Some(ColumnsOf(pixels, heights)) else None
    ensures ok ==> valid == |SectionsIn(l, colour)|
  {
    var list := new Reader(sections.bytes[5..], BUDGET);
    ghost var todo := l;
    valid := 0;
    for i := 0 to Be32(sections.bytes, 1)
      invariant AcceptedItems(10, todo) && list.unread == WriteItems(10, todo) && ItemsSize(todo) <= list.remaining
      invariant Count(todo) == Count(l) - i
      invariant Remaining(l, todo, colour, ColumnsOf(pixels, heights), valid)
    {
      ghost var now := ColumnsOf(pixels, heights);
      OneSection(todo, colour, now);
      var read, section := NextCompound(list, todo);
      assert ColumnsOf(pixels, heights) == now;
      var described := IsDescribed(section, todo.head);
      if described {
        ok := SectionPixels(section, pixels, heights, colour, todo.head);
        if !ok {
          return false, valid;
        }
        valid := valid + 1;
      }
      todo := todo.tail;
    }
    return true, valid;
  }

  /** `pumpkin_map_decode_terrain`, up to the shading of the tile. */
  method DecodeTerrain(nbt: seq<Byte>, colour: Colours) returns (r: Result<seq<Column>>)
    ensures r == Decoded(nbt, colour)
  {
    if |nbt| < 4 || |nbt| > MAX_NBT || nbt[0] != 10 {
      return Error(InvalidRoot);
    }
    var reader := new Reader(nbt[1..], BUDGET);
    var ok, name := reader.TextValue();
    if !ok {
      return Error(TruncatedRoot);
    }
    var start := reader.unread;
    ok := reader.Skip(10, 0);
    if !ok || reader.unread != [] {
      return Error(InvalidTree);
    }
    RootIsAccepted(start);
    ghost var v := Read(10, start, 0, BUDGET).value.value;
    r := DecodeTree(Tag(10, start), colour, v);
  }

  method DecodeTree(root: Tag, colour: Colours, ghost v: Nbt) returns (r: Result<seq<Column>>)
    requires Accepted(v) && root == TagOf(v)
    ensures r == TerrainOf(v, colour)
  {
    var level, generated := ReadRoot(root, v);
    if !generated {
      return Error(NotGenerated);
    }
    var sections := ReadSections(level, RootOf(v));
    ghost var s := SectionsOf(RootOf(v));
    TagShape(s);
    if sections.kind != 9 {
      return Error(UnsupportedSections);
    }
    ListTag(s.value);
    if sections.bytes[0] != 10 || Be32(sections.bytes, 1) > 64 {
      return Error(UnsupportedSections);
    }
    var pixels, heights := new nat[COLUMNS](i => 0), new int[COLUMNS](i => UNSEEN);
    assert ColumnsOf(pixels, heights) == Unseen();
    var ok, valid := SectionLoop(sections, pixels, heights, colour, s.value.elems);
    if !ok {
      return Error(InvalidPalette);
    }
    if valid == 0 {
      return Error(NoTerrain);
    }
    var columns := new Column[COLUMNS](i requires 0 <= i < COLUMNS reads pixels, heights =>
      Column(heights[i], pixels[i]));
    assert columns[..] == ColumnsOf(pixels, heights);
    return Success(columns[..]);
  }
}
