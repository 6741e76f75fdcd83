/**
 The top-down column scan (`section_pixels`, lines 119-136): for every column, the
 colour and height of the highest block that is not air, over all sections.
 */
module Surface {
  import opened Wrappers

  const COLUMNS: nat := 256
  const UNSEEN: int := -0x8000_0000  // G_MININT

  /** A section sixteen blocks high: its palette's colours, colour 0 being air, and the palette index of each cell. */
  datatype Section = Section(y: int, colors: seq<nat>, state: nat -> nat)

  predicate ValidSection(s: Section) {
    -2048 <= s.y <= 2047
  }

  function CellIndex(column: nat, ly: nat): (i: nat)
    requires column < COLUMNS && ly < 16
    ensures i < 4096
  {
    ly * 256 + column
  }

  /** The colour at a height of a column, if the section says. */
  function ColorIn(s: Section, column: nat, height: int): Option<nat>
    requires ValidSection(s) && column < COLUMNS
  {
    var ly := height - 16 * s.y;
    if 0 <= ly < 16 then
      var state := s.state(CellIndex(column, ly));
      if state < |s.colors| then Some(s.colors[state]) else None
    else Some(0)
  }

  predicate Solid(s: Section, column: nat, height: int)
    requires ValidSection(s) && column < COLUMNS
  {
    ColorIn(s, column, height) != Some(0)
  }

  datatype Column = Column(height: int, color: nat)

  /** The inner loop from `ly` down, given what the column shows so far; None is an invalid palette index. */
  function Scan(s: Section, column: nat, ly: int, seen: Column): Option<Column>
    requires ValidSection(s) && column < COLUMNS && -1 <= ly < 16
    decreases ly + 1
  {
    var height := 16 * s.y + ly;
    if ly < 0 || height <= seen.height then Some(seen) else
    var color := ColorIn(s, column, height);
    if color.None? then None
    else if color.value == 0 then Scan(s, column, ly - 1, seen)
    else Some(Column(height, color.value))
  }

  // ----- what the scan finds -----

  /** The highest solid cell above what is already seen decides, and an invalid index there is an error. */
  lemma {:induction false} ScanFinds(s: Section, column: nat, ly: int, seen: Column) returns (found: bool, h: int)
    requires ValidSection(s) && column < COLUMNS && -1 <= ly < 16
    ensures !found ==> NoneSolid(s, column, 16 * s.y + ly, seen.height) && Scan(s, column, ly, seen) == Some(seen)
    ensures found ==> TopSolid(s, column, 16 * s.y + ly, seen.height, h)
                      && Scan(s, column, ly, seen) == ShownAt(s, column, h)
    decreases ly + 1
  {
    var height := 16 * s.y + ly;
    if ly < 0 || height <= seen.height {
      found, h := false, height;
      forall h' | seen.height < h' <= height
        ensures !Solid(s, column, h')
      {
      }
    } else if Solid(s, column, height) {
      found, h := true, height;
    } else {
      found, h := ScanFinds(s, column, ly - 1, seen);
    }
  }

  function ShownAt(s: Section, column: nat, h: int): Option<Column>
    requires ValidSection(s) && column < COLUMNS
  {
    var color := ColorIn(s, column, h);
    if color.None? then None else Some(Column(h, color.value))
  }

  ghost predicate NoneSolid(s: Section, column: nat, top: int, below: int)
    requires ValidSection(s) && column < COLUMNS
  {
    forall h :: below < h <= top ==> !Solid(s, column, h)
  }

  /** `h` is the highest solid cell of the section in (below, top]. */
  ghost predicate TopSolid(s: Section, column: nat, top: int, below: int, h: int)
    requires ValidSection(s) && column < COLUMNS
  {
    && below < h <= top && Solid(s, column, h)
    && forall h' :: h < h' <= top ==> !Solid(s, column, h')
  }

  // ----- the simple definition -----

  /** No palette index out of range anywhere in the column. */
  ghost predicate Readable(s: Section, column: nat)
    requires ValidSection(s) && column < COLUMNS
  {
    forall h :: ColorIn(s, column, h).Some?
  }

  ghost predicate AllValid(l: seq<Section>) {
    forall i :: 0 <= i < |l| ==> ValidSection(l[i])
  }

  ghost predicate AllReadable(l: seq<Section>, column: nat)
    requires AllValid(l) && column < COLUMNS
  {
    forall i :: 0 <= i < |l| ==> Readable(l[i], column)
  }

  /** The block at a height: of sections that overlap there, the earliest in the list that is not air. */
  function BlockAt(l: seq<Section>, column: nat, height: int): nat
    requires AllValid(l) && column < COLUMNS
  {
    if l == [] then 0 else
    var before := BlockAt(l[..|l| - 1], column, height);
    if before != 0 then before else
    var here := ColorIn(l[|l| - 1], column, height);
    if here.Some? then here.value else 0
  }

  /** Height and colour of the highest block that is not air; UNSEEN and 0 when there is none. */
  ghost predicate IsSurface(l: seq<Section>, column: nat, c: Column)
    requires AllValid(l) && column < COLUMNS
  {
    && (forall h :: h > c.height ==> BlockAt(l, column, h) == 0)
    && c.color == BlockAt(l, column, c.height)
    && (c.color == 0 ==> c.height == UNSEEN)
    && (c.color != 0 ==> c.height > UNSEEN)
  }

  lemma SurfaceIsUnique(l: seq<Section>, column: nat, c: Column, d: Column)
    requires AllValid(l) && column < COLUMNS && IsSurface(l, column, c) && IsSurface(l, column, d)
    ensures c == d
  {
  }

  lemma OutsideIsAir(s: Section, column: nat, h: int)
    requires ValidSection(s) && column < COLUMNS && (h <= UNSEEN || h > 16 * s.y + 15)
    ensures !Solid(s, column, h)
  {
  }

  lemma NothingSeen(column: nat)
    requires column < COLUMNS
    ensures IsSurface([], column, Column(UNSEEN, 0))
  {
  }

  lemma BlockAfter(l: seq<Section>, s: Section, column: nat, h: int)
    requires AllValid(l) && ValidSection(s) && column < COLUMNS
    ensures AllValid(l + [s])
    ensures BlockAt(l + [s], column, h) == if BlockAt(l, column, h) != 0 then BlockAt(l, column, h)
                                           else if ColorIn(s, column, h).Some? then ColorIn(s, column, h).value else 0
  {
    var m := l + [s];
    assert m[..|m| - 1] == l && m[|m| - 1] == s;
  }

  /** The highest non-zero value of a profile that vanishes at and below UNSEEN. */
  ghost predicate IsTop(profile: int -> nat, c: Column) {
    && (forall h :: h > c.height ==> profile(h) == 0)
    && c.color == profile(c.height)
    && (if c.color == 0 then c.height == UNSEEN else c.height > UNSEEN)
  }

  /** `l` is what was seen, `s` what a section adds below and above it. */
  lemma TopOfBoth(l: int -> nat, s: int -> nat, both: int -> nat, top: int, seen: Column, found: bool, at: int)
    requires IsTop(l, seen) && forall h :: both(h) == if l(h) != 0 then l(h) else s(h)
    requires forall h :: h > top || h <= UNSEEN ==> s(h) == 0
    requires if found
             then seen.height < at <= top && s(at) != 0 && forall h :: at < h <= top ==> s(h) == 0
             else forall h :: seen.height < h <= top ==> s(h) == 0
    ensures IsTop(both, if found then Column(at, s(at)) else seen)
  {
  }

  /** The highest solid cell of a section, above `below`, has an invalid palette index. */
  ghost predicate Garbled(s: Section, column: nat, below: int)
    requires ValidSection(s) && column < COLUMNS
  {
    exists h :: TopSolid(s, column, 16 * s.y + 15, below, h) && ColorIn(s, column, h).None?
  }

  /** A scan fails exactly at such a cell; an invalid index anywhere else in the column is not noticed. */
  lemma ScanFailsExactlyWhen(s: Section, column: nat, seen: Column)
    requires ValidSection(s) && column < COLUMNS
    ensures Scan(s, column, 15, seen).None? <==> Garbled(s, column, seen.height)
    ensures Readable(s, column) ==> Scan(s, column, 15, seen).Some?
  {
    var found, at := ScanFinds(s, column, 15, seen);
    if Garbled(s, column, seen.height) {
      var h :| TopSolid(s, column, 16 * s.y + 15, seen.height, h) && ColorIn(s, column, h).None?;
      assert found && Solid(s, column, h) && Solid(s, column, at);
    }
  }

  /** A block on top that is valid hides whatever invalid index lies below it. */
  lemma HiddenIndexIsNotNoticed(s: Section, column: nat, h: int)
    requires ValidSection(s) && column < COLUMNS && 0 <= h - 16 * s.y < 15 && ColorIn(s, column, h).None?
    requires ColorIn(s, column, 16 * s.y + 15).Some? && ColorIn(s, column, 16 * s.y + 15) != Some(0)
    ensures !Readable(s, column) && Scan(s, column, 15, Column(UNSEEN, 0)).Some?
  {
    assert Solid(s, column, 16 * s.y + 15);
  }

  /** Such a section: every cell but those of the top layer has an index beyond the palette. */
  lemma SuchSection()
    ensures var s := Section(0, [0, 5], i => if i >= 15 * 256 then 1 else 9);
            ValidSection(s) && ColorIn(s, 0, 0).None? && ColorIn(s, 0, 15) == Some(5)
  {
  }

  /** One section scanned after `l` extends the surface of `l` to that of `l + [s]`. */
  lemma ScanExtendsSurface(l: seq<Section>, s: Section, column: nat, seen: Column)
    requires AllValid(l) && ValidSection(s) && column < COLUMNS && Scan(s, column, 15, seen).Some?
    requires IsSurface(l, column, seen)
    ensures AllValid(l + [s]) && IsSurface(l + [s], column, Scan(s, column, 15, seen).value)
  {
    var top := 16 * s.y + 15;
    var found, at := ScanFinds(s, column, 15, seen);
    var before := (h: int) => BlockAt(l, column, h);
    var here := (h: int) => var c := ColorIn(s, column, h); if c.Some? then c.value else 0;
    assert AllValid(l + [s]);
    var after := (h: int) => BlockAt(l + [s], column, h);
    forall h
      ensures !Solid(s, column, h) ==> here(h) == 0
      ensures after(h) == if before(h) != 0 then before(h) else here(h)
    {
      BlockAfter(l, s, column, h);
    }
    forall h | h > top || h <= UNSEEN
      ensures here(h) == 0
    {
      OutsideIsAir(s, column, h);
    }
    TopIsSurface(l, column, before, seen);
    TopOfBoth(before, here, after, top, seen, found, at);
    var c := if found then Column(at, here(at)) else seen;
    assert Scan(s, column, 15, seen) == Some(c);
    TopIsSurface(l + [s], column, after, c);
  }

  lemma TopIsSurface(l: seq<Section>, column: nat, profile: int -> nat, c: Column)
    requires AllValid(l) && column < COLUMNS && forall h :: profile(h) == BlockAt(l, column, h)
    ensures IsTop(profile, c) <==> IsSurface(l, column, c)
  {
  }

  // ----- order of sections -----

  ghost predicate DistinctY(l: seq<Section>) {
    forall i, j :: 0 <= i < j < |l| ==> l[i].y != l[j].y
  }

  lemma {:induction false} BlockComesFromSection(l: seq<Section>, column: nat, h: int) returns (i: nat)
    requires AllValid(l) && column < COLUMNS && BlockAt(l, column, h) != 0
    ensures i < |l| && ColorIn(l[i], column, h) == Some(BlockAt(l, column, h))
    decreases |l|
  {
    var n := |l| - 1;
    if BlockAt(l[..n], column, h) != 0 {
      i := BlockComesFromSection(l[..n], column, h);
    } else {
      i := n;
    }
  }

  lemma {:induction false} SectionShows(l: seq<Section>, column: nat, h: int, i: nat)
    requires AllValid(l) && column < COLUMNS && i < |l|
    requires ColorIn(l[i], column, h).Some? && ColorIn(l[i], column, h).value != 0
    ensures BlockAt(l, column, h) != 0
    ensures DistinctY(l) ==> BlockAt(l, column, h) == ColorIn(l[i], column, h).value
    decreases |l|
  {
    var n := |l| - 1;
    if i < n {
      SectionShows(l[..n], column, h, i);
    } else if BlockAt(l[..n], column, h) != 0 {
      var k := BlockComesFromSection(l[..n], column, h);
      assert l[k].y == l[i].y;
    }
  }

  ghost predicate SameSections(l: seq<Section>, m: seq<Section>) {
    && (forall i :: 0 <= i < |l| ==> l[i] in m)
    && (forall i :: 0 <= i < |m| ==> m[i] in l)
  }

  /** With distinct Y the list order does not matter, although the scan stops at what is already seen. */
  lemma OrderDoesNotMatter(l: seq<Section>, m: seq<Section>, column: nat, c: Column)
    requires AllValid(l) && AllValid(m) && column < COLUMNS && SameSections(l, m) && DistinctY(l) && DistinctY(m)
    requires IsSurface(l, column, c)
    ensures IsSurface(m, column, c)
  {
    forall h
      ensures BlockAt(l, column, h) == BlockAt(m, column, h)
    {
      BlockMoves(l, m, column, h);
      BlockMoves(m, l, column, h);
    }
  }

  lemma BlockMoves(l: seq<Section>, m: seq<Section>, column: nat, h: int)
    requires AllValid(l) && AllValid(m) && column < COLUMNS && SameSections(l, m) && DistinctY(m)
    ensures BlockAt(l, column, h) != 0 ==> BlockAt(m, column, h) == BlockAt(l, column, h)
  {
    if BlockAt(l, column, h) != 0 {
      var i := BlockComesFromSection(l, column, h);
      var j :| 0 <= j < |m| && m[j] == l[i];
      SectionShows(m, column, h, j);
    }
  }
}
