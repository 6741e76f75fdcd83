/**
 The inventory of saved chunks (`minimap-store.c`) and the lookup of one (`window-minimap.c`): the chunk list, the
 mask and the revisions of a region are built together and must agree, for negative coordinates too.
 */
module Regions {
  import opened Bits
  import opened Bytes
  import opened Wrappers

  // ----- coordinates -----

  datatype Chunk = Chunk(x: int, z: int)

  /** `(int)floor(x / 32.0)`; Dafny's division by a positive number rounds down. */
  function RegionOf(x: int): int {
    x / 32
  }

  /** The slot of a chunk in its region (`pumpkin_terrain_region_read`, `saved_chunk`). */
  function Slot(x: int, z: int): (i: nat)
    ensures i < 1024
  {
    (z - RegionOf(z) * 32) * 32 + x - RegionOf(x) * 32
  }

  /** The chunk of slot `i`, as the scan of a region file counts them (`read_region`). */
  function ChunkAt(rx: int, rz: int, i: nat): Chunk {
    Chunk(rx * 32 + i % 32, rz * 32 + i / 32)
  }

  /** Every chunk is the one in its slot of its region, and the slot is within the header. */
  lemma SlotIsChunk(x: int, z: int)
    ensures ChunkAt(RegionOf(x), RegionOf(z), Slot(x, z)) == Chunk(x, z)
  {
  }

  /** Every slot of a region is that of the chunk in it. */
  lemma ChunkIsSlot(rx: int, rz: int, i: nat)
    requires i < 1024
    ensures var chunk := ChunkAt(rx, rz, i);
            RegionOf(chunk.x) == rx && RegionOf(chunk.z) == rz && Slot(chunk.x, chunk.z) == i
  {
  }

  // ----- a region file -----

  const HEADER := 8192

  /** A regular file: its length, first bytes, modification time in microseconds and file ID, if it has one. */
  datatype RegionFile =
    RegionFile(x: int, z: int, size: nat, header: seq<Byte>, modified: nat, identity: Option<Word32>)

  function Location(header: seq<Byte>, i: nat): Word32
    requires |header| == HEADER && i < 1024
  {
    Be32(header, i * 4)
  }

  /** The slot's sectors lie within the file, after the header. */
  predicate Present(file: RegionFile, i: nat)
    requires |file.header| == HEADER && i < 1024
  {
    var location := Location(file.header, i);
    location / 256 >= 2 && location % 256 != 0 && (location / 256 + location % 256) * 4096 <= file.size
  }

  /** Place and time of the sectors; old writers leave the time out, and the file's own is used instead. */
  function Timed(file: RegionFile, i: nat): nat
    requires |file.header| == HEADER && i < 1024
  {
    var timestamp := Be32(file.header, 4096 + i * 4);
    var stamped := timestamp * TWO32 + Location(file.header, i);
    if timestamp == 0 then Xor(stamped, file.modified) else stamped
  }

  function Identified(file: RegionFile, revision: nat): nat {
    if file.identity.Some? then Xor(revision, file.identity.value * 0x1_0000) else revision
  }

  function Revision(file: RegionFile, i: nat): (r: nat)
    requires |file.header| == HEADER && i < 1024
    ensures r != 0
  {
    var revision := Identified(file, Timed(file, i));
    if revision != 0 then revision else 1
  }

  lemma {:induction false} XorCancels(a: nat, b: nat, c: nat)
    requires Xor(a, c) == Xor(b, c)
    ensures a == b
    decreases a + b + c
  {
    XorParts(a, c);
    XorParts(b, c);
    if a + b + c > 0 && (a > 0 || b > 0) {
      XorCancels(a / 2, b / 2, c / 2);
    }
  }

  lemma {:induction false} XorParts(a: nat, c: nat)
    ensures Xor(a, c) / 2 == Xor(a / 2, c / 2) && (Xor(a, c) % 2 == 1 <==> a % 2 != c % 2)
  {
    if a == 0 {
      assert Xor(0, c / 2) == c / 2;
    } else if c == 0 {
      assert Xor(a / 2, 0) == a / 2;
    }
  }

  /**
   The four bytes of a slot: where its sectors of 4096 bytes start and how many there are. It is present when they lie
   behind the header of two sectors and within the file.
   */
  lemma PresentIs(file: RegionFile, i: nat, a: nat, b: nat, c: nat, count: nat)
    requires |file.header| == 8192 && i < 1024
    requires a == file.header[4 * i] && b == file.header[4 * i + 1] && c == file.header[4 * i + 2]
    requires count == file.header[4 * i + 3]
    ensures var first := a * 65536 + b * 256 + c;
            Present(file, i) <==> first >= 2 && count >= 1 && 4096 * first + 4096 * count <= file.size
  {
    assert Location(file.header, i) == (a * 65536 + b * 256 + c) * 256 + count;
  }

  lemma {:induction false} SameTimed(file: RegionFile, other: RegionFile, i: nat)
    requires |file.header| == |other.header| == 8192 && i < 1024 && file.identity == other.identity
    requires Revision(file, i) == Revision(other, i) != 1
    ensures Timed(file, i) == Timed(other, i)
  {
    if file.identity.Some? {
      XorCancels(Timed(file, i), Timed(other, i), file.identity.value * 0x1_0000);
    }
  }

  /** A chunk that was saved again, at another time or place, has another revision (0 and 1 being one). */
  lemma {:induction false} RevisionTells(file: RegionFile, other: RegionFile, i: nat)
    requires |file.header| == |other.header| == 8192 && i < 1024 && file.identity == other.identity
    requires Revision(file, i) == Revision(other, i) != 1
    requires Be32(file.header, 4096 + 4 * i) != 0 && Be32(other.header, 4096 + 4 * i) != 0
    ensures Be32(file.header, 4096 + 4 * i) == Be32(other.header, 4096 + 4 * i)
    ensures Be32(file.header, 4 * i) == Be32(other.header, 4 * i)
  {
    SameTimed(file, other, i);
    HalvesAreSame(Be32(file.header, 4096 + 4 * i), Be32(file.header, 4 * i),
                  Be32(other.header, 4096 + 4 * i), Be32(other.header, 4 * i));
  }

  lemma HalvesAreSame(a: Word32, b: Word32, c: Word32, d: Word32)
    requires a * 0x1_0000_0000 + b == c * 0x1_0000_0000 + d
    ensures a == c && b == d
  {
  }

  /** Where a slot has no time, the file's own time tells. */
  lemma {:induction false} ModifiedTells(file: RegionFile, other: RegionFile, i: nat)
    requires |file.header| == |other.header| == 8192 && i < 1024 && file.identity == other.identity
    requires Revision(file, i) == Revision(other, i) != 1
    requires Be32(file.header, 4096 + 4 * i) == Be32(other.header, 4096 + 4 * i) == 0
    requires Be32(file.header, 4 * i) == Be32(other.header, 4 * i)
    ensures file.modified == other.modified
  {
    SameTimed(file, other, i);
    var location := Location(file.header, i);
    XorSymmetric(location, file.modified);
    XorSymmetric(location, other.modified);
    XorCancels(file.modified, other.modified, location);
  }

  lemma {:induction false} XorSymmetric(a: nat, b: nat)
    ensures Xor(a, b) == Xor(b, a)
    decreases a + b
  {
    if a != 0 && b != 0 {
      XorSymmetric(a / 2, b / 2);
    }
  }

  /** Another file with the same header tells, too. */
  lemma {:induction false} IdentityTells(file: RegionFile, other: RegionFile, i: nat)
    requires |file.header| == 8192 && i < 1024 && other.header == file.header && other.modified == file.modified
    requires Revision(file, i) == Revision(other, i) != 1 && file.identity.Some? && other.identity.Some?
    ensures file.identity == other.identity
  {
    var timed, a, b := Timed(file, i), file.identity.value * 0x1_0000, other.identity.value * 0x1_0000;
    XorSymmetric(timed, a);
    XorSymmetric(timed, b);
    XorCancels(a, b, timed);
  }

  /** The chunks of the first `n` slots, in order. */
  function ChunksOf(file: RegionFile, n: nat): seq<Chunk>
    requires |file.header| == HEADER && n <= 1024
  {
    if n == 0 then []
    else ChunksOf(file, n - 1) + if Present(file, n - 1) then [ChunkAt(file.x, file.z, n - 1)] else []
  }

  /** The chunks of a file: the header has eight bytes a slot. */
  function AllChunks(file: RegionFile): seq<Chunk>
    requires |file.header| == HEADER
  {
    ChunksOf(file, |file.header| / 8)
  }

  /** `chunk` is the one of `slot`, or of no slot of the file's region. */
  predicate Sits(file: RegionFile, chunk: Chunk, inside: bool, slot: nat) {
    forall i: nat {:trigger ChunkAt(file.x, file.z, i)} :: i < 1024 ==>
      (ChunkAt(file.x, file.z, i) == chunk <==> inside && i == slot)
  }

  lemma {:induction false} ChunksListed(file: RegionFile, n: nat, chunk: Chunk, inside: bool, slot: nat)
    requires |file.header| == HEADER && n <= 1024 && slot < 1024 && Sits(file, chunk, inside, slot)
    ensures chunk in ChunksOf(file, n) <==> inside && slot < n && Present(file, slot)
  {
    if n > 0 {
      ChunksListed(file, n - 1, chunk, inside, slot);
      assert ChunkAt(file.x, file.z, n - 1) == chunk <==> inside && n - 1 == slot;
    }
  }

  lemma {:induction false} SlotSits(file: RegionFile, chunk: Chunk)
    ensures Sits(file, chunk, RegionOf(chunk.x) == file.x && RegionOf(chunk.z) == file.z, Slot(chunk.x, chunk.z))
  {
    SlotIsChunk(chunk.x, chunk.z);
    forall i: nat | i < 1024
      ensures ChunkAt(file.x, file.z, i) == chunk
         <==> RegionOf(chunk.x) == file.x && RegionOf(chunk.z) == file.z && i == Slot(chunk.x, chunk.z)
    {
      ChunkIsSlot(file.x, file.z, i);
    }
  }

  /** The chunks listed are exactly those whose slot is present. */
  lemma {:induction false} ChunksAreThoseOf(file: RegionFile, n: nat, chunk: Chunk)
    requires |file.header| == HEADER && n <= 1024
    ensures chunk in ChunksOf(file, n) <==>
      RegionOf(chunk.x) == file.x && RegionOf(chunk.z) == file.z && Slot(chunk.x, chunk.z) < n
      && Present(file, Slot(chunk.x, chunk.z))
  {
    SlotSits(file, chunk);
    ChunksListed(file, n, chunk, RegionOf(chunk.x) == file.x && RegionOf(chunk.z) == file.z, Slot(chunk.x, chunk.z));
  }

  // ----- tiles and worlds -----

  class Tile {
    const x: int
    const z: int
    const stride: nat
    const mask: array<Byte>
    const revisions: array<nat>

    constructor (x: int, z: int, stride: nat)
      requires stride >= 32
      ensures this.x == x && this.z == z && this.stride == stride && Shaped() && fresh(mask) && fresh(revisions)
      ensures forall i :: 0 <= i < mask.Length ==> mask[i] == 0
      ensures forall i :: 0 <= i < 1024 ==> revisions[i] == 0
    {
      this.x, this.z, this.stride := x, z, stride;
      mask := new Byte[32 * stride](_ => 0);
      revisions := new nat[1024](_ => 0);
    }

    predicate Shaped() {
      stride >= 32 && mask.Length == 32 * stride && revisions.Length == 1024
    }

    /** The mask byte of slot `i`. */
    function At(i: nat): (k: nat)
      requires Shaped() && i < 1024
      ensures k < mask.Length
    {
      RowInBounds(i / 32, i % 32, stride);
      i / 32 * stride + i % 32
    }

    /** The mask and the revisions say the same of the first `n` slots, and nothing of the others. */
    ghost predicate Shows(file: RegionFile, n: nat)
      requires |file.header| == HEADER && n <= 1024
      reads mask, revisions
    {
      && Shaped() && x == file.x && z == file.z
      && (forall i :: 0 <= i < 1024 ==> revisions[i] == if i < n && Present(file, i) then Revision(file, i) else 0)
      && (forall i :: 0 <= i < 1024 ==> mask[At(i)] == if i < n && Present(file, i) then 255 else 0)
    }

    /** Slot `i` is present. */
    method Mark(i: nat, file: RegionFile)
      requires |file.header| == HEADER && i < 1024 && Shows(file, i) && Present(file, i)
      modifies mask, revisions
      ensures Shows(file, i + 1)
    {
      forall j | 0 <= j < 1024 && j != i ensures At(j) != At(i) {
        Separate(i, j);
      }
      mask[At(i)] := 255;
      revisions[i] := Revision(file, i);
    }

    lemma Separate(i: nat, j: nat)
      requires Shaped() && i < 1024 && j < 1024 && i != j
      ensures At(i) != At(j)
    {
      if i / 32 < j / 32 {
        RowBefore(i / 32, i % 32, j / 32, j % 32, stride);
      } else if j / 32 < i / 32 {
        RowBefore(j / 32, j % 32, i / 32, i % 32, stride);
      }
    }
  }

  lemma RowInBounds(row: nat, column: nat, stride: nat)
    requires row < 32 && column < 32 <= stride
    ensures row * stride + column < 32 * stride
  {
    RowBefore(row, column, 32, 0, stride);
  }

  lemma RowBefore(row: nat, column: nat, after: nat, other: nat, stride: nat)
    requires row < after && column < 32 <= stride
    ensures row * stride + column < after * stride + other
  {
    var more: nat := after - row - 1;
    assert after * stride == (row + 1 + more) * stride == row * stride + stride + more * stride;
    assert more * stride >= 0;
  }

  /** The tile whose entry in the index is put last, of those for one region. */
  function LastTile(tiles: seq<Tile>, rx: int, rz: int): Option<Tile> {
    if tiles == [] then None
    else
      var last := tiles[|tiles| - 1];
      if last.x == rx && last.z == rz then Some(last) else LastTile(tiles[..|tiles| - 1], rx, rz)
  }

  function Wrap(n: int): nat {
    n % TWO32
  }

  /** The 64-bit key of a region, from two 32-bit coordinates. */
  function IndexKey(x: int, z: int): nat {
    Wrap(x) * TWO32 + Wrap(z)
  }

  /** Coordinates that the scan accepts in a file name, and those of chunks whose block coordinates are 32-bit. */
  predicate InRange(x: int, z: int) {
    -0x800_0000 <= x < 0x800_0000 && -0x800_0000 <= z < 0x800_0000
  }

  lemma KeyIsUnique(x: int, z: int, x': int, z': int)
    requires InRange(x, z) && InRange(x', z') && IndexKey(x, z) == IndexKey(x', z')
    ensures x == x' && z == z'
  {
    DivUnique(IndexKey(x, z), TWO32, Wrap(x), Wrap(z));
    DivUnique(IndexKey(x, z), TWO32, Wrap(x'), Wrap(z'));
  }

  class World {
    var chunks: seq<Chunk>
    var tiles: seq<Tile>
    var index: Option<map<nat, Tile>>

    constructor ()
      ensures chunks == [] && tiles == [] && index == None
    {
      chunks, tiles, index := [], [], None;
    }

    /** What the tiles say of a chunk. */
    ghost predicate Covered(x: int, z: int)
      reads this, set t <- tiles :: t.revisions
    {
      Shown(tiles, RegionOf(x), RegionOf(z), Slot(x, z))
    }

    /** A chunk is listed exactly when the tiles say it is saved. */
    ghost predicate Right(x: int, z: int)
      reads this, set t <- tiles :: t.revisions
    {
      Chunk(x, z) in chunks <==> Covered(x, z)
    }

    /** The chunk list, the revisions and the masks agree, for every chunk. */
    ghost predicate Agrees()
      reads this, (set t <- tiles :: t.revisions), set t <- tiles :: t.mask
    {
      (forall x, z :: Right(x, z)) && MasksAgree()
    }

    ghost predicate MasksAgree()
      reads this`tiles, (set t <- tiles :: t.revisions), set t <- tiles :: t.mask
    {
      && (forall t <- tiles :: t.Shaped())
      && (forall t <- tiles, i | 0 <= i < 1024 :: t.mask[t.At(i)] == if t.revisions[i] != 0 then 255 else 0)
    }

    /** `read_region`; a file that is too short is not read. */
    method ReadRegion(file: RegionFile, stride: nat) returns (ok: bool)
      requires stride >= 32 && (file.size >= HEADER ==> |file.header| == HEADER)
      modifies this`chunks, this`tiles
      ensures ok == (file.size >= HEADER)
      ensures !ok ==> chunks == old(chunks) && tiles == old(tiles)
      ensures ok ==> chunks == old(chunks) + AllChunks(file)
      ensures ok && AllChunks(file) == [] ==> tiles == old(tiles)
      ensures ok && AllChunks(file) != [] ==>
                |tiles| == |old(tiles)| + 1 && tiles[..|old(tiles)|] == old(tiles)
                && fresh(tiles[|old(tiles)|]) && tiles[|old(tiles)|].Shows(file, |file.header| / 8)
    {
      if file.size < HEADER {
        return false;
      }
      var tile := new Tile(file.x, file.z, stride);
      var entries := 0;
      for i := 0 to |file.header| / 8
        invariant fresh(tile) && fresh(tile.mask) && fresh(tile.revisions) && tile.Shows(file, i)
        invariant tiles == old(tiles) && chunks == old(chunks) + ChunksOf(file, i) && entries == |ChunksOf(file, i)|
      {
        if Present(file, i) {
          chunks := chunks + [ChunkAt(file.x, file.z, i)];
          tile.Mark(i, file);
          entries := entries + 1;
        }
      }
      if entries != 0 {
        tiles := tiles + [tile];
      }
      ok := true;
    }

    /**
     Another region file. The list, the masks and the revisions agree afterwards exactly when no chunk that was saved
     for the region before is missing in the file; so they do for a region scanned for the first time.
     */
    method AddRegion(file: RegionFile, stride: nat) returns (ok: bool)
      requires stride >= 32 && (file.size >= HEADER ==> |file.header| == HEADER)
      requires Agrees()
      modifies this`chunks, this`tiles
      ensures ok == (file.size >= HEADER)
      ensures !ok ==> Agrees()
      ensures ok ==> Agrees() == NothingLost(old(tiles), file)
      ensures ok ==> forall chunk :: chunk in chunks <==> chunk in old(chunks) || chunk in AllChunks(file)
    {
      ghost var before, listed := tiles, chunks;
      forall x, z ensures Chunk(x, z) in listed <==> Shown(before, RegionOf(x), RegionOf(z), Slot(x, z)) {
        assert Right(x, z);
      }
      ok := ReadRegion(file, stride);
      if ok {
        assert MasksAgree();
        forall x, z ensures Right(x, z) <==> StillRight(before, file, x, z) {
          AddedCovered(before, tiles, file, x, z);
        }
        LossShows(before, file);
      }
    }

    /** `saved_chunk`, which builds the index when it is first needed. */
    method SavedChunk(x: int, z: int) returns (saved: bool)
      requires InRange(RegionOf(x), RegionOf(z)) && forall t <- tiles :: t.Shaped() && InRange(t.x, t.z)
      requires index.None? || index.value == IndexOf(tiles)
      modifies this`index
      ensures index == Some(IndexOf(tiles))
      ensures saved == Covered(x, z)
      ensures Agrees() ==> saved == (Chunk(x, z) in chunks)
    {
      var rx, rz := RegionOf(x), RegionOf(z);
      if index.None? {
        BuildIndex();
      }
      IndexFinds(tiles, rx, rz);
      LastIsIn(tiles, rx, rz);
      saved := false;
      if IndexKey(rx, rz) in index.value {
        var tile := index.value[IndexKey(rx, rz)];
        assert tile in tiles;
        saved := tile.revisions[Slot(x, z)] != 0;
      }
      assert Agrees() ==> Right(x, z);
    }

    method BuildIndex()
      modifies this`index
      ensures index == Some(IndexOf(tiles))
    {
      var built: map<nat, Tile> := map[];
      for i := 0 to |tiles|
        invariant built == IndexOf(tiles[..i])
      {
        assert tiles[..i + 1][..i] == tiles[..i];
        built := built[IndexKey(tiles[i].x, tiles[i].z) := tiles[i]];
      }
      assert tiles[..|tiles|] == tiles;
      index := Some(built);
    }
  }

  /** Slot `i` of a region is saved, by the tile that a lookup uses. */
  ghost predicate Shown(tiles: seq<Tile>, rx: int, rz: int, i: nat)
    requires i < 1024
    reads set t <- tiles :: t.revisions
  {
    var tile := LastTile(tiles, rx, rz);
    tile.Some? && tile.value in tiles && tile.value.Shaped() && tile.value.revisions[i] != 0
  }

  /** No chunk of the region that was saved before is missing in the file. */
  ghost predicate NothingLost(before: seq<Tile>, file: RegionFile)
    requires |file.header| == HEADER
    reads set t <- before :: t.revisions
  {
    AllChunks(file) == [] || forall i | 0 <= i < 1024 && Shown(before, file.x, file.z, i) :: Present(file, i)
  }

  ghost predicate StillRight(before: seq<Tile>, file: RegionFile, x: int, z: int)
    requires |file.header| == HEADER
    reads set t <- before :: t.revisions
  {
    AllChunks(file) == [] || RegionOf(x) != file.x || RegionOf(z) != file.z
    || (Shown(before, file.x, file.z, Slot(x, z)) ==> Present(file, Slot(x, z)))
  }

  lemma LossShows(before: seq<Tile>, file: RegionFile)
    requires |file.header| == HEADER
    ensures NothingLost(before, file) == forall x, z :: StillRight(before, file, x, z)
  {
    if NothingLost(before, file) {
      forall x, z ensures StillRight(before, file, x, z) {
      }
    } else {
      var i :| 0 <= i < 1024 && Shown(before, file.x, file.z, i) && !Present(file, i);
      ChunkIsSlot(file.x, file.z, i);
      assert !StillRight(before, file, ChunkAt(file.x, file.z, i).x, ChunkAt(file.x, file.z, i).z);
    }
  }

  lemma AddedCovered(before: seq<Tile>, after: seq<Tile>, file: RegionFile, x: int, z: int)
    requires |file.header| == HEADER && forall t <- before :: t.Shaped()
    requires AllChunks(file) == [] ==> after == before
    requires AllChunks(file) != [] ==>
               |after| == |before| + 1 && after[..|before|] == before
               && after[|before|].Shows(file, |file.header| / 8)
    ensures forall t <- after :: t.Shaped()
    ensures ((Shown(before, RegionOf(x), RegionOf(z), Slot(x, z)) || Chunk(x, z) in AllChunks(file))
              <==> Shown(after, RegionOf(x), RegionOf(z), Slot(x, z)))
       <==> StillRight(before, file, x, z)
  {
    var rx, rz := RegionOf(x), RegionOf(z);
    ChunksAreThoseOf(file, |file.header| / 8, Chunk(x, z));
    LastIsIn(before, rx, rz);
    if AllChunks(file) != [] {
      var tile := after[|before|];
      assert after == before + [tile];
      LastPushed(before, tile, rx, rz);
      if rx == file.x && rz == file.z {
        assert tile.revisions[Slot(x, z)] != 0 <==> Present(file, Slot(x, z));
      }
    }
  }

  predicate Whole(file: RegionFile) {
    file.size >= HEADER && |file.header| == HEADER
  }

  /**
   A scan of two files for one region, such as `r.0.0.mca` and `r.00.0.mca`: a chunk that only the first has stays
   listed, but the lookup no longer finds it.
   */
  method SecondFileHides(a: RegionFile, b: RegionFile, i: nat, j: nat, stride: nat) returns (listed: bool, saved: bool)
    requires stride >= 32 && i < 1024 && j < 1024 && Whole(a) && Whole(b)
    requires InRange(a.x, a.z) && a.x == b.x && a.z == b.z
    requires Present(a, i) && !Present(b, i) && Present(b, j)
    ensures listed && !saved
  {
    var world := new World();
    var chunk := ChunkAt(a.x, a.z, i);
    Lists(a, i);
    Lists(b, j);
    var first := world.ReadRegion(a, stride);
    ghost var before := world.tiles;
    var second := world.ReadRegion(b, stride);
    listed := chunk in world.chunks;
    assert world.tiles == before + [world.tiles[1]];
    Hides(before, world.tiles[1], b, i);
    saved := world.SavedChunk(chunk.x, chunk.z);
  }

  lemma Lists(file: RegionFile, i: nat)
    requires i < 1024 && |file.header| == HEADER && Present(file, i)
    ensures ChunkAt(file.x, file.z, i) in AllChunks(file)
    ensures var chunk := ChunkAt(file.x, file.z, i);
            RegionOf(chunk.x) == file.x && RegionOf(chunk.z) == file.z && Slot(chunk.x, chunk.z) == i
  {
    ChunkIsSlot(file.x, file.z, i);
    ChunksAreThoseOf(file, 1024, ChunkAt(file.x, file.z, i));
  }

  lemma Hides(before: seq<Tile>, tile: Tile, file: RegionFile, i: nat)
    requires i < 1024 && |file.header| == HEADER && tile.Shows(file, 1024) && !Present(file, i)
    ensures !Shown(before + [tile], file.x, file.z, i)
  {
    LastPushed(before, tile, file.x, file.z);
  }

  /** A region file with the chunk of one slot. */
  function OneChunk(slot: nat): (file: RegionFile)
    requires slot < 2
    ensures Whole(file) && InRange(file.x, file.z) && Present(file, slot) && !Present(file, 1 - slot)
  {
    RegionFile(0, 0, 12288, OneLocation(slot), 0, None)
  }

  function OneLocation(slot: nat): (header: seq<Byte>)
    requires slot < 2
    ensures |header| == HEADER && Location(header, slot) == 0x201 && Location(header, 1 - slot) == 0
  {
    seq(HEADER, k requires 0 <= k < HEADER => if k == slot * 4 + 2 then 2 else if k == slot * 4 + 3 then 1 else 0)
  }

  /** `tile_index`: later tiles replace earlier ones of the same region. */
  function IndexOf(tiles: seq<Tile>): map<nat, Tile> {
    if tiles == [] then map[]
    else var last := tiles[|tiles| - 1]; IndexOf(tiles[..|tiles| - 1])[IndexKey(last.x, last.z) := last]
  }

  /** The packed 64-bit keys find the tile of a region, negative coordinates included. */
  lemma {:induction false} IndexFinds(tiles: seq<Tile>, rx: int, rz: int)
    requires InRange(rx, rz) && forall t <- tiles :: InRange(t.x, t.z)
    ensures var index, key := IndexOf(tiles), IndexKey(rx, rz);
            LastTile(tiles, rx, rz) == if key in index then Some(index[key]) else None
  {
    if tiles != [] {
      var last := tiles[|tiles| - 1];
      IndexFinds(tiles[..|tiles| - 1], rx, rz);
      if IndexKey(last.x, last.z) == IndexKey(rx, rz) {
        KeyIsUnique(last.x, last.z, rx, rz);
      }
    }
  }

  lemma {:induction false} LastIsIn(tiles: seq<Tile>, rx: int, rz: int)
    ensures var last := LastTile(tiles, rx, rz);
            last.Some? ==> last.value in tiles && last.value.x == rx && last.value.z == rz
  {
    if tiles != [] {
      LastIsIn(tiles[..|tiles| - 1], rx, rz);
    }
  }

  lemma LastPushed(tiles: seq<Tile>, tile: Tile, rx: int, rz: int)
    ensures LastTile(tiles + [tile], rx, rz)
         == if tile.x == rx && tile.z == rz then Some(tile) else LastTile(tiles, rx, rz)
  {
    assert (tiles + [tile])[..|tiles|] == tiles;
  }

  // ----- the picture of one region -----

  /** The pixel of the chunk in column `x` and row `z` of the region. */
  predicate PixelTells(tile: Tile, chunks: seq<Chunk>, x: nat, z: nat)
    requires x < 32 && z < 32
    reads tile.mask
  {
    && z * tile.stride + x < tile.mask.Length
    && tile.mask[z * tile.stride + x] == if Chunk(32 * tile.x + x, 32 * tile.z + z) in chunks then 255 else 0
  }

  lemma PixelIs(tile: Tile, file: RegionFile, x: nat, z: nat)
    requires |file.header| == HEADER && tile.Shows(file, 1024) && x < 32 && z < 32
    ensures PixelTells(tile, AllChunks(file), x, z)
  {
    var i := 32 * z + x;
    assert i / 32 == z && i % 32 == x;
    RowInBounds(z, x, tile.stride);
    ChunkIsSlot(file.x, file.z, i);
    assert ChunkAt(file.x, file.z, i) == Chunk(32 * tile.x + x, 32 * tile.z + z);
    ChunksAreThoseOf(file, 1024, ChunkAt(file.x, file.z, i));
    assert tile.At(i) == z * tile.stride + x;
  }

  /** Scanning one region: pixel by pixel, its picture shows exactly the chunks that are listed. */
  method PictureOf(file: RegionFile, stride: nat) returns (world: World)
    requires stride >= 32 && |file.header| == 8192
    ensures world.chunks != [] ==>
      |world.tiles| == 1 && forall x, z :: 0 <= x < 32 && 0 <= z < 32 ==> PixelTells(world.tiles[0], world.chunks, x, z)
    ensures file.size < 8192 || world.chunks == [] ==> world.tiles == [] && world.chunks == []
  {
    world := new World();
    var ok := world.ReadRegion(file, stride);
    if world.tiles != [] {
      forall x, z | 0 <= x < 32 && 0 <= z < 32 ensures PixelTells(world.tiles[0], world.chunks, x, z) {
        PixelIs(world.tiles[0], file, x, z);
      }
    }
  }
}
