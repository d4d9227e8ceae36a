/** The world around the chunks: where each block's mesh is placed, the per-chunk update that
    spawns one mesh per stored block, and the two chunks the startup code fills.

    A chunk at grid position `[cx, cz]` covers world columns `x = 8*cx + local x` and
    `z = 8*cz + local z`; the vertical coordinate is the local one.  The arithmetic is on
    `isize`, as the source does it before converting to floating point. */
module World {
  import opened MachineInt
  import opened Chunks
  import opened CubeMesher

  /** A block's integer world offset: x and z on `isize`, y the local `usize`. */
  datatype Translation = Translation(x: Isize, y: Usize, z: Isize)

  /** Chunk positions whose world offsets cannot overflow `isize`. */
  predicate NearChunk(c: ChunkPos) {
    -0x0800_0000_0000_0000 <= c.x < 0x0800_0000_0000_0000 &&
    -0x0800_0000_0000_0000 <= c.y < 0x0800_0000_0000_0000
  }

  /** The translation of `block_update`: `pos[0] as isize + chunk.pos[0] * 8` on x, `pos[1]` on y,
      `pos[2] as isize + chunk.pos[1] * 8` on z (8 = CHUNK_H).  For an in-chunk block of a chunk
      whose offsets cannot overflow, it is the exact sum `local + 8 * chunk` on x and z. */
  function Placement(p: Coords, c: ChunkPos): (t: Translation)
    ensures InChunk(p) && NearChunk(c) ==> t == Translation(p.x + 8 * c.x, p.y, p.z + 8 * c.y)
  {
    Translation(IsizeAdd(AsIsize(p.x), IsizeMul(c.x, 8)), p.y, IsizeAdd(AsIsize(p.z), IsizeMul(c.y, 8)))
  }

  /** Placement is the reference reading wrapped into `isize`, for every input. */
  lemma PlacementWraps(p: Coords, c: ChunkPos)
    ensures Placement(p, c).x == WrapIsize(p.x + 8 * c.x)
    ensures Placement(p, c).z == WrapIsize(p.z + 8 * c.y)
  {
    AsIsizeResidue(p.x);
    AsIsizeResidue(p.z);
    IsizeAddResidue(AsIsize(p.x), IsizeMul(c.x, 8));
    IsizeAddResidue(AsIsize(p.z), IsizeMul(c.y, 8));
    IsizeMulResidue(c.x, 8);
    IsizeMulResidue(c.y, 8);
    ResidueOfSum(AsIsize(p.x), IsizeMul(c.x, 8), p.x, 8 * c.x);
    ResidueOfSum(AsIsize(p.z), IsizeMul(c.y, 8), p.z, 8 * c.y);
    IsizeOfResidue(Placement(p, c).x, p.x + 8 * c.x);
    IsizeOfResidue(Placement(p, c).z, p.z + 8 * c.y);
  }

  /** The world x and z columns determine the chunk and the local coordinates: Euclidean division
      by 8 gives the chunk, the remainder the local coordinate. */
  lemma PlacementSplits(p: Coords, c: ChunkPos)
    requires InChunk(p) && NearChunk(c)
    ensures Placement(p, c).x / 8 == c.x && Placement(p, c).x % 8 == p.x
    ensures Placement(p, c).z / 8 == c.y && Placement(p, c).z % 8 == p.z
  {
  }

  /** Hence two in-chunk blocks of near chunks land on the same world cell only if they are the
      same local cell of the same chunk. */
  lemma PlacementInjective(p: Coords, c: ChunkPos, q: Coords, d: ChunkPos)
    requires InChunk(p) && NearChunk(c) && InChunk(q) && NearChunk(d)
    requires Placement(p, c) == Placement(q, d)
    ensures p == q && c == d
  {
    PlacementSplits(p, c);
    PlacementSplits(q, d);
  }

  /** The chunk at `[-1, 0]` starts at world x = -8 and ends at -1, next to the chunk at `[0, 0]`. */
  lemma NegativeChunkPlacement()
    ensures Placement(Coords(0, 0, 0), ChunkPos(-1, 0)) == Translation(-8, 0, 0)
    ensures Placement(Coords(7, 0, 0), ChunkPos(-1, 0)).x + 1 == Placement(Coords(0, 0, 0), ChunkPos(0, 0)).x
  {
  }

  // ---------------------------------------------------------------------------------------
  // The per-chunk update

  /** The slots below `n` that hold a block, ascending: the order `blocks.iter().flatten()` yields them. */
  function OccupiedBelow(cells: Cells, n: nat): (s: seq<nat>)
    requires n <= CAPACITY
    ensures forall k :: 0 <= k < |s| ==> s[k] < n && cells[s[k]].Some?
  {
    if n == 0 then [] else OccupiedBelow(cells, n - 1) + (if cells[n - 1].Some? then [n - 1] else [])
  }

  /** The update visits a slot exactly when it holds a block. */
  lemma {:induction false} OccupiedMembership(cells: Cells, n: nat)
    requires n <= CAPACITY
    ensures forall i: nat :: i in OccupiedBelow(cells, n) <==> i < n && cells[i].Some?
  {
    if n > 0 {
      OccupiedMembership(cells, n - 1);
    }
  }

  /** The update visits the slots in ascending order, each once. */
  lemma {:induction false} OccupiedAscending(cells: Cells, n: nat)
    requires n <= CAPACITY
    ensures forall i, j :: 0 <= i < j < |OccupiedBelow(cells, n)| ==>
      OccupiedBelow(cells, n)[i] < OccupiedBelow(cells, n)[j]
  {
    if n > 0 {
      OccupiedAscending(cells, n - 1);
    }
  }

  /** What the update spawns for one block: its culled cube mesh and its world offset. */
  datatype Spawn = Spawn(mesh: Mesh, at: Translation)

  /** The spawn for block `b` of a chunk holding `cells` at grid position `c`: the mesh of the faces
      `neighbor_blocks` reports for the block's own coordinates, placed by those coordinates. */
  function SpawnOf(cells: Cells, c: ChunkPos, b: Block): Spawn {
    Spawn(CulledCubeMesh(VisibleFaces(cells, b.pos)), Placement(b.pos, c))
  }

  /** Slots that all hold a block. */
  predicate AllOccupied(cells: Cells, slots: seq<nat>) {
    forall k :: 0 <= k < |slots| ==> slots[k] < CAPACITY && cells[slots[k]].Some?
  }

  /** The spawns for the blocks in `slots`, in that order. */
  function Spawns(cells: Cells, c: ChunkPos, slots: seq<nat>): (r: seq<Spawn>)
    requires AllOccupied(cells, slots)
    ensures |r| == |slots|
  {
    seq(|slots|, k requires 0 <= k < |slots| => SpawnOf(cells, c, cells[slots[k]].value))
  }

  /** One more visited slot appends its spawn. */
  lemma SpawnsPush(cells: Cells, c: ChunkPos, slots: seq<nat>, i: nat)
    requires AllOccupied(cells, slots) && i < CAPACITY && cells[i].Some?
    ensures AllOccupied(cells, slots + [i])
    ensures Spawns(cells, c, slots + [i]) == Spawns(cells, c, slots) + [SpawnOf(cells, c, cells[i].value)]
  {
  }

  /** `block_update` for one changed chunk: for every stored block, in slot order, the mesh of its
      visible faces placed at its world offset.  The mesh is built by the corrected mesher. */
  method BlockUpdate(chunk: Chunk) returns (spawns: seq<Spawn>)
    requires chunk.Valid()
    ensures spawns == Spawns(chunk.Cells(), chunk.pos, OccupiedBelow(chunk.Cells(), CAPACITY))
  {
    ghost var cells := chunk.Cells();
    var at := chunk.pos;
    spawns := [];
    for i := 0 to CAPACITY
      invariant spawns == Spawns(cells, at, OccupiedBelow(cells, i))
    {
      var slot := chunk.blocks[i];
      if slot.Some? {
        var b := slot.value;
        var faces := chunk.NeighborBlocks(b.pos);
        var mesh := GenCubeCulled(faces);
        SpawnsPush(cells, at, OccupiedBelow(cells, i), i);
        spawns := spawns + [Spawn(mesh, Placement(b.pos, at))];
      }
    }
  }

  /** In a chunk whose blocks all sit in their own cells, the k-th spawn belongs to the k-th
      occupied slot: it is placed at that cell and meshed with that cell's visible faces. */
  lemma SpawnsFollowSlots(cells: Cells, c: ChunkPos, k: nat)
    requires WellPlaced(cells)
    requires k < |OccupiedBelow(cells, CAPACITY)|
    ensures var i := OccupiedBelow(cells, CAPACITY)[k];
      var p := CellAt(i);
      Spawns(cells, c, OccupiedBelow(cells, CAPACITY))[k] ==
        Spawn(CulledCubeMesh(VisibleFaces(cells, p)), Placement(p, c))
  {
  }

  /** Culling is sound: every vertex the mesh of a block at `p` keeps lies on a face whose normal
      points at a neighbour cell holding no block. */
  lemma KeptFacesLookAtEmptyCells(cells: Cells, p: Coords)
    ensures var m := CulledCubeMesh(VisibleFaces(cells, p));
      forall j :: 0 <= j < |m.normals| ==>
        var f := EmittedSlots(VisibleFaces(cells, p))[j] / 4;
        f < 6 && m.normals[j] == OFFSETS[f] && !Occupied(cells, Neighbor(p, f))
  {
    MeshNormals(VisibleFaces(cells, p));
  }

  // ---------------------------------------------------------------------------------------
  // The startup chunks

  /** Whether the startup code stores a block at local `p`: every cell of the solid chunk, the
      cells with an even coordinate sum of the checkered one. */
  predicate Kept(p: Coords, checkered: bool) {
    !checkered || (p.x + p.y + p.z) % 2 == 0
  }

  /** A block written with `..Default::default()`: every face flag false. */
  function DefaultBlock(p: Coords): Block {
    Block(NONE_VISIBLE, p)
  }

  /** Cell `p` comes before step `(x, y, z)` of the loops (x outermost, z innermost). */
  predicate Before(p: Coords, x: int, y: int, z: int) {
    p.x < x || (p.x == x && (p.y < y || (p.y == y && p.z < z)))
  }

  /** The slots of a chunk the fill loops have reached step `(x, y, z)` in. */
  function Progress(checkered: bool, x: int, y: int, z: int): Cells {
    seq(CAPACITY, i requires 0 <= i < CAPACITY =>
      var p := CellAt(i);
      if Before(p, x, y, z) && Kept(p, checkered) then Some(DefaultBlock(p)) else None)
  }

  /** A startup chunk once its loops are done. */
  function Filled(checkered: bool): Cells {
    seq(CAPACITY, i requires 0 <= i < CAPACITY =>
      var p := CellAt(i);
      if Kept(p, checkered) then Some(DefaultBlock(p)) else None)
  }

  lemma ProgressStart(checkered: bool)
    ensures Progress(checkered, 0, 0, 0) == EMPTY
  {
  }

  /** The innermost loop body: the cell `(x, y, z)` is added when kept, nothing else changes. */
  lemma ProgressStep(checkered: bool, x: nat, y: nat, z: nat)
    requires x < CHUNK_H && y < CHUNK_V && z < CHUNK_H
    ensures var q := Coords(x, y, z);
      Progress(checkered, x, y, z + 1) ==
        if Kept(q, checkered) then Inserted(Progress(checkered, x, y, z), DefaultBlock(q))
        else Progress(checkered, x, y, z)
  {
    var q := Coords(x, y, z);
    CoordsToIndexOnChunk(q);
    SlotRoundTrip(q);
    var before := Progress(checkered, x, y, z);
    var after := Progress(checkered, x, y, z + 1);
    var expected := if Kept(q, checkered) then Inserted(before, DefaultBlock(q)) else before;
    forall i | 0 <= i < CAPACITY
      ensures after[i] == expected[i]
    {
      if CellAt(i) != q {
        assert i != Slot(x, y, z);
      }
    }
  }

  lemma ProgressRow(checkered: bool, x: nat, y: nat)
    ensures Progress(checkered, x, y, CHUNK_H) == Progress(checkered, x, y + 1, 0)
  {
    var a := Progress(checkered, x, y, CHUNK_H);
    var b := Progress(checkered, x, y + 1, 0);
    forall i | 0 <= i < CAPACITY
      ensures a[i] == b[i]
    {
    }
  }

  lemma ProgressColumn(checkered: bool, x: nat)
    ensures Progress(checkered, x, CHUNK_V, 0) == Progress(checkered, x + 1, 0, 0)
  {
    var a := Progress(checkered, x, CHUNK_V, 0);
    var b := Progress(checkered, x + 1, 0, 0);
    forall i | 0 <= i < CAPACITY
      ensures a[i] == b[i]
    {
    }
  }

  lemma ProgressDone(checkered: bool)
    ensures Progress(checkered, CHUNK_H, 0, 0) == Filled(checkered)
  {
    var a := Progress(checkered, CHUNK_H, 0, 0);
    var b := Filled(checkered);
    forall i | 0 <= i < CAPACITY
      ensures a[i] == b[i]
    {
    }
  }

  /** One startup chunk: a new chunk at `[cx, cz]` and the triple loop adding a default block at
      every kept local cell. */
  method FillChunk(cx: Isize, cz: Isize, checkered: bool) returns (chunk: Chunk)
    ensures fresh(chunk) && fresh(chunk.blocks) && chunk.Valid()
    ensures chunk.pos == ChunkPos(cx, cz)
    ensures chunk.Cells() == Filled(checkered)
  {
    chunk := new Chunk(cx, cz);
    ProgressStart(checkered);
    for x := 0 to CHUNK_H
      invariant fresh(chunk) && fresh(chunk.blocks) && chunk.Valid()
      invariant chunk.pos == ChunkPos(cx, cz)
      invariant chunk.Cells() == Progress(checkered, x, 0, 0)
    {
      for y := 0 to CHUNK_V
        invariant fresh(chunk.blocks) && chunk.Valid()
        invariant chunk.pos == ChunkPos(cx, cz)
        invariant chunk.Cells() == Progress(checkered, x, y, 0)
      {
        FillLine(chunk, x, y, checkered);
        ProgressRow(checkered, x, y);
      }
      ProgressColumn(checkered, x);
    }
    ProgressDone(checkered);
  }

  /** The innermost loop of the fill, over z for one `(x, y)`. */
  method FillLine(chunk: Chunk, x: nat, y: nat, checkered: bool)
    requires chunk.Valid() && x < CHUNK_H && y < CHUNK_V
    requires chunk.Cells() == Progress(checkered, x, y, 0)
    modifies chunk.blocks
    ensures chunk.Valid()
    ensures chunk.Cells() == Progress(checkered, x, y, CHUNK_H)
  {
    for z := 0 to CHUNK_H
      invariant chunk.Valid()
      invariant chunk.Cells() == Progress(checkered, x, y, z)
    {
      ProgressStep(checkered, x, y, z);
      if !checkered || (x + y + z) % 2 == 0 {
        chunk.Add(DefaultBlock(Coords(x, y, z)));
      }
    }
  }

  /** `setup`: the solid chunk at `[0, 0]` and the checkered chunk at `[-1, 0]`. */
  method Setup() returns (solid: Chunk, checker: Chunk)
    ensures solid.Valid() && checker.Valid() && solid.blocks != checker.blocks
    ensures solid.pos == ChunkPos(0, 0) && solid.Cells() == Filled(false)
    ensures checker.pos == ChunkPos(-1, 0) && checker.Cells() == Filled(true)
  {
    solid := FillChunk(0, 0, false);
    checker := FillChunk(-1, 0, true);
  }

  /** A startup chunk holds a block exactly at its kept in-chunk cells, each in its own slot. */
  lemma FilledOccupied(checkered: bool, q: Coords)
    ensures WellPlaced(Filled(checkered))
    ensures Occupied(Filled(checkered), q) <==> InChunk(q) && Kept(q, checkered)
  {
    if InChunk(q) {
      SlotRoundTrip(q);
    }
  }

  /** An in-chunk neighbour is one step away on one axis, so its coordinate sum has the other parity. */
  lemma NeighbourParity(p: Coords, f: FaceIndex)
    requires InChunk(p) && InChunk(Neighbor(p, f))
    ensures var q := Neighbor(p, f); (q.x + q.y + q.z) % 2 != (p.x + p.y + p.z) % 2
  {
    NeighborSteps(p);
    var q := Neighbor(p, f);
    var d := if f % 2 == 0 then 1 else -1;
    assert q.x + q.y + q.z == p.x + p.y + p.z + d;
  }

  /** In the checkered chunk every stored block has all six neighbours empty, so all its faces
      are reported visible. */
  lemma CheckeredBlocksFullyExposed(p: Coords)
    requires InChunk(p) && Kept(p, true)
    ensures VisibleFaces(Filled(true), p) == ALL_VISIBLE
  {
    forall f: FaceIndex
      ensures VisibleFaces(Filled(true), p)[f] == ALL_VISIBLE[f]
    {
      FilledOccupied(true, Neighbor(p, f));
      if InChunk(Neighbor(p, f)) {
        NeighbourParity(p, f);
      }
    }
    SameMask(VisibleFaces(Filled(true), p), ALL_VISIBLE);
  }

  /** In the solid chunk a block away from every side has all six neighbours occupied, so no face
      is reported visible. */
  lemma SolidInteriorHidden(p: Coords)
    requires 0 < p.x < CHUNK_H - 1 && 0 < p.y < CHUNK_V - 1 && 0 < p.z < CHUNK_H - 1
    ensures VisibleFaces(Filled(false), p) == NONE_VISIBLE
  {
    NeighborSteps(p);
    forall f: FaceIndex
      ensures VisibleFaces(Filled(false), p)[f] == NONE_VISIBLE[f]
    {
      FilledOccupied(false, Neighbor(p, f));
    }
    SameMask(VisibleFaces(Filled(false), p), NONE_VISIBLE);
  }

  /** The solid chunk's corner at the origin shows exactly its three outer faces (-z, -x, -y):
      their neighbours wrap to the largest `usize` and are outside the chunk. */
  lemma SolidCornerFaces()
    ensures VisibleFaces(Filled(false), Coords(0, 0, 0)) == [false, true, false, true, false, true]
  {
    var p := Coords(0, 0, 0);
    var cells := Filled(false);
    NeighborSteps(p);
    ZeroCoordinateFacesVisible(cells, p);
    FilledOccupied(false, Coords(0, 0, 1));
    FilledOccupied(false, Coords(1, 0, 0));
    FilledOccupied(false, Coords(0, 1, 0));
    assert !VisibleFaces(cells, p)[0] && !VisibleFaces(cells, p)[2] && !VisibleFaces(cells, p)[4];
    SameMask(VisibleFaces(cells, p), [false, true, false, true, false, true]);
  }

  /** A run of occupied slots is visited in full. */
  lemma {:induction false} OccupiedRun(cells: Cells, n: nat)
    requires n <= CAPACITY
    requires forall i :: 0 <= i < n ==> cells[i].Some?
    ensures |OccupiedBelow(cells, n)| == n
  {
    if n > 0 {
      OccupiedRun(cells, n - 1);
    }
  }

  /** The solid chunk spawns one mesh per cell, 1024 in all. */
  lemma SolidChunkSpawnCount(c: ChunkPos)
    ensures |Spawns(Filled(false), c, OccupiedBelow(Filled(false), CAPACITY))| == CAPACITY
  {
    OccupiedRun(Filled(false), CAPACITY);
  }

  /** An interior block of the solid chunk: the mesh as `gen_cube` writes it has no vertices but
      still all 36 indices; the corrected mesh is empty. */
  lemma SolidInteriorMeshes(p: Coords)
    requires 0 < p.x < CHUNK_H - 1 && 0 < p.y < CHUNK_V - 1 && 0 < p.z < CHUNK_H - 1
    ensures var faces := VisibleFaces(Filled(false), p);
      |CubeMesh(faces).positions| == 0 && |CubeMesh(faces).indices| == 36 &&
      |CulledCubeMesh(faces).positions| == 0 && |CulledCubeMesh(faces).indices| == 0
  {
    SolidInteriorHidden(p);
    MeshSizes(NONE_VISIBLE);
    CulledIndicesInRange(NONE_VISIBLE);
  }
}
