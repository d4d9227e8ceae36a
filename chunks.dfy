/** The chunk store and the face visibility resolver of the voxel world.

    A chunk is a dense 8 x 8 x 16 grid of optional blocks addressed by local
    coordinates `[x, y, z]` (x and z horizontal, y vertical) through the linear
    index `x + 64*y + 8*z`.  A block face is visible when the neighbouring cell in
    its direction is outside the chunk or empty; neighbours are found with wrapping
    `usize` arithmetic followed by a per-axis bounds check. */
module Chunks {
  import opened MachineInt

  datatype Option<T> = None | Some(value: T)

  const CHUNK_H: nat := 8
  const CHUNK_V: nat := 16
  const CAPACITY: nat := 1024

  /** Local block coordinates `[x, y, z]`, each a `usize`. */
  datatype Coords = Coords(x: Usize, y: Usize, z: Usize)

  /** The position of a chunk on the horizontal chunk grid: `pos[0]` along x, `pos[1]` along z. */
  datatype ChunkPos = ChunkPos(x: Isize, y: Isize)

  /** One flag per face, in the order +z, -z, +x, -x, +y, -y. */
  type FaceMask = s: seq<bool> | |s| == 6 witness [false, false, false, false, false, false]
  type FaceIndex = f: nat | f < 6

  const ALL_VISIBLE: FaceMask := [true, true, true, true, true, true]
  const NONE_VISIBLE: FaceMask := [false, false, false, false, false, false]

  /** A block as stored: its face mask (written once, never read by the mesher) and its coordinates. */
  datatype Block = Block(faces: FaceMask, pos: Coords)

  /** The contents of a chunk's block array. */
  type Cells = s: seq<Option<Block>> | |s| == CAPACITY witness seq(CAPACITY, _ => None)

  const EMPTY: Cells := seq(CAPACITY, _ => None)

  /** The coordinates whose three components lie within the chunk's extents. */
  predicate InChunk(p: Coords) {
    p.x < CHUNK_H && p.y < CHUNK_V && p.z < CHUNK_H
  }

  /** The linear index formula on unbounded integers: x weighs 1, y weighs CHUNK_H * CHUNK_H = 64, z weighs CHUNK_H = 8. */
  function Slot(x: int, y: int, z: int): int {
    x + 64 * y + 8 * z
  }

  /** The in-chunk coordinates that own slot `i`. */
  function CellAt(i: int): (p: Coords)
    requires 0 <= i < CAPACITY
    ensures InChunk(p) && Slot(p.x, p.y, p.z) == i
  {
    Coords(i % 8, i / 64, (i / 8) % 8)
  }

  /** Slot and CellAt are inverse on the chunk: in-chunk coordinates map into [0, 1024) and back. */
  lemma SlotRoundTrip(p: Coords)
    requires InChunk(p)
    ensures 0 <= Slot(p.x, p.y, p.z) < CAPACITY
    ensures CellAt(Slot(p.x, p.y, p.z)) == p
  {
    var i := Slot(p.x, p.y, p.z);
    assert i == p.x + 8 * (p.z + 8 * p.y);
    assert i / 8 == p.z + 8 * p.y;
    assert i % 8 == p.x;
    assert (i / 8) % 8 == p.z;
    assert i / 64 == (i / 8) / 8;
  }

  /** `Chunk::coords_to_index`: `pos[0] as isize + (pos[1] * 64) as isize + (pos[2] * 8) as isize`,
      the products on `usize`, the sum on `isize` (64 = CHUNK_H * CHUNK_H, 8 = CHUNK_H).
      Without overflow it is the linear index formula. */
  function CoordsToIndex(p: Coords): (r: Isize)
    ensures Slot(p.x, p.y, p.z) < TWO_TO_THE_63 ==> r == Slot(p.x, p.y, p.z)
  {
    IsizeAdd(IsizeAdd(AsIsize(p.x), AsIsize(UsizeMul(p.y, 64))), AsIsize(UsizeMul(p.z, 8)))
  }

  /** For every input, overflowing or not, the index is the formula reduced into the `isize` range. */
  lemma CoordsToIndexWraps(p: Coords)
    ensures CoordsToIndex(p) == WrapIsize(Slot(p.x, p.y, p.z))
  {
    var y, z := UsizeMul(p.y, 64), UsizeMul(p.z, 8);
    var sum := IsizeAdd(AsIsize(p.x), AsIsize(y));
    AsIsizeResidue(p.x);
    AsIsizeResidue(y);
    AsIsizeResidue(z);
    UsizeMulResidue(p.y, 64);
    UsizeMulResidue(p.z, 8);
    IsizeAddResidue(AsIsize(p.x), AsIsize(y));
    IsizeAddResidue(sum, AsIsize(z));
    ResidueOfSum(AsIsize(p.x), AsIsize(y), p.x, p.y * 64);
    ResidueOfSum(sum, AsIsize(z), p.x + p.y * 64, p.z * 8);
    IsizeOfResidue(CoordsToIndex(p), Slot(p.x, p.y, p.z));
  }

  /** The condition `add` tests before it writes: the index lies in [0, CAPACITY). */
  predicate IndexInRange(p: Coords) {
    0 <= CoordsToIndex(p) < CAPACITY
  }

  /** The reference reading of `has_block`: the coordinates lie in the chunk and their cell holds a block. */
  predicate Occupied(cells: Cells, p: Coords) {
    InChunk(p) && cells[Slot(p.x, p.y, p.z)].Some?
  }

  /** The cells after `Chunk::add(block)`: when the index of the block's coordinates is in
      [0, CAPACITY) that slot holds the block, whatever it held before; otherwise nothing changes. */
  function Inserted(cells: Cells, b: Block): (r: Cells)
    ensures IndexInRange(b.pos) ==> r[CoordsToIndex(b.pos)] == Some(b)
    ensures forall i :: 0 <= i < CAPACITY && i != CoordsToIndex(b.pos) ==> r[i] == cells[i]
    ensures !IndexInRange(b.pos) ==> r == cells
  {
    var index := CoordsToIndex(b.pos);
    if 0 <= index < CAPACITY then cells[index := Some(b)] else cells
  }

  /** A signed axis step. */
  datatype Direction = Direction(dx: int, dy: int, dz: int)

  /** The neighbour offset checked for each face flag, in the order `neighbor_blocks` assigns them. */
  const OFFSETS: seq<Direction> := [
    Direction(0, 0, 1), Direction(0, 0, -1),
    Direction(1, 0, 0), Direction(-1, 0, 0),
    Direction(0, 1, 0), Direction(0, -1, 0)
  ]

  /** One wrapping `usize` step of size `d` in {-1, 0, 1}. */
  function Step(a: Usize, d: int): Usize {
    if d == 1 then WrappingAdd(a, 1) else if d == -1 then WrappingSub(a, 1) else a
  }

  /** The neighbour of `p` for face `f`, each coordinate stepped with wrapping `usize` arithmetic. */
  function Neighbor(p: Coords, f: FaceIndex): Coords {
    var d := OFFSETS[f];
    Coords(Step(p.x, d.dx), Step(p.y, d.dy), Step(p.z, d.dz))
  }

  /** Every neighbour is the signed neighbour reduced modulo 2^64 on each axis. */
  lemma NeighborWraps(p: Coords, f: FaceIndex)
    ensures Neighbor(p, f) ==
      Coords(WrapUsize(p.x + OFFSETS[f].dx), WrapUsize(p.y + OFFSETS[f].dy), WrapUsize(p.z + OFFSETS[f].dz))
  {
    var d := OFFSETS[f];
    StepWraps(p.x, d.dx);
    StepWraps(p.y, d.dy);
    StepWraps(p.z, d.dz);
  }

  /** One step is the signed step reduced modulo 2^64. */
  lemma StepWraps(a: Usize, d: int)
    requires -1 <= d <= 1
    ensures Step(a, d) == WrapUsize(a + d)
  {
    WrappingOpsAreModular(a, 1);
  }

  /** The six wrapped neighbours written out one axis step at a time. */
  lemma NeighborSteps(p: Coords)
    ensures Neighbor(p, 0) == Coords(p.x, p.y, WrappingAdd(p.z, 1))
    ensures Neighbor(p, 1) == Coords(p.x, p.y, WrappingSub(p.z, 1))
    ensures Neighbor(p, 2) == Coords(WrappingAdd(p.x, 1), p.y, p.z)
    ensures Neighbor(p, 3) == Coords(WrappingSub(p.x, 1), p.y, p.z)
    ensures Neighbor(p, 4) == Coords(p.x, WrappingAdd(p.y, 1), p.z)
    ensures Neighbor(p, 5) == Coords(p.x, WrappingSub(p.y, 1), p.z)
  {
  }

  /** The mask `neighbor_blocks` returns: face `f` is visible when the neighbour one wrapping
      step away in direction `f` holds no block. */
  function VisibleFaces(cells: Cells, p: Coords): FaceMask {
    seq(6, f requires 0 <= f < 6 => !Occupied(cells, Neighbor(p, f)))
  }

  /** The reference reading on signed integers: the cell (x, y, z) is outside the chunk or empty. */
  predicate IsOpen(cells: Cells, x: int, y: int, z: int) {
    !(0 <= x < CHUNK_H && 0 <= y < CHUNK_V && 0 <= z < CHUNK_H) || cells[Slot(x, y, z)].None?
  }

  /** In-chunk coordinates never overflow: their index is the formula, at most 1023, reached at [7, 15, 7]. */
  lemma CoordsToIndexOnChunk(p: Coords)
    requires InChunk(p)
    ensures CoordsToIndex(p) == Slot(p.x, p.y, p.z) < CAPACITY
    ensures CoordsToIndex(Coords(7, 15, 7)) == CAPACITY - 1
  {
  }

  /** Distinct in-chunk coordinates get distinct indices. */
  lemma {:induction false} SlotInjective(p: Coords, q: Coords)
    requires InChunk(p) && InChunk(q)
    requires Slot(p.x, p.y, p.z) == Slot(q.x, q.y, q.z)
    ensures p == q
  {
    SlotRoundTrip(p);
    SlotRoundTrip(q);
  }

  /** The guard of `add` accepts exactly the coordinates whose formula, reduced modulo 2^64,
      lands in [0, CAPACITY); in particular every in-chunk coordinate. */
  lemma IndexInRangeIff(p: Coords)
    ensures IndexInRange(p) <==> WrapUsize(Slot(p.x, p.y, p.z)) < CAPACITY
    ensures InChunk(p) ==> IndexInRange(p)
  {
    CoordsToIndexWraps(p);
  }

  /** After `add`, a cell of the chunk holds a block exactly when it held one before or it is the
      cell that owns the slot the block's coordinates index; for in-chunk coordinates that cell
      is the block's own. */
  lemma AddMakesOneCellOccupied(cells: Cells, b: Block, q: Coords)
    requires IndexInRange(b.pos)
    ensures InChunk(b.pos) ==> CellAt(CoordsToIndex(b.pos)) == b.pos
    ensures Occupied(Inserted(cells, b), q) <==> q == CellAt(CoordsToIndex(b.pos)) || Occupied(cells, q)
  {
    var i := CoordsToIndex(b.pos);
    if InChunk(b.pos) {
      SlotRoundTrip(b.pos);
    }
    if InChunk(q) {
      SlotRoundTrip(q);
    }
  }

  /** `add` does not check the axes: [8, 0, 0] indexes slot 8, the slot of [0, 0, 1], so the block
      overwrites that cell and is not found at its own coordinates.  The `as isize` cast lets
      [2^64 - 1, 0, 1] through as well, into slot 7. */
  lemma AddAliasesOutOfChunkCoords(cells: Cells, faces: FaceMask)
    ensures CoordsToIndex(Coords(8, 0, 0)) == CoordsToIndex(Coords(0, 0, 1)) == 8
    ensures Occupied(Inserted(cells, Block(faces, Coords(8, 0, 0))), Coords(0, 0, 1))
    ensures !Occupied(Inserted(cells, Block(faces, Coords(8, 0, 0))), Coords(8, 0, 0))
    ensures CoordsToIndex(Coords(USIZE_MAX, 0, 1)) == 7
  {
  }

  /** The reference reading of face visibility: for a block whose coordinates are all below the
      largest `usize`, face `f` is visible exactly when the integer neighbour in direction `f`
      lies outside the chunk or is empty.  A step below zero wraps to 2^64 - 1, which the bounds
      check rejects just as the signed neighbour -1 is rejected. */
  lemma VisibleIffNeighbourOpen(cells: Cells, p: Coords, f: FaceIndex)
    requires p.x < USIZE_MAX && p.y < USIZE_MAX && p.z < USIZE_MAX
    ensures VisibleFaces(cells, p)[f] <==>
      IsOpen(cells, p.x + OFFSETS[f].dx, p.y + OFFSETS[f].dy, p.z + OFFSETS[f].dz)
  {
    var d := OFFSETS[f];
    NoBlockIffOpen(cells, Neighbor(p, f), p.x + d.dx, p.y + d.dy, p.z + d.dz);
  }

  /** Wrapped coordinates that equal the signed ones, or stand for -1 as 2^64 - 1, find a block
      exactly where the signed reading finds the cell occupied. */
  lemma NoBlockIffOpen(cells: Cells, q: Coords, x: int, y: int, z: int)
    requires q.x == x || (x == -1 && q.x == USIZE_MAX)
    requires q.y == y || (y == -1 && q.y == USIZE_MAX)
    requires q.z == z || (z == -1 && q.z == USIZE_MAX)
    ensures !Occupied(cells, q) <==> IsOpen(cells, x, y, z)
  {
  }

  /** A coordinate of 0 never finds a neighbour below it: the wrapped step is 2^64 - 1, outside the chunk. */
  lemma ZeroCoordinateFacesVisible(cells: Cells, p: Coords)
    ensures p.z == 0 ==> Neighbor(p, 1).z == USIZE_MAX && VisibleFaces(cells, p)[1]
    ensures p.x == 0 ==> Neighbor(p, 3).x == USIZE_MAX && VisibleFaces(cells, p)[3]
    ensures p.y == 0 ==> Neighbor(p, 5).y == USIZE_MAX && VisibleFaces(cells, p)[5]
  {
    NeighborSteps(p);
  }

  /** The one place where wrapping differs from the signed reading: a coordinate of 2^64 - 1, which
      `add` accepts through the `as isize` cast, wraps forward onto 0 and finds a block there. */
  lemma MaxCoordinateWrapsOntoChunk(faces: FaceMask)
    ensures var p := Coords(USIZE_MAX, 0, 1);
      var cells := Inserted(Inserted(EMPTY, Block(faces, p)), Block(faces, Coords(0, 0, 1)));
      Occupied(cells, Coords(0, 0, 1)) &&
      !VisibleFaces(cells, p)[2] &&
      IsOpen(cells, p.x + OFFSETS[2].dx, p.y, p.z)
  {
    var p := Coords(USIZE_MAX, 0, 1);
    NeighborSteps(p);
  }

  /** A face mask is determined by its six flags. */
  lemma SameMask(a: FaceMask, b: FaceMask)
    requires forall f: FaceIndex :: a[f] == b[f]
    ensures a == b
  {
  }

  /** Adding an in-chunk block makes exactly its own cell occupied. */
  lemma InsertedInChunk(cells: Cells, b: Block, q: Coords)
    requires InChunk(b.pos)
    ensures Occupied(Inserted(cells, b), q) <==> q == b.pos || Occupied(cells, q)
  {
    IndexInRangeIff(b.pos);
    AddMakesOneCellOccupied(cells, b, q);
  }

  /** No face looks at the block's own cell: each neighbour differs from `p` on exactly one axis. */
  lemma NeighborIsElsewhere(p: Coords, f: FaceIndex)
    ensures Neighbor(p, f) != p
  {
    NeighborSteps(p);
  }

  /** A block alone in an otherwise empty chunk shows all six faces. */
  lemma IsolatedBlockShowsAllFaces(b: Block)
    requires InChunk(b.pos)
    ensures VisibleFaces(Inserted(EMPTY, b), b.pos) == ALL_VISIBLE
  {
    var cells := Inserted(EMPTY, b);
    forall f: FaceIndex
      ensures VisibleFaces(cells, b.pos)[f]
    {
      NeighborIsElsewhere(b.pos, f);
      InsertedInChunk(EMPTY, b, Neighbor(b.pos, f));
    }
    SameMask(VisibleFaces(cells, b.pos), ALL_VISIBLE);
  }

  /** A second block directly above in +z hides exactly the first block's +z face. */
  lemma CoveredFaceHidden(b: Block, c: Block)
    requires InChunk(b.pos) && b.pos.z < CHUNK_H - 1
    requires c.pos == Coords(b.pos.x, b.pos.y, b.pos.z + 1)
    ensures VisibleFaces(Inserted(Inserted(EMPTY, b), c), b.pos) == [false, true, true, true, true, true]
  {
    var cells := Inserted(Inserted(EMPTY, b), c);
    forall f: FaceIndex
      ensures VisibleFaces(cells, b.pos)[f] == (f != 0)
    {
      CoveredFaceAt(b, c, f);
    }
    SameMask(VisibleFaces(cells, b.pos), [false, true, true, true, true, true]);
  }

  /** Every stored block sits in the cell its own coordinates name. */
  predicate WellPlaced(cells: Cells) {
    forall i :: 0 <= i < CAPACITY && cells[i].Some? ==> cells[i].value.pos == CellAt(i)
  }

  /** One face of the covered block: only the +z neighbour holds a block. */
  lemma CoveredFaceAt(b: Block, c: Block, f: FaceIndex)
    requires InChunk(b.pos) && b.pos.z < CHUNK_H - 1
    requires c.pos == Coords(b.pos.x, b.pos.y, b.pos.z + 1)
    ensures VisibleFaces(Inserted(Inserted(EMPTY, b), c), b.pos)[f] == (f != 0)
  {
    var once := Inserted(EMPTY, b);
    var q := Neighbor(b.pos, f);
    if f == 0 {
      NeighborSteps(b.pos);
    }
    NeighborIsElsewhere(b.pos, f);
    InsertedInChunk(EMPTY, b, q);
    InsertedInChunk(once, c, q);
  }

  /** Every stored block sits in the slot `coords_to_index` computes from its own coordinates:
      the invariant `add` keeps for any block, in the chunk or not. */
  predicate IndexedByOwnPos(cells: Cells) {
    forall i :: 0 <= i < CAPACITY ==> IndexedAt(cells, i)
  }

  /** Slot `i` is empty or holds a block whose coordinates index `i`. */
  predicate IndexedAt(cells: Cells, i: int)
    requires 0 <= i < CAPACITY
  {
    cells[i].Some? ==> CoordsToIndex(cells[i].value.pos) == i
  }

  /** An empty chunk has the invariant, and every `add` keeps it. */
  lemma InsertedKeepsIndexed(cells: Cells, b: Block)
    requires IndexedByOwnPos(cells)
    ensures IndexedByOwnPos(EMPTY)
    ensures IndexedByOwnPos(Inserted(cells, b))
  {
    var r := Inserted(cells, b);
    forall i | 0 <= i < CAPACITY
      ensures IndexedAt(r, i)
    {
      if i != CoordsToIndex(b.pos) {
        assert r[i] == cells[i];
        assert IndexedAt(cells, i);
      }
    }
    forall i | 0 <= i < CAPACITY
      ensures IndexedAt(EMPTY, i)
    {
    }
  }

  /** Blocks in their own cells are in particular at the index of their coordinates; the converse
      fails for the aliased blocks `add` accepts. */
  lemma WellPlacedIsIndexed(cells: Cells)
    requires WellPlaced(cells)
    ensures IndexedByOwnPos(cells)
  {
    forall i | 0 <= i < CAPACITY
      ensures IndexedAt(cells, i)
    {
      CoordsToIndexOnChunk(CellAt(i));
    }
  }

  /** Adding blocks with in-chunk coordinates keeps every block in its own cell. */
  lemma AddKeepsWellPlaced(cells: Cells, b: Block)
    requires WellPlaced(cells) && InChunk(b.pos)
    ensures WellPlaced(Inserted(cells, b))
  {
    CoordsToIndexOnChunk(b.pos);
    SlotRoundTrip(b.pos);
  }

  /** The aliasing `add` allows breaks that: the block given [8, 0, 0] sits in the cell of [0, 0, 1]. */
  lemma AliasedAddMisplaces(faces: FaceMask)
    ensures WellPlaced(EMPTY)
    ensures !WellPlaced(Inserted(EMPTY, Block(faces, Coords(8, 0, 0))))
  {
    var cells := Inserted(EMPTY, Block(faces, Coords(8, 0, 0)));
    assert cells[8].value.pos != CellAt(8);
  }

  /** Six flags computed one wrapped neighbour at a time form the mask. */
  lemma MaskOfNeighbours(faces: FaceMask, cells: Cells, p: Coords)
    requires faces[0] == !Occupied(cells, Coords(p.x, p.y, WrappingAdd(p.z, 1)))
    requires faces[1] == !Occupied(cells, Coords(p.x, p.y, WrappingSub(p.z, 1)))
    requires faces[2] == !Occupied(cells, Coords(WrappingAdd(p.x, 1), p.y, p.z))
    requires faces[3] == !Occupied(cells, Coords(WrappingSub(p.x, 1), p.y, p.z))
    requires faces[4] == !Occupied(cells, Coords(p.x, WrappingAdd(p.y, 1), p.z))
    requires faces[5] == !Occupied(cells, Coords(p.x, WrappingSub(p.y, 1), p.z))
    ensures faces == VisibleFaces(cells, p)
  {
    NeighborSteps(p);
  }

  class Chunk {
    const blocks: array<Option<Block>>
    var pos: ChunkPos

    /** The array has the chunk's capacity and every block sits at the index of its coordinates. */
    ghost predicate Valid()
      reads blocks
    {
      blocks.Length == CAPACITY && IndexedByOwnPos(blocks[..])
    }

    ghost function Cells(): Cells
      reads blocks
      requires Valid()
    {
      blocks[..]
    }

    /** `Chunk::new(x, y)`: every slot empty, placed at chunk-grid position `[x, y]`. */
    constructor (x: Isize, y: Isize)
      ensures Valid() && fresh(blocks)
      ensures Cells() == EMPTY
      ensures pos == ChunkPos(x, y)
    {
      var slots := new Option<Block>[CAPACITY](_ => None);
      assert slots[..] == EMPTY;
      InsertedKeepsIndexed(EMPTY, Block(NONE_VISIBLE, Coords(0, 0, 0)));
      blocks := slots;
      pos := ChunkPos(x, y);
    }

    /** `Chunk::add(block)`: writes one slot in place; `pos` is untouched. */
    method Add(b: Block)
      requires Valid()
      modifies blocks
      ensures Valid()
      ensures Cells() == Inserted(old(Cells()), b)
    {
      InsertedKeepsIndexed(Cells(), b);
      var index := CoordsToIndex(b.pos);
      if 0 <= index < CAPACITY {
        blocks[index] := Some(b);
      }
    }

    /** `Chunk::has_block(pos)`: coordinates outside the chunk's extents have no block; otherwise
        the slot `coords_to_index` names is inspected.  Past the per-axis test the index is at
        most 1023, so the `<= CAPACITY` bound never lets index 1024 through. */
    method HasBlock(p: Coords) returns (r: bool)
      requires Valid()
      ensures r == Occupied(Cells(), p)
    {
      if p.x >= CHUNK_H || p.y >= CHUNK_V || p.z >= CHUNK_H {
        r := false;
      } else {
        var index := CoordsToIndex(p);
        if 0 <= index <= CAPACITY {
          assert index < CAPACITY;
          r := blocks[index] != None;
        } else {
          r := false;
        }
      }
    }

    /** `Chunk::neighbor_blocks(pos)`: starts from all faces visible and overwrites one face at a
        time with the answer of `has_block` for the neighbour one wrapping step away. */
    method NeighborBlocks(p: Coords) returns (faces: FaceMask)
      requires Valid()
      ensures faces == VisibleFaces(Cells(), p)
    {
      faces := ALL_VISIBLE;
      var b := HasBlock(Coords(p.x, p.y, WrappingAdd(p.z, 1)));  // +z
      faces := faces[0 := !b];
      b := HasBlock(Coords(p.x, p.y, WrappingSub(p.z, 1)));  // -z
      faces := faces[1 := !b];
      b := HasBlock(Coords(WrappingAdd(p.x, 1), p.y, p.z));  // +x
      faces := faces[2 := !b];
      b := HasBlock(Coords(WrappingSub(p.x, 1), p.y, p.z));  // -x
      faces := faces[3 := !b];
      b := HasBlock(Coords(p.x, WrappingAdd(p.y, 1), p.z));  // +y
      faces := faces[4 := !b];
      b := HasBlock(Coords(p.x, WrappingSub(p.y, 1), p.z));  // -y
      faces := faces[5 := !b];
      MaskOfNeighbours(faces, Cells(), p);
    }
  }
}
