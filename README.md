# Voxel face culling — a verified model

This project models the meshing core of a small voxel renderer written in Rust on the Bevy
engine (`src/main.rs`). It has four parts:

- **Chunk store** (`chunks.dfy`, module `Chunks`). A chunk is a fixed array of 8 × 8 × 16 = 1024
  optional blocks plus a position `[cx, cz]` on the horizontal chunk grid.
  - `Chunk::new` builds an empty chunk.
  - `Chunk::add` writes a block into the slot `coords_to_index` computes from the block's own
    coordinates, if that index lies in `[0, 1024)`.
  - `coords_to_index` is `x + 64*y + 8*z`. The products are on `usize`, the sum on `isize`.
- **Face visibility resolver** (same module).
  - `has_block` checks each axis against its extent, then looks the slot up.
  - `neighbor_blocks` steps each coordinate by ±1 with wrapping `usize` arithmetic. A face is
    visible exactly when `has_block` finds nothing at the neighbour. The faces come in the
    order +z, −z, +x, −x, +y, −y.
- **Cube mesher** (`mesher.dfy`, module `CubeMesher`). `gen_cube` walks the 24-row vertex table
  (4 rows per face) and keeps the rows of visible faces. It then attaches a fixed list of 36
  triangle indices.
- **World** (`world.dfy`, module `World`).
  - `block_update` spawns, for every stored block in slot order, a mesh of its visible faces at
    the world offset `local + 8 * chunk` on x and z (on `isize`), with the local height as y.
  - `setup` fills a solid chunk at `[0, 0]` and a checkerboard chunk at `[-1, 0]`.

Rust's machine integers are modelled in `machine_int.dfy` (module `MachineInt`). `usize` and
`isize` are 64 bits wide. Overflow wraps, as in a release build. `as isize` reinterprets the bits.
Each wrapping operation is proved equal to its exact value when nothing overflows, and equal to
the exact value reduced modulo 2^64 in every case.

The class follows the source's state. `Chunk` keeps its slots in an `array` that `Add` updates
in place. `HasBlock` and `NeighborBlocks` are methods that change nothing. Each is proved against
a reference reading on the chunk's contents `Cells()`: `Occupied` and `VisibleFaces`. The mesher
is proved against `CubeMesh`, a function of the face mask.

Facts about the code that the model makes explicit:

- The neighbour step wraps (`wrapping_add`, `wrapping_sub`), so a step below 0 gives 2^64 − 1,
  which the axis checks of `has_block` then reject.
- `has_block`'s `<=` bound never admits index 1024: after the three axis checks the index is at
  most 1023 (`Chunks.Chunk.HasBlock`).
- Every stored block sits at the index `coords_to_index` computes from its own coordinates. This
  is part of `Chunks.Chunk.Valid`, and every `add` keeps it. But `add` checks only the index, not
  the axes, so a block at `[8, 0, 0]` lands in the slot of `[0, 0, 1]`
  (`Chunks.AddAliasesOutOfChunkCoords`, `Chunks.AliasedAddMisplaces`).
- A mesh with some faces hidden keeps indices that address no vertex (see Findings).

## Model

| member | source | states |
|---|---|---|
| MachineInt.WrappingAdd | src/main.rs:55-60 | `wrapping_add` equals the exact sum when the sum fits in `usize` |
| MachineInt.WrappingSub | src/main.rs:55-60 | `wrapping_sub` equals the exact difference when it is not negative |
| MachineInt.UsizeMul | src/main.rs:50 | the `usize` products of the index formula are exact when they fit |
| MachineInt.IsizeAdd | src/main.rs:50 | `isize` addition is exact when the sum fits in `isize` |
| MachineInt.IsizeMul | src/main.rs:135-137 | `chunk.pos * 8` on `isize` is exact when the product fits |
| MachineInt.AsIsize | src/main.rs:50 | `u as isize` keeps u below 2^63 and gives u − 2^64 otherwise, with the same residue modulo 2^64 (`MachineInt.AsIsizeResidue`) |
| MachineInt.AsIsizeResidue | src/main.rs:50 | the cast `as isize` keeps the residue modulo 2^64, for every `usize` |
| MachineInt.WrappingOpsAreModular | src/main.rs:55-60 | the wrapping step is the exact sum or difference reduced modulo 2^64, for every input |
| MachineInt.IsizeAddIsModular | src/main.rs:50 | `isize` addition is the exact sum wrapped into the `isize` range, for every input |
| Chunks.CellAt | src/main.rs:49-51 | every slot in [0, 1024) is the index of in-chunk coordinates |
| Chunks.SlotRoundTrip | src/main.rs:49-51 | in-chunk coordinates index a slot in [0, 1024), and that slot's coordinates are the same ones again |
| Chunks.SlotInjective | src/main.rs:49-51 | distinct in-chunk coordinates never share an index |
| Chunks.CoordsToIndex | src/main.rs:49-51 | `coords_to_index` equals `x + 64y + 8z` whenever that value is below 2^63 |
| Chunks.CoordsToIndexWraps | src/main.rs:49-51 | for every input, overflowing or not, the index is `x + 64y + 8z` wrapped into `isize` |
| Chunks.CoordsToIndexOnChunk | src/main.rs:49-51 | in-chunk coordinates give the exact formula, below 1024; `[7, 15, 7]` gives 1023 |
| Chunks.Inserted | src/main.rs:43-46 | the contents after `add`: the slot at the block's index holds the block when that index is in [0, 1024), every other slot is unchanged, and an index out of range changes nothing |
| Chunks.InsertedKeepsIndexed | src/main.rs:40-48 | an empty chunk has every block at the index of its own coordinates, and every `add`, aliased or not, keeps that invariant |
| Chunks.WellPlacedIsIndexed | src/main.rs:43-45 | blocks in their own cells are at the index of their coordinates (the converse fails for aliased adds) |
| Chunks.IndexInRange | src/main.rs:44 | the guard of `add`: the index lies in [0, 1024) |
| Chunks.IndexInRangeIff | src/main.rs:43-45 | `add`'s guard accepts exactly the coordinates whose formula, modulo 2^64, is below 1024, including all in-chunk ones |
| Chunks.AddMakesOneCellOccupied | src/main.rs:40-48 | after an accepted `add`, a cell is occupied iff it was before or it owns the written slot (the block's own cell when in the chunk) |
| Chunks.InsertedInChunk | src/main.rs:40-48 | adding an in-chunk block occupies exactly its own cell in addition to the old ones |
| Chunks.AddKeepsWellPlaced | src/main.rs:40-48 | adding in-chunk blocks keeps every stored block in the slot of its own coordinates |
| Chunks.AddAliasesOutOfChunkCoords | src/main.rs:40-51 | `[8,0,0]` and `[0,0,1]` share index 8, so the block is found at `[0,0,1]` and not at its own coordinates; `[2^64-1,0,1]` indexes slot 7 |
| Chunks.AliasedAddMisplaces | src/main.rs:40-48 | an empty chunk is well placed, but one `add` of `[8,0,0]` leaves a block in a slot not its own |
| Chunks.Chunk.constructor | src/main.rs:34-39 | `Chunk::new(x, y)`: all 1024 slots empty, position `[x, y]`, with the chunk invariant established |
| Chunks.Chunk.Add | src/main.rs:40-48 | the chunk invariant is kept, and the new contents are the old contents with the block written at its index when that index is in [0, 1024), and unchanged otherwise |
| Chunks.Chunk.HasBlock | src/main.rs:64-78 | `has_block` returns true iff the coordinates are in the chunk and their slot holds a block |
| Chunks.Chunk.NeighborBlocks | src/main.rs:52-62 | the mask flags face f iff the wrapped neighbour in direction f holds no block |
| Chunks.Step | src/main.rs:55-60 | one coordinate step: `wrapping_add(1)` for +1, `wrapping_sub(1)` for −1, unchanged for 0 |
| Chunks.Neighbor | src/main.rs:55-60 | the neighbour for face f: each coordinate stepped by that face's offset (+z, −z, +x, −x, +y, −y) |
| Chunks.StepWraps | src/main.rs:55-60 | one step is the signed step reduced modulo 2^64 |
| Chunks.NeighborWraps | src/main.rs:55-60 | every neighbour is the signed neighbour reduced modulo 2^64 on each axis |
| Chunks.NeighborSteps | src/main.rs:52-62 | the six neighbours are the ±1 wrapping steps on z, z, x, x, y, y, in the order the flags are written |
| Chunks.MaskOfNeighbours | src/main.rs:52-62 | six flags, each the negated lookup of one wrapped neighbour, form exactly the visibility mask |
| Chunks.VisibleIffNeighbourOpen | src/main.rs:52-78 | for coordinates below 2^64 − 1, face f is visible iff the integer neighbour lies outside the chunk or is empty |
| Chunks.NoBlockIffOpen | src/main.rs:64-78 | a wrapped coordinate 2^64 − 1 fails the axis checks exactly as the signed −1 would |
| Chunks.ZeroCoordinateFacesVisible | src/main.rs:52-78 | a block at coordinate 0 on an axis always shows its face toward −1 on that axis: the neighbour wraps to 2^64 − 1 |
| Chunks.MaxCoordinateWrapsOntoChunk | src/main.rs:43-78 | a block at x = 2^64 − 1, which `add` accepts, has its +x neighbour wrap onto x = 0 and finds the block there, unlike the signed reading |
| Chunks.IsolatedBlockShowsAllFaces | src/main.rs:52-62 | a lone block in an empty chunk has all six faces visible |
| Chunks.CoveredFaceHidden | src/main.rs:52-62 | with one neighbour at +z, only the +z flag (the first) is false and the other five are true |
| CubeMesher.CountVisible | src/main.rs:185-191 | the number of visible faces is at most the mask's length, and equals it iff every face is visible |
| CubeMesher.EmittedBelow | src/main.rs:185-191 | the filter keeps only table rows it has already passed |
| CubeMesher.EmittedMembership | src/main.rs:185-191 | row k is kept iff its face `k / 4` is visible |
| CubeMesher.EmittedAscending | src/main.rs:185-191 | kept rows come out in table order, each once |
| CubeMesher.EmittedCount | src/main.rs:185-191 | the first m faces contribute 4 rows per visible face |
| CubeMesher.EmitVertices | src/main.rs:181-191 | the loop's position, normal and uv lists are the kept table rows in order |
| CubeMesher.GenCube | src/main.rs:145-208 | `gen_cube` as written: the kept rows plus the fixed 36 indices |
| CubeMesher.MeshSizes | src/main.rs:181-191 | positions, normals and uvs have equal length, 4 per visible face |
| CubeMesher.TableRowsOnTheirFace | src/main.rs:148-178 | every table row's normal is the direction its flag tests, and its corner lies on that side of the cube |
| CubeMesher.FixedIndicesAreQuads | src/main.rs:193-200 | the 36 indices are the quad pattern 0,1,2,2,3,0 at each face's first row |
| CubeMesher.MeshNormals | src/main.rs:185-191 | every emitted normal belongs to a visible face and points toward that face's neighbour |
| CubeMesher.IndicesInRangeIff | src/main.rs:181-206 | the fixed indices all address emitted vertices iff all six faces are visible |
| CubeMesher.OneFaceMeshOutOfRange | src/main.rs:185-200 | with only the first face visible there are 4 vertices, but index 34 is 23 |
| CubeMesher.FaceSlots | src/main.rs:185-191 | corner c of a visible face f sits at position 4 × (visible faces before f) + c of the kept rows |
| CubeMesher.CompactBelow | src/main.rs:193-200 | the corrected list has 6 indices per visible face, each below the number of emitted vertices |
| CubeMesher.CompactQuadOfVisibleFace | src/main.rs:193-200 | each visible face gets the pattern 0,1,2,2,3,0 offset by 4 × (visible faces before it) |
| CubeMesher.GenCubeCulled | src/main.rs:145-208 | the corrected mesher: the same kept rows, with indices renumbered per kept face |
| CubeMesher.CulledIndicesInRange | src/main.rs:193-200 | the corrected mesh has 6 indices per visible face and every one addresses an emitted vertex |
| CubeMesher.CompactMatchesFixed | src/main.rs:193-200 | each corrected index addresses the same table row the fixed list names for that face, so the triangles are the intended ones |
| CubeMesher.CompactAllVisible | src/main.rs:193-200 | with all faces visible the corrected indices are the original 36 |
| CubeMesher.OneFaceMeshCorrected | src/main.rs:193-200 | with only the first face visible the corrected indices are 0,1,2,2,3,0 |
| World.Placement | src/main.rs:134-138 | the translation of `block_update`; for in-chunk local coordinates and chunk coordinates below 2^59 in magnitude it is exactly `(x + 8cx, y, z + 8cz)` |
| World.PlacementWraps | src/main.rs:134-138 | for every input the translation's x and z are the exact sums wrapped into `isize` |
| World.PlacementSplits | src/main.rs:134-138 | the world x and z, divided by 8, give back the chunk, and the remainders give the local coordinates |
| World.PlacementInjective | src/main.rs:134-138 | two in-chunk blocks of such chunks never share a world cell unless they are the same cell of the same chunk |
| World.NegativeChunkPlacement | src/main.rs:134-138 | chunk `[-1, 0]` covers world x −8 to −1, next to chunk `[0, 0]` |
| World.OccupiedBelow | src/main.rs:127 | the visited slots are below the bound and hold blocks |
| World.OccupiedMembership | src/main.rs:127 | `iter().flatten()` visits a slot iff it holds a block |
| World.OccupiedAscending | src/main.rs:127 | slots are visited in ascending order, each once |
| World.BlockUpdate | src/main.rs:120-143 | one spawn per stored block, in slot order: the mesh of the faces `neighbor_blocks` reports for it, at its translation |
| World.SpawnsFollowSlots | src/main.rs:127-138 | in a well-placed chunk spawn k is the mesh of the k-th occupied cell's visible faces, placed at that cell |
| World.KeptFacesLookAtEmptyCells | src/main.rs:129 | every vertex a spawned mesh keeps lies on a face whose neighbour cell is empty |
| World.ProgressStep | src/main.rs:85-93 | one step of the fill loops adds the current cell's default block when it is kept, and nothing else |
| World.FillLine | src/main.rs:87-92 | the innermost loop over z takes the chunk from step `(x, y, 0)` to `(x, y, 8)` of the fill |
| World.FillChunk | src/main.rs:84-111 | after the triple loop the chunk holds a default block at every kept cell, and nothing elsewhere |
| World.Setup | src/main.rs:81-118 | `setup` builds the solid chunk at `[0, 0]` and the checkerboard chunk at `[-1, 0]` as two separate arrays |
| World.FilledOccupied | src/main.rs:84-111 | a filled chunk is well placed and occupied exactly at its kept in-chunk cells |
| World.NeighbourParity | src/main.rs:98-111 | an in-chunk neighbour's coordinate sum has the other parity |
| World.CheckeredBlocksFullyExposed | src/main.rs:98-111 | every block of the checkerboard chunk shows all six faces |
| World.SolidInteriorHidden | src/main.rs:84-95 | a block of the solid chunk away from every side shows no face |
| World.SolidCornerFaces | src/main.rs:84-95 | the solid chunk's corner `[0, 0, 0]` shows exactly its −z, −x and −y faces |
| World.SolidChunkSpawnCount | src/main.rs:84-95 | the solid chunk spawns 1024 meshes |
| World.SolidInteriorMeshes | src/main.rs:84-95 | for an interior block of the solid chunk the as-written mesh has 0 vertices but 36 indices, and the corrected mesh is empty |

## Left out

- Floating point: the cube's ±0.45 corners, the normals and the uvs are modelled as discrete
  values (corner signs, integer directions, 0/1 texture coordinates). The translation is
  modelled on `isize`, before its `as f32` conversion.
- Engine glue is not part of this model: the application, plugins, debug plugin, camera,
  `Commands`, mesh and material assets, `PbrBundle` and mesh attribute upload. A spawn is
  modelled as the pair (mesh, translation).
- `Changed<Chunk>` and `for_each_mut`: `World.BlockUpdate` handles one chunk, and the scheduler
  that picks changed chunks is left out.
- Debug-build overflow panics: the model wraps as a release build does. `MachineInt` proves that
  no wrap occurs whenever the exact value fits, where the two builds agree.
- By-value `self`: `add`, `neighbor_blocks` and `has_block` take the chunk by value. `add` returns
  the updated copy, which the caller assigns back. The model updates the chunk's array in place
  and treats the two lookups as methods that change nothing. Aliasing of copies is not modelled.
- `Block.faces` is stored but never read by the mesher. Setup blocks carry the default mask, all
  false.
- Triangle winding: the model proves that each kept face's indices follow the source's quad
  pattern. It does not prove that the triangles face outward in floating-point geometry.
- Chunks.VisibleIffNeighbourOpen: requires coordinates below 2^64 − 1, because at 2^64 − 1 the
  wrapped step differs from the signed one. `Chunks.MaxCoordinateWrapsOntoChunk` shows the
  difference.
- World.Placement: exact only for in-chunk local coordinates and chunk positions below 2^59 in
  magnitude. For every input, `World.PlacementWraps` states the wrapped result.
- World.BlockUpdate: builds each mesh with the corrected mesher (`CubeMesher.GenCubeCulled`), not
  the as-written `gen_cube`, which `CubeMesher.GenCube` models (see Findings).
- World.Setup: builds each chunk through one `World.FillChunk` method. A flag selects the solid
  loop or the checkerboard loop. The source writes the two loops out separately.
- Cross-chunk culling: the source never consults neighbouring chunks, and neither does the model.

## Findings

| source | as written | input that shows it | evidently intended | confidence | as-written member | corrected member |
|---|---|---|---|---|---|---|
| src/main.rs:193-200 | `gen_cube` keeps only the vertices of visible faces but always attaches the fixed 36 indices 0–23 | faces `[true, false, false, false, false, false]`: 4 vertices are emitted, yet index 34 is 23 | each kept face gets 0,1,2,2,3,0 offset by 4 × (visible faces before it), so every index addresses an emitted vertex | not executed | CubeMesher.OneFaceMeshOutOfRange | CubeMesher.CulledIndicesInRange |
