/** The cube mesher: `gen_cube` turns a six-flag face mask into one block's mesh.

    The 24 vertices of a cube (four per face, faces in the order top, bottom, right, left,
    front, back) sit in a fixed table.  Vertex `k` belongs to face `k / 4` and is kept exactly
    when that face's flag is set; kept vertices are pushed in table order into three parallel
    lists.  The index list is a fixed 36-entry list that names the table's slots, whatever the
    mask.  Geometry is discrete here: a coordinate of a corner is the sign of the box's `min`
    (-1) or `max` (+1), a normal is an axis direction and a texture coordinate is 0 or 1. */
module CubeMesher {
  import opened Chunks

  /** A cube corner: each component is -1 (the box's `min`) or +1 (its `max`). */
  datatype Corner = Corner(x: int, y: int, z: int)

  /** A texture coordinate, each component 0 or 1. */
  datatype Uv = Uv(u: int, v: int)

  /** One row of the vertex table: position, normal and texture coordinate. */
  datatype Vertex = Vertex(position: Corner, normal: Direction, uv: Uv)

  /** The number of rows of the vertex table, four per face. */
  const VERTEX_COUNT: nat := 24

  /** The vertex table of `gen_cube`, four vertices per face. */
  const CUBE_VERTICES: seq<Vertex> := [
    // top
    Vertex(Corner(-1, -1, 1), Direction(0, 0, 1), Uv(0, 0)),
    Vertex(Corner(1, -1, 1), Direction(0, 0, 1), Uv(1, 0)),
    Vertex(Corner(1, 1, 1), Direction(0, 0, 1), Uv(1, 1)),
    Vertex(Corner(-1, 1, 1), Direction(0, 0, 1), Uv(0, 1)),
    // bottom
    Vertex(Corner(-1, 1, -1), Direction(0, 0, -1), Uv(1, 0)),
    Vertex(Corner(1, 1, -1), Direction(0, 0, -1), Uv(0, 0)),
    Vertex(Corner(1, -1, -1), Direction(0, 0, -1), Uv(0, 1)),
    Vertex(Corner(-1, -1, -1), Direction(0, 0, -1), Uv(1, 1)),
    // right
    Vertex(Corner(1, -1, -1), Direction(1, 0, 0), Uv(0, 0)),
    Vertex(Corner(1, 1, -1), Direction(1, 0, 0), Uv(1, 0)),
    Vertex(Corner(1, 1, 1), Direction(1, 0, 0), Uv(1, 1)),
    Vertex(Corner(1, -1, 1), Direction(1, 0, 0), Uv(0, 1)),
    // left
    Vertex(Corner(-1, -1, 1), Direction(-1, 0, 0), Uv(1, 0)),
    Vertex(Corner(-1, 1, 1), Direction(-1, 0, 0), Uv(0, 0)),
    Vertex(Corner(-1, 1, -1), Direction(-1, 0, 0), Uv(0, 1)),
    Vertex(Corner(-1, -1, -1), Direction(-1, 0, 0), Uv(1, 1)),
    // front
    Vertex(Corner(1, 1, -1), Direction(0, 1, 0), Uv(1, 0)),
    Vertex(Corner(-1, 1, -1), Direction(0, 1, 0), Uv(0, 0)),
    Vertex(Corner(-1, 1, 1), Direction(0, 1, 0), Uv(0, 1)),
    Vertex(Corner(1, 1, 1), Direction(0, 1, 0), Uv(1, 1)),
    // back
    Vertex(Corner(1, -1, 1), Direction(0, -1, 0), Uv(0, 0)),
    Vertex(Corner(-1, -1, 1), Direction(0, -1, 0), Uv(1, 0)),
    Vertex(Corner(-1, -1, -1), Direction(0, -1, 0), Uv(1, 1)),
    Vertex(Corner(1, -1, -1), Direction(0, -1, 0), Uv(0, 1))
  ]

  /** The six indices of one quad whose first vertex is `b`: triangles (b, b+1, b+2) and (b+2, b+3, b). */
  function Quad(b: nat): seq<nat> {
    [b, b + 1, b + 2, b + 2, b + 3, b]
  }

  /** The fixed index list of `gen_cube`. */
  const CUBE_INDICES: seq<nat> :=
    [0, 1, 2, 2, 3, 0] +        // top
    [4, 5, 6, 6, 7, 4] +        // bottom
    [8, 9, 10, 10, 11, 8] +     // right
    [12, 13, 14, 14, 15, 12] +  // left
    [16, 17, 18, 18, 19, 16] +  // front
    [20, 21, 22, 22, 23, 20]    // back

  /** A triangle-list mesh: three parallel vertex attribute lists and an index list. */
  datatype Mesh = Mesh(positions: seq<Corner>, normals: seq<Direction>, uvs: seq<Uv>, indices: seq<nat>)

  /** The number of set flags. */
  function CountVisible(s: seq<bool>): (n: nat)
    ensures n <= |s|
    ensures n == |s| <==> forall i :: 0 <= i < |s| ==> s[i]
  {
    if |s| == 0 then 0 else CountVisible(s[..|s| - 1]) + (if s[|s| - 1] then 1 else 0)
  }

  /** The table slots below `n` that the filter keeps, ascending. */
  function EmittedBelow(faces: FaceMask, n: nat): (s: seq<nat>)
    requires n <= VERTEX_COUNT
    ensures forall j :: 0 <= j < |s| ==> s[j] < n
  {
    if n == 0 then []
    else EmittedBelow(faces, n - 1) + (if faces[(n - 1) / 4] then [n - 1] else [])
  }

  /** The table slots the filter keeps. */
  function EmittedSlots(faces: FaceMask): seq<nat> {
    EmittedBelow(faces, VERTEX_COUNT)
  }

  /** Table slots, all within the table. */
  predicate ValidSlots(s: seq<nat>) {
    |CUBE_VERTICES| == VERTEX_COUNT && forall j :: 0 <= j < |s| ==> s[j] < VERTEX_COUNT
  }

  function Positions(s: seq<nat>): (r: seq<Corner>)
    requires ValidSlots(s)
    ensures |r| == |s|
  {
    seq(|s|, j requires 0 <= j < |s| => CUBE_VERTICES[s[j]].position)
  }

  function Normals(s: seq<nat>): (r: seq<Direction>)
    requires ValidSlots(s)
    ensures |r| == |s|
  {
    seq(|s|, j requires 0 <= j < |s| => CUBE_VERTICES[s[j]].normal)
  }

  function Uvs(s: seq<nat>): (r: seq<Uv>)
    requires ValidSlots(s)
    ensures |r| == |s|
  {
    seq(|s|, j requires 0 <= j < |s| => CUBE_VERTICES[s[j]].uv)
  }

  /** Keeping one more slot appends its row to each attribute list. */
  lemma PushSlot(s: seq<nat>, k: nat)
    requires ValidSlots(s) && k < VERTEX_COUNT
    ensures ValidSlots(s + [k])
    ensures Positions(s + [k]) == Positions(s) + [CUBE_VERTICES[k].position]
    ensures Normals(s + [k]) == Normals(s) + [CUBE_VERTICES[k].normal]
    ensures Uvs(s + [k]) == Uvs(s) + [CUBE_VERTICES[k].uv]
  {
  }

  /** The mesh `gen_cube` builds: the attributes of the kept slots, and the fixed index list. */
  function CubeMesh(faces: FaceMask): Mesh {
    var s := EmittedSlots(faces);
    Mesh(Positions(s), Normals(s), Uvs(s), CUBE_INDICES)
  }

  /** The vertex filter of `gen_cube`: one pass over the table pushing the rows of visible faces. */
  method EmitVertices(faces: FaceMask) returns (positions: seq<Corner>, normals: seq<Direction>, uvs: seq<Uv>)
    ensures var s := EmittedSlots(faces);
      positions == Positions(s) && normals == Normals(s) && uvs == Uvs(s)
  {
    positions, normals, uvs := [], [], [];
    for k := 0 to VERTEX_COUNT
      invariant positions == Positions(EmittedBelow(faces, k))
      invariant normals == Normals(EmittedBelow(faces, k))
      invariant uvs == Uvs(EmittedBelow(faces, k))
    {
      if faces[k / 4] {
        PushSlot(EmittedBelow(faces, k), k);
        var v := CUBE_VERTICES[k];
        positions := positions + [v.position];
        normals := normals + [v.normal];
        uvs := uvs + [v.uv];
      }
    }
  }

  /** `gen_cube(faces)` as written: the filtered vertices with the fixed index list. */
  method GenCube(faces: FaceMask) returns (mesh: Mesh)
    ensures mesh == CubeMesh(faces)
  {
    var positions, normals, uvs := EmitVertices(faces);
    mesh := Mesh(positions, normals, uvs, CUBE_INDICES);
  }

  // ---------------------------------------------------------------------------------------
  // The vertex filter

  /** Vertex `k` is kept exactly when the flag of its face `k / 4` is set. */
  lemma {:induction false} EmittedMembership(faces: FaceMask, n: nat)
    requires n <= VERTEX_COUNT
    ensures forall k: nat :: k in EmittedBelow(faces, n) <==> k < n && faces[k / 4]
  {
    if n > 0 {
      EmittedMembership(faces, n - 1);
    }
  }

  /** Kept vertices come out in ascending table order. */
  lemma {:induction false} EmittedAscending(faces: FaceMask, n: nat)
    requires n <= VERTEX_COUNT
    ensures forall i, j :: 0 <= i < j < |EmittedBelow(faces, n)| ==>
      EmittedBelow(faces, n)[i] < EmittedBelow(faces, n)[j]
  {
    if n > 0 {
      EmittedAscending(faces, n - 1);
    }
  }

  /** One more table row: kept exactly when the flag of its face is set, at the end of the list. */
  lemma EmittedStep(faces: FaceMask, n: nat, f: FaceIndex)
    requires 4 * f <= n < 4 * f + 4
    ensures |EmittedBelow(faces, n + 1)| == |EmittedBelow(faces, n)| + (if faces[f] then 1 else 0)
    ensures faces[f] ==> EmittedBelow(faces, n + 1)[|EmittedBelow(faces, n)|] == n
  {
    assert n / 4 == f;
  }

  /** The four slots of face `f` are all kept or all dropped together. */
  lemma EmittedFace(faces: FaceMask, f: FaceIndex)
    ensures |EmittedBelow(faces, 4 * f + 4)| == |EmittedBelow(faces, 4 * f)| + (if faces[f] then 4 else 0)
  {
    var b := 4 * f;
    EmittedStep(faces, b, f);
    EmittedStep(faces, b + 1, f);
    EmittedStep(faces, b + 2, f);
    EmittedStep(faces, b + 3, f);
  }

  /** Counting the set flags one face at a time. */
  lemma CountStep(s: seq<bool>, m: nat)
    requires m < |s|
    ensures CountVisible(s[..m + 1]) == CountVisible(s[..m]) + (if s[m] then 1 else 0)
  {
    assert s[..m + 1][..m] == s[..m];
  }

  /** The slots kept from the first `m` faces are four per set flag among them. */
  lemma {:induction false} EmittedCount(faces: FaceMask, m: nat)
    requires m <= 6
    ensures |EmittedBelow(faces, 4 * m)| == 4 * CountVisible(faces[..m])
  {
    if m > 0 {
      var f := m - 1;
      EmittedCount(faces, f);
      EmittedFace(faces, f);
      CountStep(faces, f);
      assert 4 * m == 4 * f + 4;
    }
  }

  /** The three attribute lists have the same length, four entries per visible face. */
  lemma MeshSizes(faces: FaceMask)
    ensures |CubeMesh(faces).positions| == |CubeMesh(faces).normals| == |CubeMesh(faces).uvs|
      == 4 * CountVisible(faces)
  {
    EmittedCount(faces, 6);
    assert faces[..6] == faces;
  }

  // ---------------------------------------------------------------------------------------
  // The fixed tables

  /** The coordinate of a corner along an axis direction. */
  function Dot(c: Corner, d: Direction): int {
    c.x * d.dx + c.y * d.dy + c.z * d.dz
  }

  /** Each table row lies on the outer side of its face, and its normal is the neighbour offset
      `neighbor_blocks` tests for that face: the flag that drops a face is the one that looks
      through it. */
  lemma TableRowsOnTheirFace(k: nat)
    requires k < VERTEX_COUNT
    ensures |CUBE_VERTICES| == VERTEX_COUNT
    ensures CUBE_VERTICES[k].normal == OFFSETS[k / 4]
    ensures Dot(CUBE_VERTICES[k].position, OFFSETS[k / 4]) == 1
  {
  }

  /** The fixed index list is one quad per face: face `f` contributes 4f, 4f+1, 4f+2, 4f+2, 4f+3, 4f. */
  lemma FixedIndicesAreQuads()
    ensures CUBE_INDICES == Quad(0) + Quad(4) + Quad(8) + Quad(12) + Quad(16) + Quad(20)
  {
  }

  /** The mesh's normals: entry `j` is the neighbour offset of the face of the `j`-th kept slot,
      and that face's flag is set. */
  lemma MeshNormals(faces: FaceMask)
    ensures forall j :: 0 <= j < |CubeMesh(faces).normals| ==>
      var k := EmittedSlots(faces)[j];
      k < VERTEX_COUNT && faces[k / 4] && CubeMesh(faces).normals[j] == OFFSETS[k / 4]
  {
    var s := EmittedSlots(faces);
    EmittedMembership(faces, VERTEX_COUNT);
    forall j | 0 <= j < |s|
      ensures faces[s[j] / 4] && CubeMesh(faces).normals[j] == OFFSETS[s[j] / 4]
    {
      assert s[j] in s;
      TableRowsOnTheirFace(s[j]);
    }
  }

  /** As written, the fixed index list stays within the kept vertices only when all six faces are
      visible; with any face culled, some index points past the end of the vertex lists. */
  lemma IndicesInRangeIff(faces: FaceMask)
    ensures (forall i :: 0 <= i < |CubeMesh(faces).indices| ==>
      CubeMesh(faces).indices[i] < |CubeMesh(faces).positions|) <==> faces == ALL_VISIBLE
  {
    MeshSizes(faces);
    var m := CubeMesh(faces);
    if faces == ALL_VISIBLE {
      assert CountVisible(faces) == 6;
    } else {
      var f :| 0 <= f < 6 && !faces[f];
      assert m.indices[34] == 23;
    }
  }

  /** A block with one visible face, as written: four vertices, yet index 23 among the indices. */
  lemma OneFaceMeshOutOfRange()
    ensures var m := CubeMesh([true, false, false, false, false, false]);
      |m.positions| == 4 && m.indices[34] == 23
  {
    var faces: FaceMask := [true, false, false, false, false, false];
    MeshSizes(faces);
    assert faces[..0] == [];
    CountStep(faces, 0);
    CountStep(faces, 1);
    CountStep(faces, 2);
    CountStep(faces, 3);
    CountStep(faces, 4);
    CountStep(faces, 5);
    assert faces[..6] == faces;
  }

  // ---------------------------------------------------------------------------------------
  // The corrected index list

  /** A slot kept below `n` stays at its place when more rows are filtered. */
  lemma {:induction false} EmittedPrefixAt(faces: FaceMask, n: nat, m: nat, i: nat)
    requires n <= m <= VERTEX_COUNT && i < |EmittedBelow(faces, n)|
    ensures i < |EmittedBelow(faces, m)| && EmittedBelow(faces, m)[i] == EmittedBelow(faces, n)[i]
  {
    if n < m {
      EmittedPrefixAt(faces, n, m - 1, i);
    }
  }

  /** Within a visible face, each row adds one kept slot. */
  lemma {:induction false} EmittedWithinFace(faces: FaceMask, f: FaceIndex, c: nat)
    requires faces[f] && c <= 4
    ensures |EmittedBelow(faces, 4 * f + c)| == |EmittedBelow(faces, 4 * f)| + c
  {
    if c > 0 {
      EmittedWithinFace(faces, f, c - 1);
      EmittedStep(faces, 4 * f + c - 1, f);
    }
  }

  /** The four rows of a visible face `f` are the kept vertices 4c .. 4c+3, where `c` counts the
      visible faces before `f`. */
  lemma FaceSlots(faces: FaceMask, f: FaceIndex, c: nat)
    requires faces[f] && c < 4
    ensures 4 * CountVisible(faces[..f]) + c < |EmittedSlots(faces)|
    ensures EmittedSlots(faces)[4 * CountVisible(faces[..f]) + c] == 4 * f + c
  {
    var n := 4 * f + c;
    EmittedCount(faces, f);
    EmittedWithinFace(faces, f, c);
    EmittedStep(faces, n, f);
    EmittedPrefixAt(faces, n + 1, VERTEX_COUNT, |EmittedBelow(faces, n)|);
  }

  /** The corrected index list over the first `m` faces: the quad of the j-th visible face uses
      the j-th group of four kept vertices. */
  function CompactBelow(faces: FaceMask, m: nat): (r: seq<nat>)
    requires m <= 6
    ensures |r| == 6 * CountVisible(faces[..m])
    ensures forall i :: 0 <= i < |r| ==> r[i] < 4 * CountVisible(faces[..m])
  {
    if m == 0 then []
    else
      CountStep(faces, m - 1);
      CompactBelow(faces, m - 1) + (if faces[m - 1] then Quad(4 * CountVisible(faces[..m - 1])) else [])
  }

  /** The indices the corrected mesher emits. */
  function CompactIndices(faces: FaceMask): seq<nat> {
    CompactBelow(faces, 6)
  }

  /** The quads of the fixed list that belong to visible faces among the first `m`: the triangles
      the as-written list means to draw. */
  function KeptQuads(faces: FaceMask, m: nat): seq<nat>
    requires m <= 6
  {
    if m == 0 then [] else KeptQuads(faces, m - 1) + (if faces[m - 1] then Quad(4 * (m - 1)) else [])
  }

  /** The mesh with the corrected index list. */
  function CulledCubeMesh(faces: FaceMask): Mesh {
    var s := EmittedSlots(faces);
    Mesh(Positions(s), Normals(s), Uvs(s), CompactIndices(faces))
  }

  /** `gen_cube` with the index list built alongside the filter: one quad per visible face,
      numbered by how many visible faces precede it. */
  method GenCubeCulled(faces: FaceMask) returns (mesh: Mesh)
    ensures mesh == CulledCubeMesh(faces)
  {
    var positions, normals, uvs := EmitVertices(faces);
    var indices: seq<nat> := [];
    var kept := 0;
    for f := 0 to 6
      invariant kept == CountVisible(faces[..f])
      invariant indices == CompactBelow(faces, f)
    {
      CountStep(faces, f);
      if faces[f] {
        indices := indices + Quad(4 * kept);
        kept := kept + 1;
      }
    }
    mesh := Mesh(positions, normals, uvs, indices);
  }

  /** Every corrected index names a kept vertex, six indices per visible face. */
  lemma CulledIndicesInRange(faces: FaceMask)
    ensures |CulledCubeMesh(faces).indices| == 6 * CountVisible(faces)
    ensures forall i :: 0 <= i < |CulledCubeMesh(faces).indices| ==>
      CulledCubeMesh(faces).indices[i] < |CulledCubeMesh(faces).positions|
  {
    MeshSizes(faces);
    assert faces[..6] == faces;
  }

  /** The corner each of a quad's six indices names: 0, 1, 2, 2, 3, 0. */
  function QuadCorner(q: nat): (c: nat)
    requires q < 6
    ensures c < 4
  {
    [0, 1, 2, 2, 3, 0][q]
  }

  /** For a visible face the corrected list grows by one quad based at the count of visible
      faces so far. */
  lemma CompactQuadOfVisibleFace(faces: FaceMask, f: FaceIndex, q: nat)
    requires faces[f] && q < 6
    ensures |CompactBelow(faces, f)| + q < |CompactBelow(faces, f + 1)|
    ensures CompactBelow(faces, f + 1)[|CompactBelow(faces, f)| + q] == 4 * CountVisible(faces[..f]) + QuadCorner(q)
  {
    assert CompactBelow(faces, f + 1) == CompactBelow(faces, f) + Quad(4 * CountVisible(faces[..f]));
  }

  /** For a visible face the kept part of the fixed list grows by the quad based at 4f. */
  lemma KeptQuadOfVisibleFace(faces: FaceMask, f: FaceIndex, q: nat)
    requires faces[f] && q < 6
    ensures |KeptQuads(faces, f)| + q < |KeptQuads(faces, f + 1)|
    ensures KeptQuads(faces, f + 1)[|KeptQuads(faces, f)| + q] == 4 * f + QuadCorner(q)
  {
    assert KeptQuads(faces, f + 1) == KeptQuads(faces, f) + Quad(4 * f);
  }

  /** The kept quads are six indices per visible face. */
  lemma {:induction false} KeptQuadsSize(faces: FaceMask, m: nat)
    requires m <= 6
    ensures |KeptQuads(faces, m)| == 6 * CountVisible(faces[..m])
  {
    if m > 0 {
      KeptQuadsSize(faces, m - 1);
      CountStep(faces, m - 1);
    }
  }

  /** Through the filter, the corrected index at place `i` names the very table row that the
      fixed list names at the same place among the visible faces' quads. */
  lemma {:induction false} CompactMatchesFixedAt(faces: FaceMask, m: nat, i: nat)
    requires m <= 6 && i < |CompactBelow(faces, m)|
    ensures i < |KeptQuads(faces, m)|
    ensures CompactBelow(faces, m)[i] < |EmittedSlots(faces)|
    ensures EmittedSlots(faces)[CompactBelow(faces, m)[i]] == KeptQuads(faces, m)[i]
  {
    var f := m - 1;
    KeptQuadsSize(faces, m);
    KeptQuadsSize(faces, f);
    var prev := CompactBelow(faces, f);
    if i < |prev| {
      CompactMatchesFixedAt(faces, f, i);
      assert CompactBelow(faces, m)[i] == prev[i];
      assert KeptQuads(faces, m)[i] == KeptQuads(faces, f)[i];
    } else {
      CountStep(faces, f);
      var q := i - |prev|;
      assert faces[f];
      CompactQuadOfVisibleFace(faces, f, q);
      KeptQuadOfVisibleFace(faces, f, q);
      FaceSlots(faces, f, QuadCorner(q));
    }
  }

  /** The same, for every place of the corrected list. */
  lemma CompactMatchesFixed(faces: FaceMask)
    ensures |CompactIndices(faces)| == |KeptQuads(faces, 6)|
    ensures forall i :: 0 <= i < |CompactIndices(faces)| ==>
      CompactIndices(faces)[i] < |EmittedSlots(faces)| &&
      EmittedSlots(faces)[CompactIndices(faces)[i]] == KeptQuads(faces, 6)[i]
  {
    KeptQuadsSize(faces, 6);
    forall i | 0 <= i < |CompactIndices(faces)|
      ensures CompactIndices(faces)[i] < |EmittedSlots(faces)|
      ensures EmittedSlots(faces)[CompactIndices(faces)[i]] == KeptQuads(faces, 6)[i]
    {
      CompactMatchesFixedAt(faces, 6, i);
    }
  }

  /** With all six faces visible the correction changes nothing: the corrected list is the fixed one. */
  lemma CompactAllVisible()
    ensures CompactIndices(ALL_VISIBLE) == CUBE_INDICES
  {
    var a := ALL_VISIBLE;
    assert CountVisible(a[..0]) == 0;
    assert CountVisible(a[..1]) == 1;
    assert CountVisible(a[..2]) == 2;
    assert CountVisible(a[..3]) == 3;
    assert CountVisible(a[..4]) == 4;
    assert CountVisible(a[..5]) == 5;
    assert CompactBelow(a, 6) == Quad(0) + Quad(4) + Quad(8) + Quad(12) + Quad(16) + Quad(20);
    FixedIndicesAreQuads();
  }

  /** The one-face example corrected: its six indices are 0, 1, 2, 2, 3, 0. */
  lemma OneFaceMeshCorrected()
    ensures CulledCubeMesh([true, false, false, false, false, false]).indices == Quad(0)
  {
    var faces: FaceMask := [true, false, false, false, false, false];
    assert faces[..0] == [];
    assert CompactBelow(faces, 1) == Quad(0);
    assert CompactBelow(faces, 2) == CompactBelow(faces, 1);
    assert CompactBelow(faces, 3) == CompactBelow(faces, 2);
    assert CompactBelow(faces, 4) == CompactBelow(faces, 3);
    assert CompactBelow(faces, 5) == CompactBelow(faces, 4);
    assert CompactBelow(faces, 6) == CompactBelow(faces, 5);
  }
}
