/** Visible-face mesh extraction for one chunk (src/chunk.rs): the six
    cached boundary planes of the neighbour chunks, the per-cell face
    flags, and the face loop of `generate_mesh`. */
module ChunkMeshing {
  import opened Wrappers
  import opened VoxelChunk
  import opened Blocks
  import opened Meshes
  import opened CubeMeshes
  import opened ChunkStore

  /** One value per face direction: the neighbour chunks of
      `AdjacentChunks`, the planes of `AdjacentEdges`. */
  datatype Adjacent<T> = Adjacent(left: T, right: T, top: T, bottom: T, front: T, back: T) {
    function At(f: BlockFace): T {
      match f
      case Left => left
      case Right => right
      case Top => top
      case Bottom => bottom
      case Front => front
      case Back => back
    }
  }

  /** `AdjacentChunks`: each neighbour chunk, if it is loaded. */
  type AdjacentChunks = Adjacent<Option<ChunkData>>

  /** `AdjacentEdges`: one `[bool; 1024]` plane per direction. */
  type AdjacentEdges = Adjacent<seq<bool>>

  /** The slots of the neighbours, as `read()` sees them. */
  type Neighbours = Adjacent<Option<seq<Slot>>>

  /** Entries of one boundary plane, 32². */
  const PlaneSize: nat := ChunkSize * ChunkSize

  // ---- occupancy ----

  /** The slot of cell `c`, stored at `x + 32y + 1024z`. */
  function SlotAt(blocks: seq<Slot>, c: Cell): Slot
    requires |blocks| == ChunkVolume && InChunk(c)
  {
    IndexInjective(c.0, c.1, c.2, c.0, c.1, c.2);
    blocks[ChunkData.Index(c.0, c.1, c.2)]
  }

  /** `block(...).is_some()`. */
  predicate Occupied(blocks: seq<Slot>, c: Cell)
    requires |blocks| == ChunkVolume && InChunk(c)
  {
    SlotAt(blocks, c).Some?
  }

  /** A present neighbour has a full chunk of slots (`block` panics
      otherwise). */
  predicate Sized(n: Option<seq<Slot>>) {
    n.Some? ==> |n.value| == ChunkVolume
  }

  predicate AllSized(ns: Neighbours) {
    forall f :: Sized(ns.At(f))
  }

  predicate PlanesSized(edges: AdjacentEdges) {
    && |edges.left| == PlaneSize && |edges.right| == PlaneSize
    && |edges.top| == PlaneSize && |edges.bottom| == PlaneSize
    && |edges.front| == PlaneSize && |edges.back| == PlaneSize
  }

  // ---- the boundary planes ----

  /** `AdjacentEdges::index`: `a + 32b`. Inside a 32 × 32 plane it is
      below 1024 and tells its two coordinates apart. */
  function EdgeIndex(a: int, b: int): (k: int)
    ensures 0 <= a < ChunkSize && 0 <= b < ChunkSize ==> 0 <= k < PlaneSize
    ensures 0 <= a < ChunkSize && 0 <= b < ChunkSize ==> k % ChunkSize == a && k / ChunkSize == b
  {
    a + b * ChunkSize
  }

  lemma EdgeIndexInjective(a: int, b: int, a': int, b': int)
    requires 0 <= a < ChunkSize && 0 <= b < ChunkSize && 0 <= a' < ChunkSize && 0 <= b' < ChunkSize
    ensures EdgeIndex(a, b) == EdgeIndex(a', b') <==> a == a' && b == b'
  {
  }

  /** The cell of the neighbour across face `f` that lies against plane
      entry `(a, b)`: the left neighbour's slab `x = 31` at `(y, z)`, the
      right neighbour's `x = 0`, the top neighbour's `y = 0` at `(x, z)`,
      the bottom neighbour's `y = 31`, the front neighbour's `z = 0` at
      `(x, y)`, the back neighbour's `z = 31`. */
  function SlabCell(f: BlockFace, a: int, b: int): (c: Cell)
    ensures 0 <= a < ChunkSize && 0 <= b < ChunkSize ==> InChunk(c)
  {
    match f
    case Left => (ChunkSize - 1, a, b)
    case Right => (0, a, b)
    case Top => (a, 0, b)
    case Bottom => (a, ChunkSize - 1, b)
    case Front => (a, b, 0)
    case Back => (a, b, ChunkSize - 1)
  }

  /** The plane `compute_edges` caches for direction `f`: all `true`
      (solid) without a neighbour, the neighbour's occupancy on its facing
      slab otherwise. */
  function EdgePlane(f: BlockFace, n: Option<seq<Slot>>): (plane: seq<bool>)
    requires Sized(n)
    ensures |plane| == PlaneSize
  {
    seq(PlaneSize, k requires 0 <= k < PlaneSize =>
      n.None? || Occupied(n.value, SlabCell(f, k % ChunkSize, k / ChunkSize)))
  }

  /** Entry `(a, b)` of a plane: `true` when the neighbour is absent, and
      whether the neighbour's facing cell holds a block otherwise. */
  lemma EdgePlaneAt(f: BlockFace, n: Option<seq<Slot>>, a: int, b: int)
    requires Sized(n) && 0 <= a < ChunkSize && 0 <= b < ChunkSize
    ensures n.None? ==> EdgePlane(f, n)[EdgeIndex(a, b)]
    ensures n.Some? ==> EdgePlane(f, n)[EdgeIndex(a, b)] == Occupied(n.value, SlabCell(f, a, b))
  {
  }

  /** All six planes. */
  function EdgesOf(ns: Neighbours): (edges: AdjacentEdges)
    requires AllSized(ns)
    ensures PlanesSized(edges)
  {
    assert Sized(ns.At(Left)) && Sized(ns.At(Right)) && Sized(ns.At(Top));
    assert Sized(ns.At(Bottom)) && Sized(ns.At(Front)) && Sized(ns.At(Back));
    var edges := Adjacent(EdgePlane(Left, ns.left), EdgePlane(Right, ns.right),
                          EdgePlane(Top, ns.top), EdgePlane(Bottom, ns.bottom),
                          EdgePlane(Front, ns.front), EdgePlane(Back, ns.back));
    assert forall f :: edges.At(f) == EdgePlane(f, ns.At(f));
    edges
  }

  /** What `read()` gives for one neighbour. */
  function Contents(n: Option<ChunkData>): Option<seq<Slot>>
    reads if n.Some? then {n.value} else {}
  {
    if n.Some? then Some(n.value.blocks) else None
  }

  /** The neighbour chunks that are present. */
  function Present(adjacent: AdjacentChunks): set<ChunkData> {
    (if adjacent.left.Some? then {adjacent.left.value} else {})
    + (if adjacent.right.Some? then {adjacent.right.value} else {})
    + (if adjacent.top.Some? then {adjacent.top.value} else {})
    + (if adjacent.bottom.Some? then {adjacent.bottom.value} else {})
    + (if adjacent.front.Some? then {adjacent.front.value} else {})
    + (if adjacent.back.Some? then {adjacent.back.value} else {})
  }

  /** The slots of all six neighbours. */
  function Snapshot(adjacent: AdjacentChunks): Neighbours
    reads Present(adjacent)
  {
    Adjacent(Contents(adjacent.left), Contents(adjacent.right), Contents(adjacent.top),
             Contents(adjacent.bottom), Contents(adjacent.front), Contents(adjacent.back))
  }

  /** One block of `compute_edges`: a plane of 1024 `true`s; when the
      neighbour is present, every `(a, b)` of `(0..32) × (0..32)` is
      overwritten with the occupancy of the neighbour's facing cell. */
  method ComputeEdge(f: BlockFace, n: Option<ChunkData>) returns (values: seq<bool>)
    requires Sized(Contents(n))
    ensures values == EdgePlane(f, Contents(n))
  {
    var plane := new bool[PlaneSize](_ => true);
    if n.Some? {
      var neighbour := n.value;
      var a := 0;
      while a < ChunkSize
        invariant 0 <= a <= ChunkSize
        invariant forall a', b' :: 0 <= a' < ChunkSize && 0 <= b' < ChunkSize ==>
          plane[EdgeIndex(a', b')] == (a' >= a || Occupied(neighbour.blocks, SlabCell(f, a', b')))
      {
        var b := 0;
        while b < ChunkSize
          invariant 0 <= b <= ChunkSize
          invariant forall a', b' :: 0 <= a' < ChunkSize && 0 <= b' < ChunkSize ==>
            plane[EdgeIndex(a', b')] ==
              (a' > a || (a' == a && b' >= b) || Occupied(neighbour.blocks, SlabCell(f, a', b')))
        {
          var c := SlabCell(f, a, b);
          IndexInjective(c.0, c.1, c.2, c.0, c.1, c.2);
          plane[EdgeIndex(a, b)] := neighbour.Block(c.0, c.1, c.2).Some?;
          b := b + 1;
        }
        a := a + 1;
      }
    }
    values := plane[..];
    forall k | 0 <= k < PlaneSize
      ensures values[k] == EdgePlane(f, Contents(n))[k]
    {
      assert k == EdgeIndex(k % ChunkSize, k / ChunkSize);
    }
  }

  /** `compute_edges`: the six planes, left, right, top, bottom, front,
      back. */
  method ComputeEdges(adjacent: AdjacentChunks) returns (edges: AdjacentEdges)
    requires AllSized(Snapshot(adjacent))
    ensures edges == EdgesOf(Snapshot(adjacent))
  {
    var ns := Snapshot(adjacent);
    assert Sized(ns.At(Left)) && Sized(ns.At(Right)) && Sized(ns.At(Top));
    assert Sized(ns.At(Bottom)) && Sized(ns.At(Front)) && Sized(ns.At(Back));
    var left := ComputeEdge(Left, adjacent.left);
    var right := ComputeEdge(Right, adjacent.right);
    var top := ComputeEdge(Top, adjacent.top);
    var bottom := ComputeEdge(Bottom, adjacent.bottom);
    var front := ComputeEdge(Front, adjacent.front);
    var back := ComputeEdge(Back, adjacent.back);
    edges := Adjacent(left, right, top, bottom, front, back);
  }

  // ---- the face flags ----

  /** The cell one step from `c` across face `f` (it may lie outside the
      chunk). */
  function Step(c: Cell, f: BlockFace): Cell {
    var n := Normal(f);
    (c.0 + n.x, c.1 + n.y, c.2 + n.z)
  }

  /** The face on the other side of a boundary: its normal points the
      other way. */
  function Opposite(f: BlockFace): (g: BlockFace)
    ensures Normal(g) == Vec3(-Normal(f).x, -Normal(f).y, -Normal(f).z)
    ensures g != f
  {
    match f
    case Left => Right
    case Right => Left
    case Top => Bottom
    case Bottom => Top
    case Front => Back
    case Back => Front
  }

  /** The coordinates of `c` within the boundary plane of side `f`:
      `(y, z)` for left and right, `(x, z)` for top and bottom, `(x, y)`
      for front and back. */
  function PlaneCoords(f: BlockFace, c: Cell): (int, int) {
    match f
    case Left => (c.1, c.2)
    case Right => (c.1, c.2)
    case Top => (c.0, c.2)
    case Bottom => (c.0, c.2)
    case Front => (c.0, c.1)
    case Back => (c.0, c.1)
  }

  /** `compute_faces`: a face on the chunk's boundary is shown when the
      cached plane says the neighbour's facing cell is not solid; any
      other face is shown when the cell next to it is empty. */
  function ComputeFaces(edges: AdjacentEdges, blocks: seq<Slot>, c: Cell): BlockFaces
    requires PlanesSized(edges) && |blocks| == ChunkVolume && InChunk(c)
  {
    assert |edges.At(Left)| == |edges.At(Right)| == |edges.At(Top)| == PlaneSize;
    assert |edges.At(Bottom)| == |edges.At(Front)| == |edges.At(Back)| == PlaneSize;
    var (x, y, z) := c;
    BlockFaces(
      if x == 0 then !edges.left[EdgeIndex(y, z)] else !Occupied(blocks, (x - 1, y, z)),
      if x == ChunkSize - 1 then !edges.right[EdgeIndex(y, z)] else !Occupied(blocks, (x + 1, y, z)),
      if y == ChunkSize - 1 then !edges.top[EdgeIndex(x, z)] else !Occupied(blocks, (x, y + 1, z)),
      if y == 0 then !edges.bottom[EdgeIndex(x, z)] else !Occupied(blocks, (x, y - 1, z)),
      if z == ChunkSize - 1 then !edges.front[EdgeIndex(x, y)] else !Occupied(blocks, (x, y, z + 1)),
      if z == 0 then !edges.back[EdgeIndex(x, y)] else !Occupied(blocks, (x, y, z - 1)))
  }

  /** Flag `f` of a cell: shown when the cell across it is empty, or, on
      the chunk's boundary, when the plane entry of `f` at the cell's
      coordinates is `false`. */
  lemma FaceFlag(edges: AdjacentEdges, blocks: seq<Slot>, c: Cell, f: BlockFace)
    requires PlanesSized(edges) && |blocks| == ChunkVolume && InChunk(c)
    ensures var (a, b) := PlaneCoords(f, c);
      && 0 <= EdgeIndex(a, b) < PlaneSize
      && Flag(ComputeFaces(edges, blocks, c), f) ==
           if InChunk(Step(c, f)) then !Occupied(blocks, Step(c, f)) else !edges.At(f)[EdgeIndex(a, b)]
  {
    var (x, y, z) := c;
    match f
    case Left => assert Step(c, f) == (x - 1, y, z);
    case Right => assert Step(c, f) == (x + 1, y, z);
    case Top => assert Step(c, f) == (x, y + 1, z);
    case Bottom => assert Step(c, f) == (x, y - 1, z);
    case Front => assert Step(c, f) == (x, y, z + 1);
    case Back => assert Step(c, f) == (x, y, z - 1);
  }

  /** Whether the world is solid just across face `f` of cell `c`: inside
      the chunk, whether that cell holds a block; outside it, whether the
      neighbour in direction `f` holds a block at that cell taken modulo
      32, a missing neighbour counting as solid. */
  predicate SolidAcross(ns: Neighbours, blocks: seq<Slot>, c: Cell, f: BlockFace)
    requires AllSized(ns) && |blocks| == ChunkVolume && InChunk(c)
  {
    var q := Step(c, f);
    if InChunk(q) then Occupied(blocks, q)
    else
      assert Sized(ns.At(f));
      match ns.At(f)
      case None => true
      case Some(nb) => Occupied(nb, (q.0 % ChunkSize, q.1 % ChunkSize, q.2 % ChunkSize))
  }

  /** Leaving the chunk across face `f` and wrapping modulo 32 lands on
      the neighbour's facing cell at the same plane coordinates. */
  lemma StepWraps(c: Cell, f: BlockFace)
    requires InChunk(c) && !InChunk(Step(c, f))
    ensures var q, (a, b) := Step(c, f), PlaneCoords(f, c);
      (q.0 % ChunkSize, q.1 % ChunkSize, q.2 % ChunkSize) == SlabCell(f, a, b)
  {
  }

  /** A face is shown exactly when the world is not solid across it, for
      every face of every cell: inside the chunk, on its boundary, with or
      without the neighbour there. */
  lemma FaceShownIffOpen(ns: Neighbours, blocks: seq<Slot>, c: Cell, f: BlockFace)
    requires AllSized(ns) && |blocks| == ChunkVolume && InChunk(c)
    ensures Flag(ComputeFaces(EdgesOf(ns), blocks, c), f) <==> !SolidAcross(ns, blocks, c, f)
  {
    var (a, b) := PlaneCoords(f, c);
    assert Sized(ns.At(f));
    FaceFlag(EdgesOf(ns), blocks, c, f);
    if !InChunk(Step(c, f)) {
      StepWraps(c, f);
      EdgePlaneAt(f, ns.At(f), a, b);
    }
  }

  /** A face inside the chunk is shown exactly when the cell next to it
      is empty, whatever the planes hold. */
  lemma InteriorFaceShown(edges: AdjacentEdges, blocks: seq<Slot>, c: Cell, f: BlockFace)
    requires PlanesSized(edges) && |blocks| == ChunkVolume && InChunk(c) && InChunk(Step(c, f))
    ensures Flag(ComputeFaces(edges, blocks, c), f) <==> !Occupied(blocks, Step(c, f))
  {
    FaceFlag(edges, blocks, c, f);
  }

  /** With the neighbour in direction `f` absent, no face of the chunk's
      boundary on that side is shown. */
  lemma AbsentNeighbourHidesBoundary(ns: Neighbours, blocks: seq<Slot>, c: Cell, f: BlockFace)
    requires AllSized(ns) && |blocks| == ChunkVolume && InChunk(c)
    requires ns.At(f).None? && !InChunk(Step(c, f))
    ensures !Flag(ComputeFaces(EdgesOf(ns), blocks, c), f)
  {
    FaceShownIffOpen(ns, blocks, c, f);
  }

  /** Across the boundary the neighbour decides: the right face of cell
      `(31, y, z)` is shown exactly when the right neighbour's cell
      `(0, y, z)` is empty, and likewise for the other five sides. */
  lemma NeighbourDecidesBoundary(ns: Neighbours, blocks: seq<Slot>, c: Cell, f: BlockFace)
    requires AllSized(ns) && |blocks| == ChunkVolume && InChunk(c)
    requires ns.At(f).Some? && !InChunk(Step(c, f))
    ensures var q := Step(c, f);
      && InChunk((q.0 % ChunkSize, q.1 % ChunkSize, q.2 % ChunkSize))
      && (Flag(ComputeFaces(EdgesOf(ns), blocks, c), f) <==>
          !Occupied(ns.At(f).value, (q.0 % ChunkSize, q.1 % ChunkSize, q.2 % ChunkSize)))
      && (f == Right ==> (q.0 % ChunkSize, q.1 % ChunkSize, q.2 % ChunkSize) == (0, c.1, c.2))
  {
    FaceShownIffOpen(ns, blocks, c, f);
    StepWraps(c, f);
  }

  // ---- the face loop of generate_mesh ----

  predicate AllInChunk(cells: seq<Cell>) {
    forall i :: 0 <= i < |cells| ==> InChunk(cells[i])
  }

  /** Where `generate_mesh` places the cube of cell `c`:
      `Vec3::new(x as f32, y as f32, z as f32)`. */
  function CellPosition(c: Cell): Vec3 {
    Vec3(c.0, c.1, c.2)
  }

  /** The vertices one visit of the loop emits for cell `c`: none for an
      empty cell, the quads of the flagged faces of its cube otherwise. */
  function CellVertices(edges: AdjacentEdges, blocks: seq<Slot>, c: Cell): seq<MeshVertex>
    requires PlanesSized(edges) && |blocks| == ChunkVolume && InChunk(c)
  {
    match SlotAt(blocks, c)
    case None => []
    case Some(b) => QuadsVertices(b, CellPosition(c), FaceList(ComputeFaces(edges, blocks, c)))
  }

  /** The indices one visit emits for cell `c`, its first vertex being
      number `base`. */
  function CellIndices(edges: AdjacentEdges, blocks: seq<Slot>, c: Cell, base: int): seq<int>
    requires PlanesSized(edges) && |blocks| == ChunkVolume && InChunk(c)
  {
    match SlotAt(blocks, c)
    case None => []
    case Some(_) => QuadsIndices(FaceList(ComputeFaces(edges, blocks, c)), base)
  }

  /** The faces shown by cell `c`: none when it is empty. */
  function CellFaceCount(edges: AdjacentEdges, blocks: seq<Slot>, c: Cell): (n: nat)
    requires PlanesSized(edges) && |blocks| == ChunkVolume && InChunk(c)
    ensures n <= 6
  {
    if Occupied(blocks, c) then CountFlags(ComputeFaces(edges, blocks, c)) else 0
  }

  /** The vertices emitted after visiting `cells` in order. */
  function MeshVertices(edges: AdjacentEdges, blocks: seq<Slot>, cells: seq<Cell>): seq<MeshVertex>
    requires PlanesSized(edges) && |blocks| == ChunkVolume && AllInChunk(cells)
    decreases |cells|
  {
    if cells == [] then []
    else MeshVertices(edges, blocks, cells[..|cells| - 1]) + CellVertices(edges, blocks, cells[|cells| - 1])
  }

  /** The indices emitted after visiting `cells` in order, before the
      `as u32` cast: each cube's are numbered from the vertex count it
      found. */
  function MeshIndices(edges: AdjacentEdges, blocks: seq<Slot>, cells: seq<Cell>): seq<int>
    requires PlanesSized(edges) && |blocks| == ChunkVolume && AllInChunk(cells)
    decreases |cells|
  {
    if cells == [] then []
    else
      var init := cells[..|cells| - 1];
      MeshIndices(edges, blocks, init)
        + CellIndices(edges, blocks, cells[|cells| - 1], |MeshVertices(edges, blocks, init)|)
  }

  /** The faces shown by the occupied cells among `cells`. */
  function VisibleFaces(edges: AdjacentEdges, blocks: seq<Slot>, cells: seq<Cell>): nat
    requires PlanesSized(edges) && |blocks| == ChunkVolume && AllInChunk(cells)
    decreases |cells|
  {
    if cells == [] then 0
    else VisibleFaces(edges, blocks, cells[..|cells| - 1]) + CellFaceCount(edges, blocks, cells[|cells| - 1])
  }

  /** Visiting one more cell appends that cell's vertices and indices. */
  lemma MeshSnoc(edges: AdjacentEdges, blocks: seq<Slot>, cells: seq<Cell>, i: nat)
    requires PlanesSized(edges) && |blocks| == ChunkVolume && AllInChunk(cells) && i < |cells|
    ensures AllInChunk(cells[..i]) && AllInChunk(cells[..i + 1])
    ensures MeshVertices(edges, blocks, cells[..i + 1])
         == MeshVertices(edges, blocks, cells[..i]) + CellVertices(edges, blocks, cells[i])
    ensures MeshIndices(edges, blocks, cells[..i + 1])
         == MeshIndices(edges, blocks, cells[..i])
            + CellIndices(edges, blocks, cells[i], |MeshVertices(edges, blocks, cells[..i])|)
  {
    var w := cells[..i + 1];
    assert w != [] && w[..|w| - 1] == cells[..i] && w[|w| - 1] == cells[i];
  }

  /** Each shown face of an occupied cell gives 4 vertices and 6
      indices, and no cell shows more than its 6 faces. */
  lemma {:induction false} MeshSizes(edges: AdjacentEdges, blocks: seq<Slot>, cells: seq<Cell>)
    requires PlanesSized(edges) && |blocks| == ChunkVolume && AllInChunk(cells)
    ensures |MeshVertices(edges, blocks, cells)| == 4 * VisibleFaces(edges, blocks, cells)
    ensures |MeshIndices(edges, blocks, cells)| == 6 * VisibleFaces(edges, blocks, cells)
    ensures VisibleFaces(edges, blocks, cells) <= 6 * |cells|
    decreases |cells|
  {
    if cells != [] {
      var c := cells[|cells| - 1];
      MeshSizes(edges, blocks, cells[..|cells| - 1]);
      FaceListCount(ComputeFaces(edges, blocks, c));
    }
  }

  /** Every index refers to a vertex already emitted. */
  lemma {:induction false} MeshIndicesInRange(edges: AdjacentEdges, blocks: seq<Slot>, cells: seq<Cell>, i: nat)
    requires PlanesSized(edges) && |blocks| == ChunkVolume && AllInChunk(cells)
    requires i < |MeshIndices(edges, blocks, cells)|
    ensures 0 <= MeshIndices(edges, blocks, cells)[i] < |MeshVertices(edges, blocks, cells)|
    decreases |cells|
  {
    var init, c := cells[..|cells| - 1], cells[|cells| - 1];
    var ixs := MeshIndices(edges, blocks, init);
    var base := |MeshVertices(edges, blocks, init)|;
    if i < |ixs| {
      MeshIndicesInRange(edges, blocks, init, i);
    } else {
      var b := SlotAt(blocks, c).value;
      var fl := FaceList(ComputeFaces(edges, blocks, c));
      QuadsIndicesBounds(fl, base, i - |ixs|);
    }
  }

  /** A chunk's mesh holds at most 24 · 32768 vertices, far below 2^32,
      so the `as u32` casts leave every index as it is. */
  lemma MeshIndicesUnwrapped(edges: AdjacentEdges, blocks: seq<Slot>)
    requires PlanesSized(edges) && |blocks| == ChunkVolume
    ensures AllInChunk(IterBlocks())
    ensures WrapAll(MeshIndices(edges, blocks, IterBlocks())) == MeshIndices(edges, blocks, IterBlocks())
  {
    IterBlocksEnumeratesChunk();
    var cells := IterBlocks();
    MeshSizes(edges, blocks, cells);
    var ixs := MeshIndices(edges, blocks, cells);
    forall i | 0 <= i < |ixs|
      ensures 0 <= ixs[i] < 0x1_0000_0000
    {
      MeshIndicesInRange(edges, blocks, cells, i);
    }
    WrapAllSmall(ixs);
  }

  /** A chunk with no blocks gives no vertices and no indices. */
  lemma {:induction false} EmptyChunkHasNoMesh(edges: AdjacentEdges, blocks: seq<Slot>, cells: seq<Cell>)
    requires PlanesSized(edges) && |blocks| == ChunkVolume && AllInChunk(cells)
    requires forall k :: 0 <= k < |blocks| ==> blocks[k].None?
    ensures MeshVertices(edges, blocks, cells) == []
    ensures MeshIndices(edges, blocks, cells) == []
    decreases |cells|
  {
    if cells != [] {
      var c := cells[|cells| - 1];
      EmptyChunkHasNoMesh(edges, blocks, cells[..|cells| - 1]);
      IndexInjective(c.0, c.1, c.2, c.0, c.1, c.2);
      assert SlotAt(blocks, c).None?;
    }
  }

  /** A completely full chunk with no neighbour loaded shows no face at
      all: inside, every cell is covered by its neighbour cell; on the
      boundary, a missing neighbour counts as solid. */
  lemma {:induction false} EnclosedFullChunkHasNoMesh(ns: Neighbours, blocks: seq<Slot>, cells: seq<Cell>)
    requires AllSized(ns) && |blocks| == ChunkVolume && AllInChunk(cells)
    requires forall f :: ns.At(f).None?
    requires forall k :: 0 <= k < |blocks| ==> blocks[k].Some?
    ensures VisibleFaces(EdgesOf(ns), blocks, cells) == 0
    ensures MeshVertices(EdgesOf(ns), blocks, cells) == []
    decreases |cells|
  {
    if cells != [] {
      var c := cells[|cells| - 1];
      var edges := EdgesOf(ns);
      EnclosedFullChunkHasNoMesh(ns, blocks, cells[..|cells| - 1]);
      CellShowsNothing(ns, blocks, c);
    }
  }

  /** In a full chunk without neighbours, no cell shows a face. */
  lemma CellShowsNothing(ns: Neighbours, blocks: seq<Slot>, c: Cell)
    requires AllSized(ns) && |blocks| == ChunkVolume && InChunk(c)
    requires forall f :: ns.At(f).None?
    requires forall k :: 0 <= k < |blocks| ==> blocks[k].Some?
    ensures CellFaceCount(EdgesOf(ns), blocks, c) == 0
    ensures CellVertices(EdgesOf(ns), blocks, c) == []
  {
    var faces := ComputeFaces(EdgesOf(ns), blocks, c);
    CellHidden(ns, blocks, c, Left);
    CellHidden(ns, blocks, c, Right);
    CellHidden(ns, blocks, c, Top);
    CellHidden(ns, blocks, c, Bottom);
    CellHidden(ns, blocks, c, Front);
    CellHidden(ns, blocks, c, Back);
    assert CountFlags(faces) == 0;
    FaceListCount(faces);
    assert FaceList(faces) == [];
  }

  /** In a full chunk without neighbours, face `f` of any cell is hidden. */
  lemma CellHidden(ns: Neighbours, blocks: seq<Slot>, c: Cell, f: BlockFace)
    requires AllSized(ns) && |blocks| == ChunkVolume && InChunk(c)
    requires ns.At(f).None?
    requires forall k :: 0 <= k < |blocks| ==> blocks[k].Some?
    ensures !Flag(ComputeFaces(EdgesOf(ns), blocks, c), f)
  {
    FaceShownIffOpen(ns, blocks, c, f);
    var q := Step(c, f);
    if InChunk(q) {
      IndexInjective(q.0, q.1, q.2, q.0, q.1, q.2);
    }
  }

  /** A block with open space across all six faces shows all six: 24
      vertices. */
  lemma OpenCellShowsSixFaces(ns: Neighbours, blocks: seq<Slot>, c: Cell)
    requires AllSized(ns) && |blocks| == ChunkVolume && InChunk(c) && Occupied(blocks, c)
    requires forall f :: !SolidAcross(ns, blocks, c, f)
    ensures CellFaceCount(EdgesOf(ns), blocks, c) == 6
    ensures |CellVertices(EdgesOf(ns), blocks, c)| == 24
  {
    var faces := ComputeFaces(EdgesOf(ns), blocks, c);
    forall f ensures Flag(faces, f) {
      FaceShownIffOpen(ns, blocks, c, f);
    }
    assert faces == BlockFaces(true, true, true, true, true, true) by {
      assert Flag(faces, Left) && Flag(faces, Right) && Flag(faces, Top);
      assert Flag(faces, Bottom) && Flag(faces, Front) && Flag(faces, Back);
    }
    FaceListCount(faces);
    assert |FaceList(faces)| == 6;
  }

  /** The boundary between a chunk `here` and its neighbour `there` in
      direction `f`, each meshed with the other as neighbour: for a cell
      `c` on that side of `here` and the cell `d` of `there` against it,
      face `f` of `c` and the opposite face of `d` are never both drawn,
      and one of them is drawn exactly when one of the two cells is
      occupied and the other is not. */
  lemma BoundaryDrawnFromOneSide(here: seq<Slot>, there: seq<Slot>, nsHere: Neighbours, nsThere: Neighbours,
                                 c: Cell, f: BlockFace)
    requires AllSized(nsHere) && AllSized(nsThere)
    requires |here| == ChunkVolume && |there| == ChunkVolume
    requires nsHere.At(f) == Some(there) && nsThere.At(Opposite(f)) == Some(here)
    requires InChunk(c) && !InChunk(Step(c, f))
    ensures var q := Step(c, f);
      var d := (q.0 % ChunkSize, q.1 % ChunkSize, q.2 % ChunkSize);
      && InChunk(d) && !InChunk(Step(d, Opposite(f)))
      && var shownHere := Occupied(here, c) && Flag(ComputeFaces(EdgesOf(nsHere), here, c), f);
         var shownThere := Occupied(there, d) && Flag(ComputeFaces(EdgesOf(nsThere), there, d), Opposite(f));
         && !(shownHere && shownThere)
         && ((shownHere || shownThere) <==> Occupied(here, c) != Occupied(there, d))
  {
    var q := Step(c, f);
    var d := (q.0 % ChunkSize, q.1 % ChunkSize, q.2 % ChunkSize);
    StepBack(c, f);
    NeighbourDecidesBoundary(nsHere, here, c, f);
    NeighbourDecidesBoundary(nsThere, there, d, Opposite(f));
  }

  /** Stepping out of the chunk across `f`, wrapping into the neighbour,
      and stepping back across the opposite face leaves the neighbour and
      wraps onto the cell we started from. */
  lemma StepBack(c: Cell, f: BlockFace)
    requires InChunk(c) && !InChunk(Step(c, f))
    ensures var q := Step(c, f);
      var d := (q.0 % ChunkSize, q.1 % ChunkSize, q.2 % ChunkSize);
      var e := Step(d, Opposite(f));
      && InChunk(d) && !InChunk(e)
      && (e.0 % ChunkSize, e.1 % ChunkSize, e.2 % ChunkSize) == c
  {
    var q := Step(c, f);
    WrapNear(q.0);
    WrapNear(q.1);
    WrapNear(q.2);
    var e := Step((q.0 % ChunkSize, q.1 % ChunkSize, q.2 % ChunkSize), Opposite(f));
    WrapNear(e.0);
    WrapNear(e.1);
    WrapNear(e.2);
  }

  /** A coordinate at most one step outside the chunk wraps to the far
      side, and one inside stays put. */
  lemma WrapNear(a: int)
    ensures -1 <= a <= ChunkSize ==>
      a % ChunkSize == if a == -1 then ChunkSize - 1 else if a == ChunkSize then 0 else a
  {
  }

  /** After the first `i` visits of the face loop over `cells`, the
      builder's vertices are `vs` and its indices `ixs`. */
  ghost predicate Emitted(vs: seq<MeshVertex>, ixs: seq<U32>, edges: AdjacentEdges, blocks: seq<Slot>,
                          cells: seq<Cell>, i: nat)
  {
    && PlanesSized(edges) && |blocks| == ChunkVolume && i <= |cells|
    && AllInChunk(cells) && AllInChunk(cells[..i])
    && vs == MeshVertices(edges, blocks, cells[..i])
    && ixs == WrapAll(MeshIndices(edges, blocks, cells[..i]))
  }

  /** One more visit keeps `Emitted`. */
  lemma EmittedStep(vs: seq<MeshVertex>, ixs: seq<U32>, edges: AdjacentEdges, blocks: seq<Slot>,
                    cells: seq<Cell>, i: nat)
    requires Emitted(vs, ixs, edges, blocks, cells, i) && i < |cells|
    ensures InChunk(cells[i])
    ensures Emitted(vs + CellVertices(edges, blocks, cells[i]),
                    ixs + WrapAll(CellIndices(edges, blocks, cells[i], |vs|)),
                    edges, blocks, cells, i + 1)
  {
    MeshSnoc(edges, blocks, cells, i);
    WrapAllAppend(MeshIndices(edges, blocks, cells[..i]), CellIndices(edges, blocks, cells[i], |vs|));
  }

  /** One visit of the face loop: an empty cell is skipped, an occupied
      one is rendered as a cube at its coordinates with the faces
      `compute_faces` flags. */
  method RenderCell(chunk: ChunkData, mb: MeshBuilder, edges: AdjacentEdges, c: Cell)
    requires mb.Valid() && PlanesSized(edges) && |chunk.blocks| == ChunkVolume && InChunk(c)
    modifies mb
    ensures mb.Valid()
    ensures mb.Vertices() == old(mb.Vertices()) + CellVertices(edges, chunk.blocks, c)
    ensures mb.indices == old(mb.indices) + WrapAll(CellIndices(edges, chunk.blocks, c, old(|mb.positions|)))
  {
    IndexInjective(c.0, c.1, c.2, c.0, c.1, c.2);
    var slot := chunk.Block(c.0, c.1, c.2);
    if slot.Some? {
      var faces := ComputeFaces(edges, chunk.blocks, c);
      RenderCube(slot.value, mb, CellPosition(c), faces);
    } else {
      assert mb.Vertices() + [] == mb.Vertices() && mb.indices + [] == mb.indices;
    }
  }

  /** The face loop of `generate_mesh`: the neighbours' planes, then every
      cell in `iter_blocks` order, each occupied cell rendered as a cube
      at its coordinates with the faces `compute_faces` flags; a collider
      is built exactly when some vertex was emitted. */
  method GenerateMesh(chunk: ChunkData, adjacent: AdjacentChunks) returns (mb: MeshBuilder, hasCollider: bool)
    requires |chunk.blocks| == ChunkVolume && AllSized(Snapshot(adjacent))
    ensures AllInChunk(IterBlocks())
    ensures fresh(mb) && mb.Valid()
    ensures mb.Vertices() == MeshVertices(EdgesOf(Snapshot(adjacent)), chunk.blocks, IterBlocks())
    ensures mb.indices == MeshIndices(EdgesOf(Snapshot(adjacent)), chunk.blocks, IterBlocks())
    ensures hasCollider <==> mb.VertexCount() > 0
  {
    mb := new MeshBuilder();
    var edges := ComputeEdges(adjacent);
    var cells := IterBlocks();
    MeshIndicesUnwrapped(edges, chunk.blocks);
    var i := 0;
    assert cells[..0] == [];
    while i < |cells|
      invariant mb.Valid()
      invariant Emitted(mb.Vertices(), mb.indices, edges, chunk.blocks, cells, i)
    {
      EmittedStep(mb.Vertices(), mb.indices, edges, chunk.blocks, cells, i);
      RenderCell(chunk, mb, edges, cells[i]);
      i := i + 1;
    }
    assert cells[..i] == cells;
    hasCollider := mb.VertexCount() > 0;
  }
}
