/** `Block::render_cube` (src/block.rs): the quads of a cube's visible
    faces, written into a `MeshBuilder`. */
module CubeMeshes {
  import opened Meshes
  import opened Blocks
  import opened Itertools

  /** The six indices of each face form two triangles, `(0, 3, 2)` and
      `(2, 1, 0)` or `(0, 1, 2)` and `(2, 3, 0)`, that share the a-c diagonal
      (corners 0 and 2) and together use all four corners. */
  lemma QuadTriangles(f: BlockFace)
    ensures var pat := QuadPattern(f);
      && |pat| == 6
      && pat[0] == pat[5] == 0 && pat[2] == pat[3] == 2
      && {pat[1], pat[4]} == {1, 3}
  {
  }

  /** The four vertices one face contributes: corner `k` at the cube's
      origin plus the face's `k`-th corner offset (see `CornerOffsets`). All
      of them carry the face's normal and texture layer. */
  function FaceVertices(block: Block, f: BlockFace, p: Vec3): (vs: seq<MeshVertex>)
    ensures |vs| == 4
    ensures forall k :: 0 <= k < 4 ==>
      && vs[k].position == Plus(p, CornerOffsets(f)[k])
      && vs[k].normal == Normal(f)
      && vs[k].texindex == FaceIndex(block, f)
  {
    var corners, tex := CornerOffsets(f), CornerTexcoords(f);
    seq(4, k requires 0 <= k < 4 =>
      MeshVertex(Plus(p, corners[k]), Normal(f), tex[k], FaceIndex(block, f)))
  }

  /** Which of a face's four vertices its six indices name: `[a, d, c, c,
      b, a]` for left, top and back, `[a, b, c, c, d, a]` for the rest. */
  function QuadPattern(f: BlockFace): seq<nat> {
    if f == Left || f == Top || f == Back then [0, 3, 2, 2, 1, 0] else [0, 1, 2, 2, 3, 0]
  }

  lemma QuadPatternBound(f: BlockFace, j: nat)
    requires j < 6
    ensures QuadPattern(f)[j] < 4
  {
  }

  /** The six vertex numbers of a face whose first vertex is number
      `base`, before the `as u32` cast of `vertex`. */
  function QuadIndices(f: BlockFace, base: int): (r: seq<int>)
    ensures |r| == 6
    ensures forall j :: 0 <= j < 6 ==> r[j] == base + QuadPattern(f)[j]
  {
    var pat := QuadPattern(f);
    seq(6, j requires 0 <= j < 6 => base + pat[j])
  }

  // ---- a whole cube ----

  /** The place of a face in `FaceOrder`. */
  function Rank(f: BlockFace): (n: nat)
    ensures n < 6 && FaceOrder[n] == f
  {
    match f
    case Left => 0
    case Right => 1
    case Top => 2
    case Bottom => 3
    case Front => 4
    case Back => 5
  }

  /** The flagged faces among the first `n` of `FaceOrder`, in that order. */
  function FlaggedAmong(faces: BlockFaces, n: nat): seq<BlockFace>
    requires n <= 6
  {
    if n == 0 then []
    else FlaggedAmong(faces, n - 1) + (if Flag(faces, FaceOrder[n - 1]) then [FaceOrder[n - 1]] else [])
  }

  lemma {:induction false} FlaggedAmongFacts(faces: BlockFaces, n: nat)
    requires n <= 6
    ensures forall i :: 0 <= i < |FlaggedAmong(faces, n)| ==>
      Rank(FlaggedAmong(faces, n)[i]) < n && Flag(faces, FlaggedAmong(faces, n)[i])
    ensures forall i, j :: 0 <= i < j < |FlaggedAmong(faces, n)| ==>
      Rank(FlaggedAmong(faces, n)[i]) < Rank(FlaggedAmong(faces, n)[j])
    ensures forall m :: 0 <= m < n && Flag(faces, FaceOrder[m]) ==> FaceOrder[m] in FlaggedAmong(faces, n)
  {
    if n > 0 {
      FlaggedAmongFacts(faces, n - 1);
      var prev, f := FlaggedAmong(faces, n - 1), FaceOrder[n - 1];
      assert Rank(f) == n - 1;
      assert FlaggedAmong(faces, n) == prev + (if Flag(faces, f) then [f] else []);
      forall m | 0 <= m < n && Flag(faces, FaceOrder[m])
        ensures FaceOrder[m] in FlaggedAmong(faces, n)
      {
        if m < n - 1 {
          assert FaceOrder[m] in prev;
        }
      }
    }
  }

  /** The faces `render_cube` emits, in its order. */
  function FaceList(faces: BlockFaces): seq<BlockFace> {
    FlaggedAmong(faces, 6)
  }

  /** `FaceList` spelled out as the six `if` blocks of `render_cube`. */
  lemma FaceListSpelled(faces: BlockFaces)
    ensures FaceList(faces) == []
      + (if faces.left then [Left] else []) + (if faces.right then [Right] else [])
      + (if faces.top then [Top] else []) + (if faces.bottom then [Bottom] else [])
      + (if faces.front then [Front] else []) + (if faces.back then [Back] else [])
  {
    assert FlaggedAmong(faces, 1) == [] + (if faces.left then [Left] else []);
    assert FlaggedAmong(faces, 2) == FlaggedAmong(faces, 1) + (if faces.right then [Right] else []);
    assert FlaggedAmong(faces, 3) == FlaggedAmong(faces, 2) + (if faces.top then [Top] else []);
    assert FlaggedAmong(faces, 4) == FlaggedAmong(faces, 3) + (if faces.bottom then [Bottom] else []);
    assert FlaggedAmong(faces, 5) == FlaggedAmong(faces, 4) + (if faces.front then [Front] else []);
  }

  /** The number of `true` flags. */
  function CountFlags(faces: BlockFaces): nat {
    (if faces.left then 1 else 0) + (if faces.right then 1 else 0)
    + (if faces.top then 1 else 0) + (if faces.bottom then 1 else 0)
    + (if faces.front then 1 else 0) + (if faces.back then 1 else 0)
  }

  /** `render_cube` emits one face per `true` flag. */
  lemma FaceListCount(faces: BlockFaces)
    ensures |FaceList(faces)| == CountFlags(faces)
  {
    assert |FlaggedAmong(faces, 1)| == (if faces.left then 1 else 0);
    assert |FlaggedAmong(faces, 2)| == |FlaggedAmong(faces, 1)| + (if faces.right then 1 else 0);
    assert |FlaggedAmong(faces, 3)| == |FlaggedAmong(faces, 2)| + (if faces.top then 1 else 0);
    assert |FlaggedAmong(faces, 4)| == |FlaggedAmong(faces, 3)| + (if faces.bottom then 1 else 0);
    assert |FlaggedAmong(faces, 5)| == |FlaggedAmong(faces, 4)| + (if faces.front then 1 else 0);
  }

  /** `render_cube` emits exactly the flagged faces, each once, in the
      order left, right, top, bottom, front, back. */
  lemma FaceListExact(faces: BlockFaces, f: BlockFace)
    ensures f in FaceList(faces) <==> Flag(faces, f)
    ensures forall i, j :: 0 <= i < j < |FaceList(faces)| ==>
      Rank(FaceList(faces)[i]) < Rank(FaceList(faces)[j])
  {
    var fs := FaceList(faces);
    FlaggedAmongFacts(faces, 6);
    if f in fs {
      var i :| 0 <= i < |fs| && fs[i] == f;
      assert Flag(faces, fs[i]);
    }
    if Flag(faces, f) {
      var m := Rank(f);
      assert Flag(faces, FaceOrder[m]);
      assert FaceOrder[m] in fs;
    }
  }

  /** The vertices of the faces `fs`, face after face. */
  function QuadsVertices(block: Block, p: Vec3, fs: seq<BlockFace>): (vs: seq<MeshVertex>)
    ensures |vs| == 4 * |fs|
    decreases |fs|
  {
    if fs == [] then []
    else QuadsVertices(block, p, fs[..|fs| - 1]) + FaceVertices(block, fs[|fs| - 1], p)
  }

  /** The indices of the faces `fs`, the first face's vertices numbered
      from `base`. */
  function QuadsIndices(fs: seq<BlockFace>, base: int): (r: seq<int>)
    ensures |r| == 6 * |fs|
    decreases |fs|
  {
    if fs == [] then []
    else QuadsIndices(fs[..|fs| - 1], base) + QuadIndices(fs[|fs| - 1], base + 4 * (|fs| - 1))
  }

  lemma QuadsVerticesSnoc(block: Block, p: Vec3, fs: seq<BlockFace>, f: BlockFace)
    ensures QuadsVertices(block, p, fs + [f]) == QuadsVertices(block, p, fs) + FaceVertices(block, f, p)
  {
    assert (fs + [f])[..|fs|] == fs;
  }

  lemma QuadsIndicesSnoc(fs: seq<BlockFace>, f: BlockFace, base: int)
    ensures QuadsIndices(fs + [f], base) == QuadsIndices(fs, base) + QuadIndices(f, base + 4 * |fs|)
  {
    assert (fs + [f])[..|fs|] == fs;
  }

  /** Vertex `4k + m` of the cube is corner `m` of its `k`-th face. */
  lemma {:induction false} QuadsVertexAt(block: Block, p: Vec3, fs: seq<BlockFace>, k: nat, m: nat)
    requires k < |fs| && m < 4
    ensures QuadsVertices(block, p, fs)[4 * k + m] == FaceVertices(block, fs[k], p)[m]
    decreases |fs|
  {
    if k < |fs| - 1 {
      QuadsVertexAt(block, p, fs[..|fs| - 1], k, m);
    }
  }

  /** Index `6k + j` of the cube names corner `QuadPattern(fs[k])[j]` of its
      `k`-th face: every index refers to one of the four vertices emitted for
      the same face. */
  lemma {:induction false} QuadsIndexAt(fs: seq<BlockFace>, base: int, k: nat, j: nat)
    requires k < |fs| && j < 6
    ensures QuadsIndices(fs, base)[6 * k + j] == base + 4 * k + QuadPattern(fs[k])[j]
    decreases |fs|
  {
    if k < |fs| - 1 {
      QuadsIndexAt(fs[..|fs| - 1], base, k, j);
    }
  }

  /** The six indices of the `k`-th face name the four vertices emitted
      for that face. */
  lemma QuadsIndicesInRange(fs: seq<BlockFace>, base: int, k: nat, j: nat)
    requires k < |fs| && j < 6
    ensures base + 4 * k <= QuadsIndices(fs, base)[6 * k + j] < base + 4 * k + 4
  {
    QuadsIndexAt(fs, base, k, j);
    QuadPatternBound(fs[k], j);
  }

  /** Every index of the cube lies among its `4 * |fs|` vertices. */
  lemma QuadsIndicesBounds(fs: seq<BlockFace>, base: int, i: nat)
    requires i < |QuadsIndices(fs, base)|
    ensures base <= QuadsIndices(fs, base)[i] < base + 4 * |fs|
  {
    var k, j := i / 6, i % 6;
    assert i == 6 * k + j;
    QuadsIndicesInRange(fs, base, k, j);
  }

  /** While the builder holds fewer than 2^32 vertices, the `as u32` cast
      leaves the cube's indices as they are. */
  lemma QuadsIndicesUnwrapped(fs: seq<BlockFace>, base: nat)
    requires base + 4 * |fs| <= 0x1_0000_0000
    ensures WrapAll(QuadsIndices(fs, base)) == QuadsIndices(fs, base)
  {
    var r := QuadsIndices(fs, base);
    forall i | 0 <= i < |r|
      ensures 0 <= r[i] < 0x1_0000_0000
    {
      QuadsIndicesBounds(fs, base, i);
    }
    WrapAllSmall(r);
  }

  // ---- render_cube ----

  /** The indices one face block passes to `indices`, given the numbers
      `vertex` returned for its corners `a`, `b`, `c`, `d`. */
  lemma QuadIndicesOfCorners(f: BlockFace, base: int, a: U32, b: U32, c: U32, d: U32)
    requires a == Wrap32(base) && b == Wrap32(base + 1)
    requires c == Wrap32(base + 2) && d == Wrap32(base + 3)
    ensures WrapAll(QuadIndices(f, base)) == if f == Left || f == Top || f == Back then [a, d, c, c, b, a] else [a, b, c, c, d, a]
  {
  }

  /** After `render_cube` has emitted the faces `done`: the builder's
      vertices `vs` are those it held before (`vs0`, `base` of them)
      followed by those faces' vertices, and its indices `ixs` are `is0`
      followed by theirs. */
  ghost predicate Rendered(vs: seq<MeshVertex>, ixs: seq<U32>, block: Block, position: Vec3,
                           vs0: seq<MeshVertex>, is0: seq<U32>, base: nat, done: seq<BlockFace>)
  {
    && |vs0| == base
    && vs == vs0 + QuadsVertices(block, position, done)
    && ixs == is0 + WrapAll(QuadsIndices(done, base))
  }

  /** Emitting one more face keeps `Rendered`. */
  lemma RenderedSnoc(vs: seq<MeshVertex>, ixs: seq<U32>, block: Block, position: Vec3,
                     vs0: seq<MeshVertex>, is0: seq<U32>, base: nat, done: seq<BlockFace>, f: BlockFace)
    requires Rendered(vs, ixs, block, position, vs0, is0, base, done)
    ensures |vs| == base + 4 * |done|
    ensures Rendered(vs + FaceVertices(block, f, position), ixs + WrapAll(QuadIndices(f, |vs|)),
                     block, position, vs0, is0, base, done + [f])
  {
    QuadsVerticesSnoc(block, position, done, f);
    QuadsIndicesSnoc(done, f, base);
    ConcatAssoc(vs0, QuadsVertices(block, position, done), FaceVertices(block, f, position));
    WrapAllAppend(QuadsIndices(done, base), QuadIndices(f, |vs|));
    ConcatAssoc(is0, WrapAll(QuadsIndices(done, base)), WrapAll(QuadIndices(f, |vs|)));
  }

  /** `Rendered` for the faces `render_cube` emits is its postcondition. */
  lemma RenderedAll(vs: seq<MeshVertex>, ixs: seq<U32>, block: Block, position: Vec3,
                    vs0: seq<MeshVertex>, is0: seq<U32>, base: nat, done: seq<BlockFace>, fl: seq<BlockFace>)
    requires Rendered(vs, ixs, block, position, vs0, is0, base, done) && done == fl
    ensures vs == vs0 + QuadsVertices(block, position, fl)
    ensures ixs == is0 + WrapAll(QuadsIndices(fl, base))
  {
  }

  /** One face block of `render_cube`: four `vertex` calls for the corners
      `a`, `b`, `c`, `d`, then one `indices` call for two triangles. */
  method RenderFace(block: Block, mb: MeshBuilder, position: Vec3, f: BlockFace)
    requires mb.Valid()
    modifies mb
    ensures mb.Valid()
    ensures mb.Vertices() == old(mb.Vertices()) + FaceVertices(block, f, position)
    ensures mb.indices == old(mb.indices) + WrapAll(QuadIndices(f, old(|mb.positions|)))
  {
    ghost var base, before := |mb.positions|, mb.Vertices();
    var idx := FaceIndex(block, f);
    var normal := Normal(f);
    var corners, tex := CornerOffsets(f), CornerTexcoords(f);
    var a := mb.Vertex(Plus(position, corners[0]), normal, tex[0], idx);
    var b := mb.Vertex(Plus(position, corners[1]), normal, tex[1], idx);
    var c := mb.Vertex(Plus(position, corners[2]), normal, tex[2], idx);
    var d := mb.Vertex(Plus(position, corners[3]), normal, tex[3], idx);
    ghost var vs := FaceVertices(block, f, position);
    assert vs == [vs[0], vs[1], vs[2], vs[3]];
    assert mb.Vertices() == before + vs;
    QuadIndicesOfCorners(f, base, a, b, c, d);
    if f == Left || f == Top || f == Back {
      mb.Indices([a, d, c, c, b, a]);
    } else {
      mb.Indices([a, b, c, c, d, a]);
    }
  }

  /** One `if flag { ... }` block of `render_cube`: the face's quad is
      emitted exactly when its flag is set. */
  method RenderIfFlagged(block: Block, mb: MeshBuilder, position: Vec3, flag: bool, f: BlockFace,
                         ghost vs0: seq<MeshVertex>, ghost is0: seq<U32>, ghost base: nat,
                         ghost done: seq<BlockFace>)
    returns (ghost done': seq<BlockFace>)
    requires mb.Valid() && Rendered(mb.Vertices(), mb.indices, block, position, vs0, is0, base, done)
    modifies mb
    ensures mb.Valid() && Rendered(mb.Vertices(), mb.indices, block, position, vs0, is0, base, done')
    ensures done' == done + if flag then [f] else []
  {
    done' := done;
    if flag {
      RenderedSnoc(mb.Vertices(), mb.indices, block, position, vs0, is0, base, done, f);
      RenderFace(block, mb, position, f);
      done' := done + [f];
    } else {
      assert done + [] == done;
    }
  }

  /** `render_cube`: the faces whose flag is set, in the order left, right,
      top, bottom, front, back, each as 4 vertices and 6 indices. */
  method RenderCube(block: Block, mb: MeshBuilder, position: Vec3, faces: BlockFaces)
    requires mb.Valid()
    modifies mb
    ensures mb.Valid()
    ensures mb.Vertices() == old(mb.Vertices()) + QuadsVertices(block, position, FaceList(faces))
    ensures mb.indices == old(mb.indices) + WrapAll(QuadsIndices(FaceList(faces), old(|mb.positions|)))
  {
    ghost var base, vs0, is0 := |mb.positions|, mb.Vertices(), mb.indices;
    ghost var done: seq<BlockFace> := [];
    assert vs0 + [] == vs0 && is0 + [] == is0;
    done := RenderIfFlagged(block, mb, position, faces.left, Left, vs0, is0, base, done);
    done := RenderIfFlagged(block, mb, position, faces.right, Right, vs0, is0, base, done);
    done := RenderIfFlagged(block, mb, position, faces.top, Top, vs0, is0, base, done);
    done := RenderIfFlagged(block, mb, position, faces.bottom, Bottom, vs0, is0, base, done);
    done := RenderIfFlagged(block, mb, position, faces.front, Front, vs0, is0, base, done);
    done := RenderIfFlagged(block, mb, position, faces.back, Back, vs0, is0, base, done);
    FaceListSpelled(faces);
    RenderedAll(mb.Vertices(), mb.indices, block, position, vs0, is0, base, done, FaceList(faces));
  }
}
