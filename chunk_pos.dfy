/** Chunk coordinates, the six neighbours of a chunk and the streaming-order
    query (src/voxel/chunk_pos.rs). */
module ChunkPositions {
  import opened Itertools

  /** `ChunkPos(IVec3)`: a chunk's place in the grid of chunks. */
  datatype ChunkPos = ChunkPos(x: int, y: int, z: int)

  /** `ChunkPos + ChunkPos`, axis by axis: it leaves `a` where it is only
      for the zero offset. */
  function Add(a: ChunkPos, b: ChunkPos): (r: ChunkPos)
    ensures r == a <==> b == ChunkPos(0, 0, 0)
  {
    ChunkPos(a.x + b.x, a.y + b.y, a.z + b.z)
  }

  /** `IVec3::distance_squared`: zero exactly between equal positions. */
  function DistanceSquared(a: ChunkPos, b: ChunkPos): (d: nat)
    ensures d == 0 <==> a == b
  {
    SquareFacts(a.x - b.x);
    SquareFacts(a.y - b.y);
    SquareFacts(a.z - b.z);
    (a.x - b.x) * (a.x - b.x) + (a.y - b.y) * (a.y - b.y) + (a.z - b.z) * (a.z - b.z)
  }

  /** `left`: one step towards -x, the other axes unchanged. */
  function Left(p: ChunkPos): (q: ChunkPos)
    ensures DistanceSquared(p, q) == 1 && q.x < p.x && q.y == p.y && q.z == p.z
  {
    Add(p, ChunkPos(-1, 0, 0))
  }

  /** `right`: one step towards +x, the other axes unchanged. */
  function Right(p: ChunkPos): (q: ChunkPos)
    ensures DistanceSquared(p, q) == 1 && q.x > p.x && q.y == p.y && q.z == p.z
  {
    Add(p, ChunkPos(1, 0, 0))
  }

  /** `top`: one step towards +y, the other axes unchanged. */
  function Top(p: ChunkPos): (q: ChunkPos)
    ensures DistanceSquared(p, q) == 1 && q.x == p.x && q.y > p.y && q.z == p.z
  {
    Add(p, ChunkPos(0, 1, 0))
  }

  /** `bottom`: one step towards -y, the other axes unchanged. */
  function Bottom(p: ChunkPos): (q: ChunkPos)
    ensures DistanceSquared(p, q) == 1 && q.x == p.x && q.y < p.y && q.z == p.z
  {
    Add(p, ChunkPos(0, -1, 0))
  }

  /** `front`: one step towards +z, the other axes unchanged. */
  function Front(p: ChunkPos): (q: ChunkPos)
    ensures DistanceSquared(p, q) == 1 && q.x == p.x && q.y == p.y && q.z > p.z
  {
    Add(p, ChunkPos(0, 0, 1))
  }

  /** `back`: one step towards -z, the other axes unchanged. */
  function Back(p: ChunkPos): (q: ChunkPos)
    ensures DistanceSquared(p, q) == 1 && q.x == p.x && q.y == p.y && q.z < p.z
  {
    Add(p, ChunkPos(0, 0, -1))
  }

  /** `adjacent_chunks`: left, right, top, bottom, front, back, each one
      unit step from `p`. */
  function AdjacentChunks(p: ChunkPos): (ns: seq<ChunkPos>)
    ensures |ns| == 6
    ensures forall i :: 0 <= i < |ns| ==> DistanceSquared(p, ns[i]) == 1
  {
    [Left(p), Right(p), Top(p), Bottom(p), Front(p), Back(p)]
  }

  /** The offsets of the cube `(-r..=r)³` in cartesian order, as the
      `((x, y), z)` pairs the iterator chain produces. */
  function CubeOffsets(r: int): seq<((int, int), int)> {
    var range := Range(-r, r + 1);
    CartesianProduct(CartesianProduct(range, range), range)
  }

  /** The `map` step: each offset added to the centre. */
  function Translate(c: ChunkPos, offsets: seq<((int, int), int)>): (r: seq<ChunkPos>)
    ensures |r| == |offsets|
    ensures forall i :: 0 <= i < |offsets| ==>
      r[i] == Add(c, ChunkPos(offsets[i].0.0, offsets[i].0.1, offsets[i].1))
  {
    seq(|offsets|, i requires 0 <= i < |offsets| =>
      Add(c, ChunkPos(offsets[i].0.0, offsets[i].0.1, offsets[i].1)))
  }

  /** The `filter` predicate: within the radius of the centre. */
  function Within(c: ChunkPos, radiusSquared: int): ChunkPos -> bool {
    p => DistanceSquared(c, p) <= radiusSquared
  }

  /** The `sorted_by` key: squared distance to the centre. */
  function DistanceTo(c: ChunkPos): ChunkPos -> int {
    p => DistanceSquared(p, c)
  }

  /** The cube around `c`, in cartesian order, before filtering. */
  function Candidates(c: ChunkPos, r: int): seq<ChunkPos> {
    Translate(c, CubeOffsets(r))
  }

  /** `chunks_within_radius`: the cube `[-r, r]³` around `c`, keeping the
      positions within squared distance `r²`, stably sorted by squared
      distance and collected into an insertion-ordered set. */
  function ChunksWithinRadius(c: ChunkPos, r: int): (ps: seq<ChunkPos>)
    ensures NoDup(ps)
    ensures forall i :: 0 <= i < |ps| ==> DistanceSquared(c, ps[i]) <= r * r
  {
    var radiusSquared := r * r;
    var kept := Filter(Candidates(c, r), Within(c, radiusSquared));
    var sorted := SortBy(kept, DistanceTo(c));
    var ps := Dedup(sorted);
    assert forall i :: 0 <= i < |ps| ==> ps[i] in multiset(sorted);
    ps
  }

  // ---- arithmetic facts about squares ----

  lemma SquareFacts(a: int)
    ensures a * a >= 0
    ensures a != 0 ==> a * a >= 1
    ensures a * a == 1 <==> a == 1 || a == -1
  {
    if a >= 2 {
      assert a * a >= 2 * a;
    } else if a <= -2 {
      assert a * a >= -2 * a;
    }
  }

  lemma ProductAtLeastOne(a: int, b: int)
    requires a >= 1 && b >= 1
    ensures a * b >= 1
  {
    assert a * b == (a - 1) * b + b;
    assert (a - 1) * b >= 0;
  }

  lemma SquareAtMost(d: int, r: int)
    requires 0 <= r && d * d <= r * r
    ensures -r <= d <= r
  {
    if d > r {
      var a, b := d - r, d + r;
      assert a * b == d * d - r * r;
      ProductAtLeastOne(a, b);
    } else if d < -r {
      ProductAtLeastOne(-d - r, -d + r);
    }
  }

  lemma DistanceSquaredFacts(a: ChunkPos, b: ChunkPos)
    ensures DistanceSquared(a, b) == DistanceSquared(b, a)
    ensures DistanceSquared(a, b) == 0 <==> a == b
    ensures DistanceSquared(a, b) == 1 <==>
      || ((a.x - b.x) * (a.x - b.x) == 1 && a.y == b.y && a.z == b.z)
      || (a.x == b.x && (a.y - b.y) * (a.y - b.y) == 1 && a.z == b.z)
      || (a.x == b.x && a.y == b.y && (a.z - b.z) * (a.z - b.z) == 1)
  {
    SquareFacts(a.x - b.x);
    SquareFacts(a.y - b.y);
    SquareFacts(a.z - b.z);
    assert (a.x - b.x) * (a.x - b.x) == (b.x - a.x) * (b.x - a.x);
    assert (a.y - b.y) * (a.y - b.y) == (b.y - a.y) * (b.y - a.y);
    assert (a.z - b.z) * (a.z - b.z) == (b.z - a.z) * (b.z - a.z);
  }

  // ---- the six neighbours ----

  /** The six neighbours are pairwise distinct and are exactly the
      positions at squared distance 1: each differs from `p` by one step
      along one axis. */
  lemma AdjacentChunksAreUnitNeighbours(p: ChunkPos, q: ChunkPos)
    ensures |AdjacentChunks(p)| == 6 && NoDup(AdjacentChunks(p))
    ensures q in AdjacentChunks(p) <==> DistanceSquared(p, q) == 1
  {
    DistanceSquaredFacts(p, q);
    SquareFacts(p.x - q.x);
    SquareFacts(p.y - q.y);
    SquareFacts(p.z - q.z);
  }

  /** Opposite neighbours undo each other. */
  lemma OppositeNeighbours(p: ChunkPos)
    ensures Right(Left(p)) == p && Left(Right(p)) == p
    ensures Bottom(Top(p)) == p && Top(Bottom(p)) == p
    ensures Back(Front(p)) == p && Front(Back(p)) == p
  {
  }

  // ---- chunks_within_radius ----

  lemma TranslateContains(c: ChunkPos, offsets: seq<((int, int), int)>, p: ChunkPos)
    ensures p in Translate(c, offsets) <==> ((p.x - c.x, p.y - c.y), p.z - c.z) in offsets
  {
    var o := ((p.x - c.x, p.y - c.y), p.z - c.z);
    var t := Translate(c, offsets);
    if o in offsets {
      var i :| 0 <= i < |offsets| && offsets[i] == o;
      assert t[i] == p;
    }
    if p in t {
      var i :| 0 <= i < |t| && t[i] == p;
      assert offsets[i] == o;
    }
  }

  /** The square's offsets are exactly the pairs with both components
      in `[-r, r]`. */
  lemma SquareOffsetsContain(r: int, a: int, b: int)
    ensures (a, b) in CartesianProduct(Range(-r, r + 1), Range(-r, r + 1)) <==> -r <= a <= r && -r <= b <= r
  {
    CartesianContains(Range(-r, r + 1), Range(-r, r + 1), a, b);
    RangeContains(-r, r + 1, a);
    RangeContains(-r, r + 1, b);
  }

  /** The cube's offsets are exactly the triples with every component
      in `[-r, r]`. */
  lemma CubeOffsetsContain(r: int, a: int, b: int, e: int)
    ensures ((a, b), e) in CubeOffsets(r) <==> -r <= a <= r && -r <= b <= r && -r <= e <= r
  {
    var range := Range(-r, r + 1);
    CartesianContains(CartesianProduct(range, range), range, (a, b), e);
    SquareOffsetsContain(r, a, b);
    RangeContains(-r, r + 1, e);
  }

  lemma CandidatesContain(c: ChunkPos, r: int, p: ChunkPos)
    ensures p in Candidates(c, r) <==>
      -r <= p.x - c.x <= r && -r <= p.y - c.y <= r && -r <= p.z - c.z <= r
  {
    TranslateContains(c, CubeOffsets(r), p);
    CubeOffsetsContain(r, p.x - c.x, p.y - c.y, p.z - c.z);
  }

  lemma CandidatesNoDup(c: ChunkPos, r: int)
    ensures NoDup(Candidates(c, r))
  {
    var range := Range(-r, r + 1);
    CartesianNoDup(range, range);
    CartesianNoDup(CartesianProduct(range, range), range);
  }

  /** The sorted, filtered candidates have no repeats, so collecting them
      into the set drops nothing. */
  lemma CollectKeepsAll(c: ChunkPos, r: int)
    ensures ChunksWithinRadius(c, r) == SortBy(Filter(Candidates(c, r), Within(c, r * r)), DistanceTo(c))
  {
    var kept := Filter(Candidates(c, r), Within(c, r * r));
    CandidatesNoDup(c, r);
    FilterNoDup(Candidates(c, r), Within(c, r * r));
    SortByNoDup(kept, DistanceTo(c));
    DedupOfNoDup(SortBy(kept, DistanceTo(c)));
  }

  /** A position within squared distance `r²` lies in the cube `[-r, r]³`. */
  lemma WithinIsInCube(c: ChunkPos, r: int, p: ChunkPos)
    requires r >= 0 && DistanceSquared(c, p) <= r * r
    ensures -r <= p.x - c.x <= r && -r <= p.y - c.y <= r && -r <= p.z - c.z <= r
  {
    var a, b, e := p.x - c.x, p.y - c.y, p.z - c.z;
    SquareFacts(a);
    SquareFacts(b);
    SquareFacts(e);
    assert DistanceSquared(c, p) == a * a + b * b + e * e;
    SquareAtMost(a, r);
    SquareAtMost(b, r);
    SquareAtMost(e, r);
  }

  /** For `r >= 0` the result holds exactly the positions within squared
      distance `r²` of the centre, each once. */
  lemma ChunksWithinRadiusMembers(c: ChunkPos, r: int, p: ChunkPos)
    requires r >= 0
    ensures NoDup(ChunksWithinRadius(c, r))
    ensures p in ChunksWithinRadius(c, r) <==> DistanceSquared(c, p) <= r * r
  {
    CollectKeepsAll(c, r);
    var kept := Filter(Candidates(c, r), Within(c, r * r));
    assert p in SortBy(kept, DistanceTo(c)) <==> p in multiset(kept);
    FilterContains(Candidates(c, r), Within(c, r * r), p);
    CandidatesContain(c, r, p);
    if DistanceSquared(c, p) <= r * r {
      WithinIsInCube(c, r, p);
    }
  }

  /** For `r < 0` the range `-r..=r` is empty, and so is the result. */
  lemma NegativeRadiusIsEmpty(c: ChunkPos, r: int)
    requires r < 0
    ensures ChunksWithinRadius(c, r) == []
  {
    assert Range(-r, r + 1) == [];
    assert CubeOffsets(r) == [];
  }

  /** Nearest first: squared distance never decreases along the result. */
  lemma ChunksWithinRadiusSorted(c: ChunkPos, r: int)
    ensures SortedBy(ChunksWithinRadius(c, r), DistanceTo(c))
  {
    CollectKeepsAll(c, r);
    SortBySorted(Filter(Candidates(c, r), Within(c, r * r)), DistanceTo(c));
  }

  /** Positions that all lie at squared distance `d` pass the radius test
      together or not at all. */
  lemma FilterOneDistance(c: ChunkPos, r: int, d: int, cls: seq<ChunkPos>)
    requires forall i :: 0 <= i < |cls| ==> DistanceSquared(cls[i], c) == d
    ensures Filter(cls, Within(c, r * r)) == if d <= r * r then cls else []
  {
    forall x | x in cls ensures DistanceSquared(c, x) == d {
      DistanceSquaredFacts(x, c);
    }
    if d <= r * r {
      FilterAll(cls, Within(c, r * r));
    } else {
      FilterNone(cls, Within(c, r * r));
    }
  }

  /** Ties stay in cartesian order: the positions at any one squared
      distance `d <= r²` appear in the result exactly as they appear in the
      cube's (x, y, z) enumeration; no position lies beyond `r²`. */
  lemma ChunksWithinRadiusTies(c: ChunkPos, r: int, d: int)
    ensures KeyClass(ChunksWithinRadius(c, r), DistanceTo(c), d)
         == if d <= r * r then KeyClass(Candidates(c, r), DistanceTo(c), d) else []
  {
    var key := DistanceTo(c);
    var within := Within(c, r * r);
    var cands := Candidates(c, r);
    CollectKeepsAll(c, r);
    SortByStable(Filter(cands, within), key, d);
    FiltersCommute(cands, within, HasKey(key, d));
    FilterOneDistance(c, r, d, KeyClass(cands, key, d));
  }

  /** For `r >= 0` the centre comes first. */
  lemma CentreComesFirst(c: ChunkPos, r: int)
    requires r >= 0
    ensures |ChunksWithinRadius(c, r)| > 0 && ChunksWithinRadius(c, r)[0] == c
  {
    var res := ChunksWithinRadius(c, r);
    ChunksWithinRadiusMembers(c, r, c);
    DistanceSquaredFacts(c, c);
    ChunksWithinRadiusSorted(c, r);
    SortedFirstIsLeast(res, DistanceTo(c), c);
    DistanceSquaredFacts(res[0], c);
  }

  /** Radius 1 streams the centre and its six neighbours, nothing else. */
  lemma RadiusOneIsCentreAndNeighbours(c: ChunkPos, p: ChunkPos)
    ensures p in ChunksWithinRadius(c, 1) <==> p == c || p in AdjacentChunks(c)
  {
    ChunksWithinRadiusMembers(c, 1, p);
    AdjacentChunksAreUnitNeighbours(c, p);
    DistanceSquaredFacts(c, p);
  }
}
