/** The chunk edge length and the enumeration of a chunk's cells
    (src/voxel/chunk.rs). */
module VoxelChunk {
  import opened Itertools

  /** `CHUNK_SIZE`: cells along each edge of a chunk. */
  const ChunkSize: nat := 32

  /** Cells in one chunk, 32³. */
  const ChunkVolume: nat := ChunkSize * ChunkSize * ChunkSize

  /** A cell of a chunk, `(x, y, z)`. */
  type Cell = (int, int, int)

  predicate InChunk(c: Cell) {
    0 <= c.0 < ChunkSize && 0 <= c.1 < ChunkSize && 0 <= c.2 < ChunkSize
  }

  /** Where a cell stands in lexicographic (x, y, z) order: x slowest,
      z fastest. */
  function LexRank(c: Cell): int {
    c.0 * ChunkSize * ChunkSize + c.1 * ChunkSize + c.2
  }

  /** `((x, y), z)` flattened to `(x, y, z)`. */
  function Flatten(ps: seq<((int, int), int)>): (r: seq<Cell>)
    ensures |r| == |ps|
    ensures forall k :: 0 <= k < |ps| ==> r[k] == (ps[k].0.0, ps[k].0.1, ps[k].1)
  {
    seq(|ps|, k requires 0 <= k < |ps| => (ps[k].0.0, ps[k].0.1, ps[k].1))
  }

  /** `iter_blocks()`: `(0..32) × (0..32) × (0..32)` as triples. */
  function IterBlocks(): (cells: seq<Cell>)
    ensures |cells| == ChunkVolume
  {
    var r := Range(0, ChunkSize);
    CartesianLength(r, r);
    CartesianLength(CartesianProduct(r, r), r);
    Flatten(CartesianProduct(CartesianProduct(r, r), r))
  }

  /** The k-th triple, in closed form. */
  lemma IterBlocksAt(k: int)
    requires 0 <= k < ChunkVolume
    ensures |IterBlocks()| == ChunkVolume
    ensures IterBlocks()[k] == (k / 1024, k / 32 % 32, k % 32)
  {
    var r := Range(0, ChunkSize);
    var q := k / 32;
    assert q == (q / 32) * 32 + q % 32;
    assert q / 32 == k / 1024;
    CartesianAt(r, r, q / 32, q % 32);
    CartesianAt(CartesianProduct(r, r), r, q, k % 32);
  }

  lemma IterBlocksRank(k: int)
    requires 0 <= k < ChunkVolume
    ensures InChunk(IterBlocks()[k]) && LexRank(IterBlocks()[k]) == k
  {
    IterBlocksAt(k);
  }

  lemma IterBlocksFind(c: Cell)
    requires InChunk(c)
    ensures 0 <= LexRank(c) < ChunkVolume && IterBlocks()[LexRank(c)] == c
  {
    var k := LexRank(c);
    assert k == 1024 * c.0 + (32 * c.1 + c.2);
    assert k / 32 == 32 * c.0 + c.1;
    IterBlocksAt(k);
  }

  /** `iter_blocks` yields exactly 32³ triples, each inside the chunk, each
      cell exactly once, in lexicographic order with x outermost and z
      innermost (the opposite of the x-fastest storage order). */
  lemma IterBlocksEnumeratesChunk()
    ensures |IterBlocks()| == ChunkVolume
    ensures forall k :: 0 <= k < ChunkVolume ==> InChunk(IterBlocks()[k])
    ensures forall k :: 0 <= k < ChunkVolume ==> LexRank(IterBlocks()[k]) == k
    ensures forall c :: InChunk(c) ==> 0 <= LexRank(c) < ChunkVolume && IterBlocks()[LexRank(c)] == c
    ensures NoDup(IterBlocks())
  {
    IterBlocksAt(0);
    forall k | 0 <= k < ChunkVolume
      ensures InChunk(IterBlocks()[k]) && LexRank(IterBlocks()[k]) == k
    {
      IterBlocksRank(k);
    }
    forall c | InChunk(c)
      ensures 0 <= LexRank(c) < ChunkVolume && IterBlocks()[LexRank(c)] == c
    {
      IterBlocksFind(c);
    }
  }
}
