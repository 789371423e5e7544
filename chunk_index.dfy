/** The 16-bit flat index into a chunk's storage (src/voxel/chunk_index.rs). */
module ChunkIndexing {
  import opened Itertools
  import opened VoxelChunk

  /** Values of a `u16`. */
  type U16 = n: int | 0 <= n < 0x1_0000

  datatype ChunkIndex = ChunkIndex(value: U16)

  /** `ChunkIndex::new`: `x + 32y + 1024z`, cut to 16 bits by the `as u16`
      cast. */
  function New(x: nat, y: nat, z: nat): (r: ChunkIndex)
    ensures x < ChunkSize && y < ChunkSize && z < ChunkSize ==>
      && r.value < ChunkVolume
      && r.value == x + y * ChunkSize + z * ChunkSize * ChunkSize
  {
    ChunkIndex((x + y * ChunkSize + z * ChunkSize * ChunkSize) % 0x1_0000)
  }

  /** `ChunkIndex::iter`: the indices `0..CHUNK_SIZE`. */
  function Iter(): (r: seq<ChunkIndex>)
    ensures |r| == ChunkSize
    ensures forall i :: 0 <= i < |r| ==> r[i].value == i
  {
    var r := Range(0, ChunkSize);
    seq(|r|, i requires 0 <= i < |r| => ChunkIndex(r[i]))
  }

  /** `as_usize`: the stored value. */
  function AsUsize(i: ChunkIndex): (n: nat)
    ensures n < 0x1_0000
    ensures ChunkIndex(n) == i
  {
    i.value
  }

  /** Outside the chunk the cast does wrap: `z = 64` lands on index 0. */
  lemma NewWrapsOutsideChunk()
    ensures New(0, 0, 64) == New(0, 0, 0)
  {
  }

  /** Distinct cells of the chunk get distinct indices, and each component
      can be read back from the index. */
  lemma NewInjective(x: nat, y: nat, z: nat, x': nat, y': nat, z': nat)
    requires x < ChunkSize && y < ChunkSize && z < ChunkSize
    requires x' < ChunkSize && y' < ChunkSize && z' < ChunkSize
    ensures New(x, y, z) == New(x', y', z') <==> x == x' && y == y' && z == z'
  {
    var v := x + 32 * y + 1024 * z;
    assert v % 32 == x && v / 32 == y + 32 * z;
    var v' := x' + 32 * y' + 1024 * z';
    assert v' % 32 == x' && v' / 32 == y' + 32 * z';
  }

  /** `iter` yields exactly `CHUNK_SIZE` indices, `0..31`, in increasing
      order: the first row of x values, not the whole chunk. */
  lemma IterYieldsFirstRow()
    ensures |Iter()| == ChunkSize
    ensures forall i :: 0 <= i < ChunkSize ==> Iter()[i] == New(i, 0, 0)
    ensures forall i, j :: 0 <= i < j < ChunkSize ==> Iter()[i].value < Iter()[j].value
    ensures New(0, 1, 0) !in Iter()
  {
  }
}
