/** Block coordinates and the chunk that holds them
    (src/voxel/block_pos.rs). */
module BlockPositions {
  import opened VoxelChunk
  import opened ChunkPositions

  /** Values of an `i64`. */
  type I64 = n: int | -0x8000_0000_0000_0000 <= n < 0x8000_0000_0000_0000

  /** `BlockPos(I64Vec3)`: a block's place in the world. */
  datatype BlockPos = BlockPos(x: I64, y: I64, z: I64)

  /** Whether `n` is a value of an `i32`. */
  predicate IsI32(n: int) {
    -0x8000_0000 <= n < 0x8000_0000
  }

  /** The `as i32` cast: keeps the low 32 bits, read as two's complement. */
  function WrapI32(n: int): (r: int)
    ensures IsI32(r)
    ensures (n - r) % 0x1_0000_0000 == 0
    ensures IsI32(n) ==> r == n
  {
    (n + 0x8000_0000) % 0x1_0000_0000 - 0x8000_0000
  }

  /** `BlockPos::chunk`: each coordinate floor-divided by `CHUNK_SIZE`
      (`num_integer::div_floor`; Dafny's `/` with a positive divisor is
      floor division), then cast to `i32`. */
  function Chunk(p: BlockPos): (c: ChunkPos)
    ensures IsI32(c.x) && IsI32(c.y) && IsI32(c.z)
    ensures ChunkFits(p.x) ==> c.x * ChunkSize <= p.x < c.x * ChunkSize + ChunkSize
    ensures ChunkFits(p.y) ==> c.y * ChunkSize <= p.y < c.y * ChunkSize + ChunkSize
    ensures ChunkFits(p.z) ==> c.z * ChunkSize <= p.z < c.z * ChunkSize + ChunkSize
  {
    ChunkPos(WrapI32(p.x / ChunkSize), WrapI32(p.y / ChunkSize), WrapI32(p.z / ChunkSize))
  }

  /** `BlockPos::relative_to_chunk`: each coordinate's `rem_euclid` by
      `CHUNK_SIZE` (Dafny's `%` is the Euclidean remainder). */
  function RelativeToChunk(p: BlockPos): (r: (int, int, int))
    ensures InChunk(r)
    ensures (p.x - r.0) % ChunkSize == 0 && (p.y - r.1) % ChunkSize == 0 && (p.z - r.2) % ChunkSize == 0
  {
    (p.x % ChunkSize, p.y % ChunkSize, p.z % ChunkSize)
  }

  /** A coordinate whose chunk number is a value of an `i32`. */
  predicate ChunkFits(a: int) {
    -0x8000_0000 * ChunkSize <= a < 0x8000_0000 * ChunkSize
  }

  /** Along one axis: a coordinate is `32 * chunk + offset` with the offset
      in `[0, 32)`, and that decomposition is the only one. */
  lemma AxisDecomposition(a: int, c: int, r: int)
    requires 0 <= r < ChunkSize && a == ChunkSize * c + r
    ensures a / ChunkSize == c && a % ChunkSize == r
  {
  }

  /** `relative_to_chunk` lies in the chunk, and `chunk() * 32 +
      relative_to_chunk()` gives back the position on every axis whose
      chunk number fits an `i32`. */
  lemma ChunkRecomposes(p: BlockPos)
    ensures InChunk(RelativeToChunk(p))
    ensures ChunkFits(p.x) ==> Chunk(p).x * ChunkSize + RelativeToChunk(p).0 == p.x
    ensures ChunkFits(p.y) ==> Chunk(p).y * ChunkSize + RelativeToChunk(p).1 == p.y
    ensures ChunkFits(p.z) ==> Chunk(p).z * ChunkSize + RelativeToChunk(p).2 == p.z
  {
  }

  /** Every block of chunk `c` at offset `r` maps back to `c` and `r`. */
  lemma ChunkOfBlockInChunk(c: ChunkPos, r: Cell)
    requires IsI32(c.x) && IsI32(c.y) && IsI32(c.z) && InChunk(r)
    ensures var p := BlockPos(c.x * ChunkSize + r.0, c.y * ChunkSize + r.1, c.z * ChunkSize + r.2);
      Chunk(p) == c && RelativeToChunk(p) == r
  {
    AxisDecomposition(c.x * ChunkSize + r.0, c.x, r.0);
    AxisDecomposition(c.y * ChunkSize + r.1, c.y, r.1);
    AxisDecomposition(c.z * ChunkSize + r.2, c.z, r.2);
  }

  /** Moving 32 blocks along one axis moves one chunk along that axis and
      keeps the offset, wherever both chunk numbers fit an `i32`. */
  lemma ShiftByChunkSize(p: BlockPos)
    ensures ChunkFits(p.x) && ChunkFits(p.x + ChunkSize) ==>
      && Chunk(BlockPos(p.x + ChunkSize, p.y, p.z)) == Right(Chunk(p))
      && RelativeToChunk(BlockPos(p.x + ChunkSize, p.y, p.z)) == RelativeToChunk(p)
    ensures ChunkFits(p.y) && ChunkFits(p.y + ChunkSize) ==>
      && Chunk(BlockPos(p.x, p.y + ChunkSize, p.z)) == Top(Chunk(p))
      && RelativeToChunk(BlockPos(p.x, p.y + ChunkSize, p.z)) == RelativeToChunk(p)
    ensures ChunkFits(p.z) && ChunkFits(p.z + ChunkSize) ==>
      && Chunk(BlockPos(p.x, p.y, p.z + ChunkSize)) == Front(Chunk(p))
      && RelativeToChunk(BlockPos(p.x, p.y, p.z + ChunkSize)) == RelativeToChunk(p)
  {
    if ChunkFits(p.x) && ChunkFits(p.x + ChunkSize) {
      AxisDecomposition(p.x + ChunkSize, p.x / ChunkSize + 1, p.x % ChunkSize);
    }
    if ChunkFits(p.y) && ChunkFits(p.y + ChunkSize) {
      AxisDecomposition(p.y + ChunkSize, p.y / ChunkSize + 1, p.y % ChunkSize);
    }
    if ChunkFits(p.z) && ChunkFits(p.z + ChunkSize) {
      AxisDecomposition(p.z + ChunkSize, p.z / ChunkSize + 1, p.z % ChunkSize);
    }
  }

  /** The block just below the origin on every axis is the last block of
      chunk (-1, -1, -1). */
  lemma MinusOneIsLastOfPreviousChunk()
    ensures Chunk(BlockPos(-1, -1, -1)) == ChunkPos(-1, -1, -1)
    ensures RelativeToChunk(BlockPos(-1, -1, -1)) == (31, 31, 31)
  {
  }

  /** Beyond `32 * 2^31` the `as i32` cast wraps the chunk number. */
  lemma ChunkWrapsBeyondI32()
    ensures Chunk(BlockPos(0x8000_0000 * ChunkSize, 0, 0)).x == -0x8000_0000
  {
  }
}
