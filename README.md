# Voxel core of a block-world game, in Dafny

This project models the voxel core of a small Rust block-world game and
proves properties of that model. The world is cut into cubic chunks of
32 × 32 × 32 cells. Each cell is empty or holds one of four block kinds.
The model covers:

- **Coordinates**: block positions (`i64`), chunk positions (`i32`), the
  floor division and Euclidean remainder that map one to the other, and
  the 16-bit flat cell index.
- **Chunk store**: a chunk's 32³ slots in x-fastest order, reading and
  writing one slot, and the run-length byte codec used to persist chunks.
- **Streaming order**: the chunks within a radius of a centre chunk,
  nearest first.
- **Mesh extraction**:
  - the six 32 × 32 occupancy planes cached from the neighbouring chunks;
  - the per-cell face-visibility test;
  - the quads (4 vertices, 6 indices per visible face) a cube writes into
    a growing mesh buffer;
  - the loop that meshes a whole chunk and decides whether it gets a
    collider.

Each source file is one module:

| module | source file | form |
|---|---|---|
| `VoxelChunk` (voxel_chunk.dfy) | src/voxel/chunk.rs | functions and lemmas |
| `ChunkIndexing` (chunk_index.dfy) | src/voxel/chunk_index.rs | functions and lemmas |
| `ChunkPositions` (chunk_pos.dfy) | src/voxel/chunk_pos.rs | functions and lemmas |
| `BlockPositions` (block_pos.dfy) | src/voxel/block_pos.rs | functions and lemmas |
| `ChunkStore` (chunk_data.dfy) | src/voxel/chunk_data.rs | class `ChunkData` with a `seq` field; loop methods proved against specification functions |
| `Meshes` (mesh_builder.dfy) | src/mesh_builder.rs | class `MeshBuilder` with five `seq` buffers |
| `Blocks` (block.dfy) | src/block.rs, pure part | functions and lemmas |
| `CubeMeshes` (cube_mesh.dfy) | src/block.rs, `render_cube` | methods over `MeshBuilder` |
| `ChunkMeshing` (chunk.dfy) | src/chunk.rs | loop methods over arrays and `MeshBuilder`, proved against specification functions |

The library iterator steps the source relies on live in `Itertools`
(itertools.dfy) as specification functions: `cartesian_product`, `filter`,
the stable `sorted_by` and collecting into an `IndexSet`. `Wrappers` holds
`Option`.

Fixed-width integers are unbounded `int`s with explicit casts where the
source casts:

- `as u16` in `ChunkIndex::new` and in the codec's run count;
- `as u32` of vertex numbers (`Meshes.Wrap32`);
- `as i32` of chunk numbers (`BlockPositions.WrapI32`).

## Model

| member | source | states |
|---|---|---|
| VoxelChunk.IterBlocks | src/voxel/chunk.rs:5-10 | `iter_blocks` yields 32³ triples |
| VoxelChunk.IterBlocksAt | src/voxel/chunk.rs:5-10 | the k-th triple is `(k / 1024, k / 32 % 32, k % 32)` |
| VoxelChunk.IterBlocksRank | src/voxel/chunk.rs:6-9 | the k-th triple lies in the chunk and has lexicographic rank k |
| VoxelChunk.IterBlocksFind | src/voxel/chunk.rs:5-10 | every cell of the chunk appears, at its lexicographic rank |
| VoxelChunk.IterBlocksEnumeratesChunk | src/voxel/chunk.rs:3-10 | the 32³ triples are in the chunk, pairwise distinct, cover every cell, and are in lexicographic order with x outermost and z innermost |
| ChunkIndexing.AsUsize | src/voxel/chunk_index.rs:16-18 | `as_usize` returns the stored value unchanged, below 2^16 |
| ChunkIndexing.New | src/voxel/chunk_index.rs:7-9 | inside the chunk `new` is `x + 32y + 1024z` < 32768, so the `u16` cast does not truncate |
| ChunkIndexing.NewWrapsOutsideChunk | src/voxel/chunk_index.rs:7-9 | outside the chunk the cast wraps: `(0, 0, 64)` gets index 0 |
| ChunkIndexing.NewInjective | src/voxel/chunk_index.rs:7-9 | on [0,32)³, `new` gives equal indices exactly for equal cells |
| ChunkIndexing.Iter | src/voxel/chunk_index.rs:11-14 | `iter` yields 32 indices, the i-th holding value i |
| ChunkIndexing.IterYieldsFirstRow | src/voxel/chunk_index.rs:11-14 | `iter` yields exactly 32 indices, `0..31` in increasing order, and misses `new(0, 1, 0)` |
| ChunkPositions.Add | src/voxel/chunk_pos.rs:6-7 | the derived `Add` leaves a position unchanged exactly when the offset is zero |
| ChunkPositions.DistanceSquared | src/voxel/chunk_pos.rs:30-33 | `distance_squared` is zero exactly for equal positions |
| ChunkPositions.Left | src/voxel/chunk_pos.rs:38-40 | `left` is one unit step towards smaller x, y and z unchanged |
| ChunkPositions.Right | src/voxel/chunk_pos.rs:42-44 | `right` is one unit step towards larger x, y and z unchanged |
| ChunkPositions.Top | src/voxel/chunk_pos.rs:46-48 | `top` is one unit step towards larger y, x and z unchanged |
| ChunkPositions.Bottom | src/voxel/chunk_pos.rs:50-52 | `bottom` is one unit step towards smaller y, x and z unchanged |
| ChunkPositions.Front | src/voxel/chunk_pos.rs:54-56 | `front` is one unit step towards larger z, x and y unchanged |
| ChunkPositions.Back | src/voxel/chunk_pos.rs:58-60 | `back` is one unit step towards smaller z, x and y unchanged |
| ChunkPositions.AdjacentChunks | src/voxel/chunk_pos.rs:62-71 | `adjacent_chunks` gives six positions, each at squared distance 1 |
| ChunkPositions.ChunksWithinRadius | src/voxel/chunk_pos.rs:21-36 | the result has no repeats and every element lies within squared distance r² of the centre |
| ChunkPositions.DistanceSquaredFacts | src/voxel/chunk_pos.rs:30-33 | squared distance is symmetric, zero exactly for equal positions, and one exactly for a unit step along one axis |
| ChunkPositions.AdjacentChunksAreUnitNeighbours | src/voxel/chunk_pos.rs:38-71 | `adjacent_chunks` gives six pairwise-distinct positions, and they are exactly the positions at squared distance 1 |
| ChunkPositions.OppositeNeighbours | src/voxel/chunk_pos.rs:38-60 | left/right, top/bottom and front/back undo each other |
| ChunkPositions.Translate | src/voxel/chunk_pos.rs:29 | the `map` step adds the centre to each `((x, y), z)` offset, position by position |
| ChunkPositions.TranslateContains | src/voxel/chunk_pos.rs:29 | a position is produced exactly when its offset from the centre is among the offsets |
| ChunkPositions.CubeOffsetsContain | src/voxel/chunk_pos.rs:23-28 | the cartesian cube holds exactly the triples with every component in [-r, r] |
| ChunkPositions.CandidatesContain | src/voxel/chunk_pos.rs:23-29 | the mapped cube holds exactly the positions within r of the centre on every axis |
| ChunkPositions.CandidatesNoDup | src/voxel/chunk_pos.rs:23-29 | the mapped cube has no repeats |
| ChunkPositions.CollectKeepsAll | src/voxel/chunk_pos.rs:35 | collecting into the `IndexSet` drops nothing and keeps the order |
| ChunkPositions.WithinIsInCube | src/voxel/chunk_pos.rs:22-30 | a position within squared distance r² lies in the cube [-r, r]³, so the cube enumerates every position the filter keeps |
| ChunkPositions.ChunksWithinRadiusMembers | src/voxel/chunk_pos.rs:21-36 | for r ≥ 0 the result holds each position with squared distance ≤ r², exactly once, and nothing else |
| ChunkPositions.NegativeRadiusIsEmpty | src/voxel/chunk_pos.rs:23-28 | for r < 0 the range is empty, and so is the result |
| ChunkPositions.ChunksWithinRadiusSorted | src/voxel/chunk_pos.rs:31-34 | squared distance never decreases along the result |
| ChunkPositions.ChunksWithinRadiusTies | src/voxel/chunk_pos.rs:25-35 | the positions at any one squared distance d ≤ r² appear in cartesian (x, y, z) order, because the sort is stable |
| ChunkPositions.CentreComesFirst | src/voxel/chunk_pos.rs:21-36 | for r ≥ 0 the first element is the centre |
| ChunkPositions.RadiusOneIsCentreAndNeighbours | src/voxel/chunk_pos.rs:21-71 | radius 1 gives the centre and its six adjacent chunks, nothing else |
| Itertools.Range | src/voxel/chunk_pos.rs:23 | `lo..hi` holds `lo + i` at position i and is empty when `lo > hi` |
| Itertools.CartesianAt | src/voxel/chunk.rs:5-10 | `cartesian_product` has length \|xs\|·\|ys\| and holds `(xs[i], ys[j])` at `i·|ys| + j` |
| Itertools.CartesianContains | src/voxel/chunk_pos.rs:27-28 | a pair is in the product exactly when each component is in its range |
| Itertools.CartesianNoDup | src/voxel/chunk_pos.rs:27-28 | the product of repeat-free ranges has no repeats |
| Itertools.Filter | src/voxel/chunk_pos.rs:30 | `filter` keeps exactly the elements that pass, and no others |
| Itertools.FilterContains | src/voxel/chunk_pos.rs:30 | x survives `filter` exactly when x was present and passes |
| Itertools.SortBy | src/voxel/chunk_pos.rs:31-34 | `sorted_by` permutes its input |
| Itertools.SortBySorted | src/voxel/chunk_pos.rs:31-34 | `sorted_by` output is ordered by the key |
| Itertools.SortByStable | src/voxel/chunk_pos.rs:31-34 | `sorted_by` is stable: the elements with any one key keep their input order |
| Itertools.SortByNoDup | src/voxel/chunk_pos.rs:31-34 | sorting a repeat-free sequence adds no repeats |
| Itertools.Dedup | src/voxel/chunk_pos.rs:35 | collecting into an `IndexSet` keeps each element of its input exactly once and adds nothing |
| Itertools.DedupOfNoDup | src/voxel/chunk_pos.rs:35 | collecting a repeat-free sequence leaves it unchanged |
| BlockPositions.WrapI32 | src/voxel/block_pos.rs:24-30 | the `as i32` cast lands in i32 range, agrees with its argument modulo 2^32, and is the identity on i32 values |
| BlockPositions.Chunk | src/voxel/block_pos.rs:24-30 | each chunk number is an i32, and when it fits without wrapping the block lies in [32c, 32c + 32) on that axis |
| BlockPositions.RelativeToChunk | src/voxel/block_pos.rs:32-38 | the offset lies in [0,32)³ and is congruent to the block's coordinate modulo 32 on each axis |
| BlockPositions.AxisDecomposition | src/voxel/block_pos.rs:24-38 | a coordinate `32c + r` with r in [0, 32) has floor quotient c and Euclidean remainder r |
| BlockPositions.ChunkRecomposes | src/voxel/block_pos.rs:24-38 | `relative_to_chunk` lies in [0,32)³, and `chunk()·32 + relative_to_chunk()` gives back each coordinate whose chunk number fits an i32 |
| BlockPositions.ChunkOfBlockInChunk | src/voxel/block_pos.rs:24-38 | every cell r of chunk c maps back to chunk c and offset r |
| BlockPositions.ShiftByChunkSize | src/voxel/block_pos.rs:24-38 | adding 32 to x, y or z moves one chunk right, up or to the front, and keeps the offset, whenever both chunk numbers fit an i32 |
| BlockPositions.MinusOneIsLastOfPreviousChunk | src/voxel/block_pos.rs:24-38 | block (-1, -1, -1) is cell (31, 31, 31) of chunk (-1, -1, -1): the division floors |
| BlockPositions.ChunkWrapsBeyondI32 | src/voxel/block_pos.rs:24-30 | beyond 32·2^31 the `as i32` cast wraps the chunk number to -2^31 |
| Blocks.Code | src/block.rs:57-64 | the discriminant of a block kind is below 4 |
| Blocks.FromCode | src/block.rs:57-64 | `from_u8` succeeds exactly on 0..3 and inverts the discriminant |
| Blocks.CodeRoundTrip | src/block.rs:57-64 | `from_u8(to_u8(b)) == Some(b)` |
| Blocks.FaceIndex | src/block.rs:66-76 | the texture layer is in 0..=4: Dirt → 0, Grass top → 2, Grass bottom → 0, Grass sides → 1, Rock → 3, Sand → 4, each an if-and-only-if |
| Blocks.TruncRemFacts | src/block.rs:50 | Rust's `%` takes the dividend's sign and the magnitude of the mathematical remainder |
| Blocks.DivFloor | src/block.rs:49-55 | the corrected floor division returns the floor quotient for every non-zero divisor |
| Blocks.DivFloorAsWritten | src/block.rs:49-55 | `div_floor` as written returns the floor quotient whenever the divisor is positive or the division is exact |
| Blocks.FloorQuotientUnique | src/block.rs:49-55 | for a positive divisor the floor quotient is unique |
| Blocks.DivFloorAsWrittenForPositiveDivisor | src/block.rs:49-55 | with a positive divisor, `div_floor` as written equals the floor of a/b |
| Blocks.DivFloorAsWrittenMissesNegativeDivisor | src/block.rs:49-55 | with a negative divisor it does not: `div_floor(1, -2)` is 0 where the floor is -1 |
| Blocks.Chunk | src/block.rs:28-34 | `chunk` through `div_floor` as written: each chunk number is an i32, and when it fits the block lies in [32c, 32c + 32) on that axis |
| Blocks.RelativeToChunk | src/block.rs:36-42 | the offset lies in [0,32)³ and is congruent to the block's coordinate modulo 32 on each axis |
| Blocks.AgreesWithVoxelBlockPos | src/block.rs:28-42 | this file's `chunk`, with `div_floor` as written, and its `relative_to_chunk` agree with those of src/voxel/block_pos.rs on every position |
| Blocks.CornerOffsets | src/block.rs:109-216 | each face emits four corners |
| Blocks.CornersOnFace | src/block.rs:109-216 | each face's four corners lie on its plane of the unit cube: left at x, right at x + 1, and so on |
| Blocks.CornersDistinct | src/block.rs:109-216 | each face's four corners are pairwise distinct |
| CubeMeshes.FaceVertices | src/block.rs:109-216 | a face's four vertices sit at the cube's origin plus its corners and all carry the face's normal and the same `face_index` |
| CubeMeshes.QuadTriangles | src/block.rs:120-215 | a face's six indices form two triangles that share the a–c diagonal and together use all four corners |
| CubeMeshes.QuadIndices | src/block.rs:120-215 | the six indices of a face are its first vertex's number plus the face's corner pattern |
| CubeMeshes.QuadIndicesOfCorners | src/block.rs:120-215 | the pattern, after the `u32` cast, is `[a, d, c, c, b, a]` for left, top and back and `[a, b, c, c, d, a]` for the rest |
| CubeMeshes.FaceListSpelled | src/block.rs:109-216 | the emitted faces are the six `if` blocks in source order |
| CubeMeshes.FaceListCount | src/block.rs:109-216 | one face is emitted per `true` flag |
| CubeMeshes.FaceListExact | src/block.rs:109-216 | a face is emitted exactly when its flag is set, once, in the order left, right, top, bottom, front, back |
| CubeMeshes.QuadsVertices | src/block.rs:109-216 | a cube emits 4 vertices per emitted face |
| CubeMeshes.QuadsIndices | src/block.rs:109-216 | a cube emits 6 indices per emitted face |
| CubeMeshes.QuadsVertexAt | src/block.rs:109-216 | vertex 4k + m of a cube is corner m of its k-th face |
| CubeMeshes.QuadsIndexAt | src/block.rs:120-215 | index 6k + j names corner `pattern[j]` of the k-th face |
| CubeMeshes.QuadsIndicesInRange | src/block.rs:120-215 | the indices of a face refer only to the four vertices appended for that face |
| CubeMeshes.QuadsIndicesBounds | src/block.rs:109-216 | every index of a cube lies among its own vertices |
| CubeMeshes.QuadsIndicesUnwrapped | src/block.rs:109-216 | below 2^32 vertices the `u32` cast leaves a cube's indices unchanged |
| CubeMeshes.RenderFace | src/block.rs:109-121 | one face block appends that face's four vertices and its six wrapped indices, and nothing else |
| CubeMeshes.RenderIfFlagged | src/block.rs:108-216 | one `if flag` block emits its face exactly when the flag is set |
| CubeMeshes.RenderCube | src/block.rs:98-217 | `render_cube` appends exactly the vertices and indices of the flagged faces in source order: 4 vertices and 6 indices per `true` flag, nothing for `false` |
| Meshes.Wrap32 | src/mesh_builder.rs:31 | the `as u32` cast lies in u32 range and is the identity on u32 values |
| Meshes.WrapAll | src/mesh_builder.rs:31 | the cast applied to each element |
| Meshes.WrapAllSmall | src/mesh_builder.rs:31 | without overflow the cast changes nothing |
| Meshes.MeshBuilder.constructor | src/mesh_builder.rs:11-23 | `new` starts with all five buffers empty |
| Meshes.MeshBuilder.Vertex | src/mesh_builder.rs:25-32 | `vertex` returns the vertex count before the call (cast to u32), appends one entry to each attribute buffer, and leaves the index buffer unchanged |
| Meshes.MeshBuilder.Indices | src/mesh_builder.rs:34-36 | `indices` appends the given indices in order and leaves the vertex attributes unchanged |
| Meshes.MeshBuilder.VertexCount | src/chunk.rs:176 | `count_vertices` of the built mesh is the number of rows in each attribute buffer |
| ChunkStore.Repeat | src/voxel/chunk_data.rs:101-107 | `vec![x; n]` has n elements, each x |
| ChunkStore.ValueByte | src/voxel/chunk_data.rs:27-30 | a slot's byte is 0 exactly for an empty slot and `code + 1` for a block |
| ChunkStore.SlotOfByte | src/voxel/chunk_data.rs:64-67 | a byte decodes exactly when it is below 5 |
| ChunkStore.SlotByteRoundTrip | src/voxel/chunk_data.rs:27-30 | slot → byte → slot is the identity, and so is byte → slot → byte for every byte that decodes |
| ChunkStore.SlotsOfValues | src/voxel/chunk_data.rs:26-30 | decoding the bytes of a slot sequence gives it back |
| ChunkStore.Runs | src/voxel/chunk_data.rs:26-42 | grouping bytes into runs gives no more runs than bytes, and none exactly for no bytes |
| ChunkStore.RunsExpand | src/voxel/chunk_data.rs:26-42 | expanding the runs gives back the byte sequence |
| ChunkStore.RunsWellFormed | src/voxel/chunk_data.rs:32-41 | each run has count ≥ 1, a value below 5, and a value different from the next run's |
| ChunkStore.TotalCountIsLength | src/voxel/chunk_data.rs:26-51 | the run counts sum to the number of expanded bytes |
| ChunkStore.ChunkRuns | src/voxel/chunk_data.rs:26-51 | a chunk's runs expand to its bytes, are well formed, and their counts sum to the slot count |
| ChunkStore.U16BigEndian | src/voxel/chunk_data.rs:36-48 | `(count as u16).to_be_bytes()` is two bytes that `from_be_bytes` reads back as count mod 2^16 |
| ChunkStore.RecordsAt | src/voxel/chunk_data.rs:36-49 | record i of the stream occupies bytes 3i..3i+3 |
| ChunkStore.RecordFields | src/voxel/chunk_data.rs:36-74 | each record reads back as its run's count and value |
| ChunkStore.Encoding | src/voxel/chunk_data.rs:21-54 | the stream is empty exactly for no slots, is one byte or a whole number of 3-byte records, and is at most three bytes per slot |
| ChunkStore.ChunkData.Serialize | src/voxel/chunk_data.rs:21-54 | the loop produces exactly the run-length encoding of the slots |
| ChunkStore.SerializeStep | src/voxel/chunk_data.rs:32-41 | one iteration of the loop keeps `last`, `count` and `data` in step with the runs of the prefix read so far |
| ChunkStore.SerializeFinish | src/voxel/chunk_data.rs:44-51 | the tail of `serialize` turns the loop state into the encoding: a single byte for a one-run chunk, a closing record otherwise |
| ChunkStore.UniformEncoding | src/voxel/chunk_data.rs:44-46 | a chunk of one repeated slot encodes as that slot's single byte; the empty chunk encodes as `[0]` |
| ChunkStore.EncodingRecords | src/voxel/chunk_data.rs:26-51 | with more than one run the stream is 3-byte records of big-endian count and value, counts in 1..32768, consecutive values different, counts summing to 32768 |
| ChunkStore.DecodeRecords | src/voxel/chunk_data.rs:73-93 | the record loop succeeds only on a whole number of 3-byte records |
| ChunkStore.Decoding | src/voxel/chunk_data.rs:56-94 | a single byte decodes exactly when it is below 5, and then to 32768 slots; any other stream that decodes is a whole number of records |
| ChunkStore.ChunkData.Empty | src/voxel/chunk_data.rs:58-60 | the chunk `deserialize` starts from holds no slots |
| ChunkStore.ChunkData.Deserialize | src/voxel/chunk_data.rs:56-94 | the cursor loop returns `None` exactly when the decoding fails, and otherwise a new chunk holding the decoded slots |
| ChunkStore.RecordStep | src/voxel/chunk_data.rs:73-87 | one record of the cursor loop: a count of 0 is skipped, a bad value byte fails, otherwise `count` slots are pushed |
| ChunkStore.DecodeRecordsOfRuns | src/voxel/chunk_data.rs:73-93 | decoding the records of well-formed runs gives the slots the runs expand to |
| ChunkStore.RoundTrip | src/voxel/chunk_data.rs:21-94 | `deserialize(serialize(c))` gives back every slot of a 32³ chunk |
| ChunkStore.DecodingRejectsLength | src/voxel/chunk_data.rs:73-93 | a length that is neither 1 nor a multiple of 3 is rejected |
| ChunkStore.DecodingRejectsValue | src/voxel/chunk_data.rs:62-87 | a value byte ≥ 5, in the single-byte form or in a record with a non-zero count, is rejected |
| ChunkStore.ZeroCountIgnored | src/voxel/chunk_data.rs:77-84 | a record with count 0 is skipped, whatever its value byte |
| ChunkStore.DecodingDoesNotCheckTotal | src/voxel/chunk_data.rs:57-90 | the decoded total is not checked: `[]` decodes to a zero-slot chunk, `[0, 1, 0]` to one slot, and a valid single byte to 32768 slots |
| ChunkStore.ChunkData.Default | src/voxel/chunk_data.rs:101-107 | the default chunk is 32768 empty slots |
| ChunkStore.ChunkData.SetBlock | src/voxel/chunk_data.rs:17-19 | writing through `block_mut` changes slot `x + 32y + 1024z` and nothing else |
| ChunkStore.ChunkData.Index | src/voxel/chunk_data.rs:96-98 | inside the chunk `index` lies below 32768 |
| ChunkStore.ChunkData.Block | src/voxel/chunk_data.rs:13-15 | inside the chunk `block(x, y, z)` reads the slot that `ChunkIndex::new(x, y, z)` names |
| ChunkStore.IndexInjective | src/voxel/chunk_data.rs:96-98 | `index` maps [0,32)³ one-to-one into [0, 32768) |
| ChunkStore.WriteThenRead | src/voxel/chunk_data.rs:13-98 | after a write, `block` reads the new slot at that cell and the old slot at every other cell |
| ChunkStore.IndexAgreesWithChunkIndex | src/voxel/chunk_data.rs:96-98 | `ChunkIndex::new(x, y, z).as_usize()` equals `ChunkData::index(x, y, z)` inside the chunk |
| ChunkStore.StorageOrderDiffersFromIteration | src/voxel/chunk_data.rs:96-98 | storage is x-fastest while `iter_blocks` is z-fastest: the second cell visited, (0, 0, 1), is stored at 1024 |
| ChunkMeshing.EdgeIndex | src/chunk.rs:149-151 | `index(a, b)` lies in [0, 1024) and gives back a as its remainder and b as its quotient by 32 |
| ChunkMeshing.EdgeIndexInjective | src/chunk.rs:149-151 | `index` is one-to-one on [0,32)² |
| ChunkMeshing.SlabCell | src/chunk.rs:31-97 | the cell of a neighbour that each plane reads lies in that neighbour |
| ChunkMeshing.EdgePlane | src/chunk.rs:30-97 | each cached plane has 1024 entries |
| ChunkMeshing.EdgePlaneAt | src/chunk.rs:24-100 | with the neighbour absent, every plane entry is `true`; with it present, each entry is its occupancy on the facing slab (left x=31, right x=0, top y=0, bottom y=31, front z=0, back z=31) |
| ChunkMeshing.ComputeEdge | src/chunk.rs:29-41 | one plane's fill loop produces that plane |
| ChunkMeshing.ComputeEdges | src/chunk.rs:24-100 | `compute_edges` produces the six planes of the neighbours as they are when it runs |
| ChunkMeshing.EdgesOf | src/chunk.rs:24-100 | the six planes all have 1024 entries |
| ChunkMeshing.FaceFlag | src/chunk.rs:113-147 | the contract of `compute_faces` (`ComputeFaces`), face by face: a face's flag reads the in-chunk neighbour cell when there is one and the cached plane entry otherwise |
| ChunkMeshing.FaceShownIffOpen | src/chunk.rs:24-147 | a face of a cell is flagged exactly when the world across it is not solid, an absent neighbour counting as solid |
| ChunkMeshing.InteriorFaceShown | src/chunk.rs:113-147 | an interior face is flagged exactly when the in-chunk cell across it is empty |
| ChunkMeshing.AbsentNeighbourHidesBoundary | src/chunk.rs:116-141 | with the neighbour absent, no face on that side of the chunk's boundary is flagged |
| ChunkMeshing.NeighbourDecidesBoundary | src/chunk.rs:42-145 | with the neighbour present, a boundary face is flagged exactly when the neighbour's facing cell is empty; for the right face of (31, y, z) that cell is (0, y, z) |
| ChunkMeshing.BoundaryDrawnFromOneSide | src/chunk.rs:24-164 | across two neighbouring chunks joined along any face f, the shared face (f seen from one chunk, its opposite from the other) is never drawn from both sides, and is drawn from one side exactly when one of the two cells is occupied and the other is empty |
| ChunkMeshing.OpenCellShowsSixFaces | src/chunk.rs:159-170 | a block with open space on all six sides shows six faces, 24 vertices |
| ChunkMeshing.CellFaceCount | src/chunk.rs:159-170 | one cell shows at most six faces |
| ChunkMeshing.MeshSnoc | src/chunk.rs:159-171 | visiting one more cell appends that cell's vertices, and its indices numbered from the vertex count so far |
| ChunkMeshing.MeshSizes | src/chunk.rs:159-171 | the mesh has 4 vertices and 6 indices per visible face, and at most 6 visible faces per cell |
| ChunkMeshing.MeshIndicesInRange | src/chunk.rs:159-171 | every index of the mesh refers to one of its vertices |
| ChunkMeshing.MeshIndicesUnwrapped | src/chunk.rs:159-171 | a whole chunk's mesh stays below 2^32 vertices, so the `u32` cast changes no index |
| ChunkMeshing.EmptyChunkHasNoMesh | src/chunk.rs:159-162 | an empty chunk emits no vertices and no indices: only occupied cells emit quads |
| ChunkMeshing.EnclosedFullChunkHasNoMesh | src/chunk.rs:116-171 | a full chunk with no neighbours loaded shows no faces and emits no vertices |
| ChunkMeshing.CellShowsNothing | src/chunk.rs:114-170 | in a full chunk with no neighbours, a cell shows no face and emits no vertex |
| ChunkMeshing.CellHidden | src/chunk.rs:114-146 | in a full chunk with the neighbour on one side absent, no cell's face on that side is flagged |
| ChunkMeshing.EmittedStep | src/chunk.rs:159-171 | one iteration of the cell loop keeps the builder equal to the mesh of the cells visited so far |
| ChunkMeshing.RenderCell | src/chunk.rs:160-170 | one iteration skips an empty cell and otherwise renders its cube with the computed flags |
| ChunkMeshing.GenerateMesh | src/chunk.rs:154-183 | `generate_mesh` builds exactly the mesh of the chunk's cells in `iter_blocks` order, with indices unwrapped, and has a collider exactly when it emitted a vertex |

## Left out

- ChunkPositions.Add: `IVec3` addition wraps on `i32` overflow; the model adds unbounded integers, so chunk positions within `r` of a centre near the `i32` limits are not modelled as wrapping.
- ChunkPositions.ChunksWithinRadius: `chunk_radius * chunk_radius` and `distance_squared` are `i32` arithmetic that overflows for large radii or far-apart chunks; the model uses unbounded integers.
- ChunkMeshing.ComputeFaces: carries no postcondition of its own; `FaceFlag` states its result face by face for every face, because a postcondition over all six `if` blocks at once is too costly for the verifier.
- ChunkStore.ChunkData.Deserialize: `Vec::with_capacity(32768).capacity()` is taken to be exactly 32768; Rust only promises at least that.
- ChunkStore.ChunkData.Serialize: `count` is an `i32` in Rust; it never exceeds the slot count, so it is unbounded here, and the `as u16` cast is modelled.
- ChunkStore.ChunkData.Block and ChunkStore.ChunkData.SetBlock take `(x, y, z)` as src/voxel/chunk_data.rs does; src/chunk.rs calls them with a `ChunkIndex`, and `IndexAgreesWithChunkIndex` shows the two agree inside the chunk. An out-of-range access panics in Rust and is excluded by a precondition here.
- `MeshBuilder::build` and `Collider::trimesh_from_mesh` (src/mesh_builder.rs:38-46, src/chunk.rs:174-180) are foreign mesh and physics constructors; only "a collider exists exactly when the mesh has a vertex" is modelled.
- Positions, normals and texture coordinates are `f32` in the source and integer vectors here: every value `render_cube` produces is a small whole number.
- The `RwLock` reads and the `async` wrapper of `generate_mesh` are concurrency. The model reads each neighbour once (`Snapshot`), as if no writer interleaves.
- The world generator (src/level_generator.rs), streaming and persistence scheduling (src/level.rs), physics (src/physics.rs), the player, menus, asset loading and the chunk material are not part of this model: they are noise, floating point, engine plumbing and I/O.

Two behaviours of the codec are easy to overlook; the model keeps both:

- Decoding checks only that the cursor reached the end of the stream, not that 32768 slots were decoded (`DecodingDoesNotCheckTotal`).
- A chunk that is a single run, the empty chunk included, encodes as that run's single value byte, not as a record (`UniformEncoding`).

## Findings

| source | as written | input that shows it | evidently intended | confidence | as-written member | corrected member |
|---|---|---|---|---|---|---|
| src/block.rs:49-55 | `div_floor` steps down from the truncated quotient whenever the dividend is negative and the division is inexact, whatever the divisor's sign | `div_floor(1, -2)` returns 0; the floor of -0.5 is -1 | floor division for every non-zero divisor. This is latent: the program only calls it with divisor 32 | not executed | Blocks.DivFloorAsWrittenMissesNegativeDivisor | Blocks.DivFloor |
