/** Block kinds, their texture table, the hand-written block-to-chunk
    arithmetic and the quads of a cube (src/block.rs). */
module Blocks {
  import opened Wrappers
  import opened VoxelChunk
  import opened ChunkPositions
  import opened Meshes
  import BlockPositions

  // ---- block kinds ----

  /** `Block`, a `#[repr(u8)]` enum. */
  datatype Block = Dirt | Grass | Rock | Sand

  /** `ToPrimitive::to_u8`: the discriminant. */
  function Code(b: Block): (n: nat)
    ensures n < 4
  {
    match b
    case Dirt => 0
    case Grass => 1
    case Rock => 2
    case Sand => 3
  }

  /** `FromPrimitive::from_u8`: the block with that discriminant, if any. */
  function FromCode(n: int): (r: Option<Block>)
    ensures r.Some? <==> 0 <= n < 4
    ensures r.Some? ==> Code(r.value) == n
  {
    if n == 0 then Some(Dirt)
    else if n == 1 then Some(Grass)
    else if n == 2 then Some(Rock)
    else if n == 3 then Some(Sand)
    else None
  }

  lemma CodeRoundTrip(b: Block)
    ensures FromCode(Code(b)) == Some(b)
  {
  }

  /** `BlockFace`. */
  datatype BlockFace = Left | Right | Top | Bottom | Front | Back

  /** The four faces that are neither top nor bottom. */
  predicate IsSide(f: BlockFace) {
    f != Top && f != Bottom
  }

  /** `Block::face_index`: the texture layer of a face. Layer 0 is dirt
      (also grass underneath), 1 the grass side, 2 the grass top, 3 rock,
      4 sand. */
  function FaceIndex(block: Block, face: BlockFace): (t: U32)
    ensures t <= 4
    ensures t == 0 <==> block == Dirt || (block == Grass && face == Bottom)
    ensures t == 1 <==> block == Grass && IsSide(face)
    ensures t == 2 <==> block == Grass && face == Top
    ensures t == 3 <==> block == Rock
    ensures t == 4 <==> block == Sand
  {
    match block
    case Dirt => 0
    case Grass => if face == Top then 2 else if face == Bottom then 0 else 1
    case Rock => 3
    case Sand => 4
  }

  // ---- the hand-written floor division ----

  function Abs(a: int): nat {
    if a < 0 then -a else a
  }

  /** Rust's `/` on `i64`: rounds toward zero. */
  function TruncDiv(a: int, b: int): int
    requires b != 0
  {
    var q := Abs(a) / Abs(b);
    if (a < 0) == (b < 0) then q else -q
  }

  /** Rust's `%` on `i64`: the remainder takes the sign of the dividend. */
  function TruncRem(a: int, b: int): int
    requires b != 0
  {
    a - b * TruncDiv(a, b)
  }

  lemma TruncRemFacts(a: int, b: int)
    requires b != 0
    ensures TruncRem(a, b) == if a < 0 then -(Abs(a) % Abs(b)) else Abs(a) % Abs(b)
  {
    var q, m := Abs(a) / Abs(b), Abs(a) % Abs(b);
    assert Abs(a) == Abs(b) * q + m;
    if b < 0 {
      assert b * q == -(Abs(b) * q);
      assert b * -q == Abs(b) * q;
    } else {
      assert b * -q == -(Abs(b) * q);
    }
  }

  /** `q` is the floor of `a / b`. */
  predicate IsFloorQuotient(a: int, b: int, q: int) {
    && (b > 0 ==> b * q <= a < b * q + b)
    && (b < 0 ==> b * q >= a > b * q + b)
  }

  /** `div_floor` as written: steps down from the truncated quotient when
      the dividend is negative and the division is inexact, whatever the
      sign of the divisor. */
  function DivFloorAsWritten(a: int, b: int): (q: int)
    requires b != 0
    ensures b > 0 || TruncRem(a, b) == 0 ==> IsFloorQuotient(a, b, q)
  {
    TruncRemFacts(a, b);
    var t := TruncDiv(a, b);
    assert a == b * t + TruncRem(a, b);
    if a >= 0 || TruncRem(a, b) == 0 then
      t
    else
      assert b * (t - 1) == b * t - b;
      t - 1
  }

  /** Floor division from truncating division: step down exactly when the
      division is inexact and the operands have opposite signs. */
  function DivFloor(a: int, b: int): (q: int)
    requires b != 0
    ensures IsFloorQuotient(a, b, q)
  {
    TruncRemFacts(a, b);
    var t := TruncDiv(a, b);
    assert a == b * t + TruncRem(a, b);
    if TruncRem(a, b) != 0 && (a < 0) != (b < 0) then
      assert b * (t - 1) == b * t - b;
      t - 1
    else
      t
  }

  lemma MulAtLeast(b: int, d: int)
    requires b > 0 && d >= 1
    ensures b * d >= b
  {
    assert b * d == b * (d - 1) + b;
    assert b * (d - 1) >= 0;
  }

  /** A positive divisor has one floor quotient. */
  lemma FloorQuotientUnique(a: int, b: int, q: int, q': int)
    requires b > 0 && IsFloorQuotient(a, b, q) && IsFloorQuotient(a, b, q')
    ensures q == q'
  {
    if q < q' {
      MulAtLeast(b, q' - q);
    } else if q' < q {
      MulAtLeast(b, q - q');
    }
  }

  /** With the positive divisor the program uses, `div_floor` as written is
      floor division. */
  lemma DivFloorAsWrittenForPositiveDivisor(a: int, b: int)
    requires b > 0
    ensures DivFloorAsWritten(a, b) == DivFloor(a, b) == a / b
  {
    assert IsFloorQuotient(a, b, a / b);
    FloorQuotientUnique(a, b, DivFloor(a, b), a / b);
  }

  /** With a negative divisor and a positive dividend, `div_floor` as
      written truncates instead of flooring: `div_floor(1, -2)` is 0 where
      the floor of -0.5 is -1. */
  lemma DivFloorAsWrittenMissesNegativeDivisor()
    ensures DivFloorAsWritten(1, -2) == 0
    ensures !IsFloorQuotient(1, -2, DivFloorAsWritten(1, -2))
    ensures DivFloor(1, -2) == -1
  {
  }

  // ---- the duplicate BlockPos of this file ----

  /** `BlockPos(I64Vec3)`, the copy in this file. */
  datatype BlockPos = BlockPos(x: BlockPositions.I64, y: BlockPositions.I64, z: BlockPositions.I64)

  /** `BlockPos::chunk`: each coordinate through `div_floor(_, 32)`, then
      `as i32`. */
  function Chunk(p: BlockPos): (c: ChunkPos)
    ensures BlockPositions.IsI32(c.x) && BlockPositions.IsI32(c.y) && BlockPositions.IsI32(c.z)
    ensures BlockPositions.ChunkFits(p.x) ==> c.x * ChunkSize <= p.x < c.x * ChunkSize + ChunkSize
    ensures BlockPositions.ChunkFits(p.y) ==> c.y * ChunkSize <= p.y < c.y * ChunkSize + ChunkSize
    ensures BlockPositions.ChunkFits(p.z) ==> c.z * ChunkSize <= p.z < c.z * ChunkSize + ChunkSize
  {
    ChunkPos(
      BlockPositions.WrapI32(DivFloorAsWritten(p.x, ChunkSize)),
      BlockPositions.WrapI32(DivFloorAsWritten(p.y, ChunkSize)),
      BlockPositions.WrapI32(DivFloorAsWritten(p.z, ChunkSize)))
  }

  /** `BlockPos::relative_to_chunk`: `rem_euclid(32)` per coordinate. */
  function RelativeToChunk(p: BlockPos): (r: (int, int, int))
    ensures InChunk(r)
    ensures (p.x - r.0) % ChunkSize == 0 && (p.y - r.1) % ChunkSize == 0 && (p.z - r.2) % ChunkSize == 0
  {
    (p.x % ChunkSize, p.y % ChunkSize, p.z % ChunkSize)
  }

  /** The two copies of `BlockPos` place every block in the same chunk at
      the same offset. */
  lemma AgreesWithVoxelBlockPos(p: BlockPos)
    ensures Chunk(p) == BlockPositions.Chunk(BlockPositions.BlockPos(p.x, p.y, p.z))
    ensures RelativeToChunk(p) == BlockPositions.RelativeToChunk(BlockPositions.BlockPos(p.x, p.y, p.z))
  {
    DivFloorAsWrittenForPositiveDivisor(p.x, ChunkSize);
    DivFloorAsWrittenForPositiveDivisor(p.y, ChunkSize);
    DivFloorAsWrittenForPositiveDivisor(p.z, ChunkSize);
  }

  // ---- the geometry of one face ----

  /** The flags `render_cube` receives: which faces to emit. */
  datatype BlockFaces = BlockFaces(left: bool, right: bool, top: bool, bottom: bool, front: bool, back: bool)

  function Flag(faces: BlockFaces, f: BlockFace): bool {
    match f
    case Left => faces.left
    case Right => faces.right
    case Top => faces.top
    case Bottom => faces.bottom
    case Front => faces.front
    case Back => faces.back
  }

  /** The order `render_cube` visits the faces in. */
  const FaceOrder: seq<BlockFace> := [Left, Right, Top, Bottom, Front, Back]

  /** The outward unit normal of a face. */
  function Normal(f: BlockFace): Vec3 {
    match f
    case Left => Vec3(-1, 0, 0)
    case Right => Vec3(1, 0, 0)
    case Top => Vec3(0, 1, 0)
    case Bottom => Vec3(0, -1, 0)
    case Front => Vec3(0, 0, 1)
    case Back => Vec3(0, 0, -1)
  }

  function Plus(p: Vec3, q: Vec3): Vec3 {
    Vec3(p.x + q.x, p.y + q.y, p.z + q.z)
  }

  /** The offset `d` from a cube's origin is a corner of the unit cube
      lying on face `f`'s side: the left face at `x`, the right face at
      `x + 1`, and so on. */
  predicate OnFace(f: BlockFace, d: Vec3) {
    && 0 <= d.x <= 1 && 0 <= d.y <= 1 && 0 <= d.z <= 1
    && match f
       case Left => d.x == 0
       case Right => d.x == 1
       case Bottom => d.y == 0
       case Top => d.y == 1
       case Back => d.z == 0
       case Front => d.z == 1
  }

  /** The corners `a`, `b`, `c`, `d` of each face, as offsets from the
      cube's origin, in the order `render_cube` emits them. */
  function CornerOffsets(f: BlockFace): (cs: seq<Vec3>)
    ensures |cs| == 4
  {
    match f
    case Left => [Vec3(0, 0, 0), Vec3(0, 1, 0), Vec3(0, 1, 1), Vec3(0, 0, 1)]
    case Right => [Vec3(1, 0, 0), Vec3(1, 1, 0), Vec3(1, 1, 1), Vec3(1, 0, 1)]
    case Top => [Vec3(0, 1, 0), Vec3(1, 1, 0), Vec3(1, 1, 1), Vec3(0, 1, 1)]
    case Bottom => [Vec3(0, 0, 0), Vec3(1, 0, 0), Vec3(1, 0, 1), Vec3(0, 0, 1)]
    case Front => [Vec3(0, 0, 1), Vec3(1, 0, 1), Vec3(1, 1, 1), Vec3(0, 1, 1)]
    case Back => [Vec3(0, 0, 0), Vec3(1, 0, 0), Vec3(1, 1, 0), Vec3(0, 1, 0)]
  }

  /** The texture coordinates of the corners `a`, `b`, `c`, `d`: sums of
      `tex = (0, 0)`, `right = (1, 0)` and `bottom = (0, 1)`. */
  function CornerTexcoords(f: BlockFace): (ts: seq<Vec2>)
    ensures |ts| == 4
  {
    match f
    case Left => [Vec2(0, 1), Vec2(0, 0), Vec2(1, 0), Vec2(1, 1)]
    case Right => [Vec2(0, 1), Vec2(0, 0), Vec2(1, 0), Vec2(1, 1)]
    case Top => [Vec2(0, 0), Vec2(0, 1), Vec2(1, 1), Vec2(1, 0)]
    case Bottom => [Vec2(0, 0), Vec2(0, 1), Vec2(1, 1), Vec2(1, 0)]
    case Front => [Vec2(0, 1), Vec2(1, 1), Vec2(1, 0), Vec2(0, 0)]
    case Back => [Vec2(0, 1), Vec2(1, 1), Vec2(1, 0), Vec2(0, 0)]
  }

  /** Each face's corners lie on its side of the unit cube. */
  lemma CornersOnFace(f: BlockFace, k: nat)
    requires k < 4
    ensures OnFace(f, CornerOffsets(f)[k])
  {
    match f
    case Left =>
    case Right =>
    case Top =>
    case Bottom =>
    case Front =>
    case Back =>
  }

  /** Each face's four corners are pairwise distinct. */
  lemma CornersDistinct(f: BlockFace, i: nat, j: nat)
    requires i < j < 4
    ensures CornerOffsets(f)[i] != CornerOffsets(f)[j]
  {
    match f
    case Left =>
    case Right =>
    case Top =>
    case Bottom =>
    case Front =>
    case Back =>
  }
}
