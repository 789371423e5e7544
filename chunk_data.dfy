/** A chunk's 32³ block slots and their run-length byte codec
    (src/voxel/chunk_data.rs). */
module ChunkStore {
  import opened Wrappers
  import opened VoxelChunk
  import opened Blocks
  import ChunkIndexing
  import opened Itertools

  /** Values of a `u8`. */
  type Byte = b: int | 0 <= b < 256

  /** One slot of a chunk: empty, or a block. */
  type Slot = Option<Block>

  /** `n` copies of `x`. */
  function Repeat<T>(x: T, n: nat): (r: seq<T>)
    ensures |r| == n
    ensures forall i :: 0 <= i < n ==> r[i] == x
  {
    seq(n, i requires 0 <= i < n => x)
  }

  // ---- value bytes ----

  /** The byte `serialize` writes for a slot: `0` when empty, the block's
      code plus one otherwise. */
  function ValueByte(s: Slot): (v: Byte)
    ensures v < 5
    ensures v == 0 <==> s.None?
    ensures s.Some? ==> v == Code(s.value) + 1
  {
    match s
    case None => 0
    case Some(b) => Code(b) + 1
  }

  /** What `deserialize` makes of a value byte: `0` is an empty slot,
      `1..=4` a block (`Block::from_u8(byte - 1)`), anything else fails. */
  function SlotOfByte(v: Byte): (r: Option<Slot>)
    ensures r.Some? <==> v < 5
  {
    if v == 0 then Some(None)
    else match FromCode(v - 1)
      case None => None
      case Some(b) => Some(Some(b))
  }

  /** Every slot survives the trip through its byte, and every byte that
      is read back is the byte of the slot it gives. */
  lemma SlotByteRoundTrip(s: Slot, v: Byte)
    ensures SlotOfByte(ValueByte(s)) == Some(s)
    ensures SlotOfByte(v).Some? ==> ValueByte(SlotOfByte(v).value) == v
  {
    if s.Some? {
      CodeRoundTrip(s.value);
    }
  }

  /** The value bytes of a sequence of slots. */
  function Values(blocks: seq<Slot>): (vs: seq<Byte>)
    ensures |vs| == |blocks|
    ensures forall i :: 0 <= i < |blocks| ==> vs[i] == ValueByte(blocks[i])
  {
    seq(|blocks|, i requires 0 <= i < |blocks| => ValueByte(blocks[i]))
  }

  /** The slots of a sequence of value bytes (an invalid byte, which
      `deserialize` never lets through, gives an empty slot). */
  function Slots(vs: seq<Byte>): (r: seq<Slot>)
    ensures |r| == |vs|
    ensures forall i :: 0 <= i < |vs| && vs[i] < 5 ==> Some(r[i]) == SlotOfByte(vs[i])
  {
    seq(|vs|, i requires 0 <= i < |vs| => SlotOfByte(vs[i]).GetOr(None))
  }

  lemma SlotsOfValues(blocks: seq<Slot>)
    ensures Slots(Values(blocks)) == blocks
  {
    forall i | 0 <= i < |blocks|
      ensures Slots(Values(blocks))[i] == blocks[i]
    {
      SlotByteRoundTrip(blocks[i], 0);
    }
  }

  // ---- runs ----

  /** `count` equal value bytes in a row. */
  datatype Run = Run(count: nat, value: Byte)

  /** The maximal runs of `vs`, as `serialize` discovers them from left
      to right: a byte equal to the last run's value extends that run,
      any other byte starts a new run of one. */
  function Runs(vs: seq<Byte>): (rs: seq<Run>)
    ensures |rs| <= |vs|
    ensures rs == [] <==> vs == []
    decreases |vs|
  {
    if vs == [] then []
    else
      var rs, v := Runs(vs[..|vs| - 1]), vs[|vs| - 1];
      if rs != [] && rs[|rs| - 1].value == v then rs[..|rs| - 1] + [Run(rs[|rs| - 1].count + 1, v)]
      else rs + [Run(1, v)]
  }

  /** The bytes the runs stand for. */
  function Expand(rs: seq<Run>): seq<Byte> {
    if rs == [] then [] else Repeat(rs[0].value, rs[0].count) + Expand(rs[1..])
  }

  lemma {:induction false} ExpandSnoc(rs: seq<Run>, r: Run)
    ensures Expand(rs + [r]) == Expand(rs) + Repeat(r.value, r.count)
    decreases |rs|
  {
    if rs == [] {
      assert [] + [r] == [r];
    } else {
      assert (rs + [r])[1..] == rs[1..] + [r];
      ExpandSnoc(rs[1..], r);
    }
  }

  /** Runs are well formed: none is empty, none is longer than `bound`,
      no value byte is 5 or more, and neighbouring runs carry different
      values (otherwise they would be one run). */
  predicate WellFormed(rs: seq<Run>, bound: nat) {
    && (forall i :: 0 <= i < |rs| ==> 1 <= rs[i].count <= bound && rs[i].value < 5)
    && (forall i :: 0 <= i < |rs| - 1 ==> rs[i].value != rs[i + 1].value)
  }

  /** Growing the last run by one byte of its value appends that byte. */
  lemma ExpandGrown(rs: seq<Run>, v: Byte)
    requires rs != [] && rs[|rs| - 1].value == v
    ensures Expand(rs[..|rs| - 1] + [Run(rs[|rs| - 1].count + 1, v)]) == Expand(rs) + [v]
  {
    var init, last := rs[..|rs| - 1], rs[|rs| - 1];
    assert rs == init + [last];
    RepeatSnoc(v, last.count);
    calc {
      Expand(init + [Run(last.count + 1, v)]);
    == { ExpandSnoc(init, Run(last.count + 1, v)); }
      Expand(init) + Repeat(v, last.count + 1);
    == { ConcatAssoc(Expand(init), Repeat(v, last.count), [v]); }
      (Expand(init) + Repeat(v, last.count)) + [v];
    == { ExpandSnoc(init, last); }
      Expand(rs) + [v];
    }
  }

  lemma RepeatSnoc<T>(x: T, n: nat)
    ensures Repeat(x, n + 1) == Repeat(x, n) + [x]
  {
  }

  /** A new run of one byte appends that byte. */
  lemma ExpandNew(rs: seq<Run>, v: Byte)
    ensures Expand(rs + [Run(1, v)]) == Expand(rs) + [v]
  {
    ExpandSnoc(rs, Run(1, v));
    assert Repeat(v, 1) == [v];
  }

  /** Expanding the runs of `vs` gives back `vs`. */
  lemma {:induction false} RunsExpand(vs: seq<Byte>)
    ensures Expand(Runs(vs)) == vs
    decreases |vs|
  {
    if vs != [] {
      var n := |vs| - 1;
      var front, v := vs[..n], vs[n];
      var rs := Runs(front);
      assert vs[..n + 1] == vs == front + [v];
      calc {
        Expand(Runs(vs));
      == { RunsSnoc(vs, n); }
        Expand(if rs != [] && rs[|rs| - 1].value == v then rs[..|rs| - 1] + [Run(rs[|rs| - 1].count + 1, v)]
               else rs + [Run(1, v)]);
      == { if rs != [] && rs[|rs| - 1].value == v { ExpandGrown(rs, v); } else { ExpandNew(rs, v); } }
        Expand(rs) + [v];
      == { RunsExpand(front); }
        vs;
      }
    }
  }

  /** The runs of `vs` are well formed. */
  lemma {:induction false} RunsWellFormed(vs: seq<Byte>)
    requires forall i :: 0 <= i < |vs| ==> vs[i] < 5
    ensures WellFormed(Runs(vs), |vs|)
    decreases |vs|
  {
    if vs != [] {
      var front, v := vs[..|vs| - 1], vs[|vs| - 1];
      var rs := Runs(front);
      RunsWellFormed(front);
      if rs != [] && rs[|rs| - 1].value == v {
        var rs' := Runs(vs);
        assert forall i :: 0 <= i < |rs| - 1 ==> rs'[i] == rs[i];
      }
    }
  }

  /** The run lengths add up to the number of bytes. */
  function TotalCount(rs: seq<Run>): nat {
    if rs == [] then 0 else rs[0].count + TotalCount(rs[1..])
  }

  lemma {:induction false} TotalCountIsLength(rs: seq<Run>)
    ensures TotalCount(rs) == |Expand(rs)|
    decreases |rs|
  {
    if rs != [] {
      TotalCountIsLength(rs[1..]);
    }
  }

  // ---- records ----

  /** `(count as u16).to_be_bytes()`: the high and the low byte of the
      count cut to 16 bits; reading them back gives that 16-bit count. */
  function U16BigEndian(n: int): (r: seq<Byte>)
    ensures |r| == 2
    ensures U16FromBigEndian(r[0], r[1]) == n % 0x1_0000
  {
    var m := n % 0x1_0000;
    [m / 256, m % 256]
  }

  /** `u16::from_be_bytes([hi, lo])`. */
  function U16FromBigEndian(hi: Byte, lo: Byte): (n: nat)
    ensures n < 0x1_0000
  {
    hi * 256 + lo
  }

  /** One record: the run's count and its value byte. */
  function Record(r: Run): (bytes: seq<Byte>)
    ensures |bytes| == 3
  {
    U16BigEndian(r.count) + [r.value]
  }

  /** The records of the runs, one after another. */
  function Records(rs: seq<Run>): (data: seq<Byte>)
    ensures |data| == 3 * |rs|
  {
    if rs == [] then [] else Record(rs[0]) + Records(rs[1..])
  }

  lemma {:induction false} RecordsSnoc(rs: seq<Run>, r: Run)
    ensures Records(rs + [r]) == Records(rs) + Record(r)
    decreases |rs|
  {
    if rs == [] {
      assert [] + [r] == [r];
    } else {
      assert (rs + [r])[1..] == rs[1..] + [r];
      RecordsSnoc(rs[1..], r);
    }
  }

  /** Record `i` of `Records(rs)` is `Record(rs[i])`. */
  lemma {:induction false} RecordsAt(rs: seq<Run>, i: nat)
    requires i < |rs|
    ensures Records(rs)[3 * i..3 * i + 3] == Record(rs[i])
    decreases |rs|
  {
    if i > 0 {
      RecordsAt(rs[1..], i - 1);
      assert Records(rs)[3 * i..3 * i + 3] == Records(rs[1..])[3 * (i - 1)..3 * (i - 1) + 3];
    }
  }

  // ---- the encoding ----

  /** `serialize`: nothing for no slots, the bare value byte when all
      slots form one run, the records of the runs otherwise. */
  function Encoding(blocks: seq<Slot>): (e: seq<Byte>)
    ensures e == [] <==> blocks == []
    ensures |e| == 1 || |e| % 3 == 0
    ensures |e| <= 3 * |blocks|
  {
    var rs := Runs(Values(blocks));
    if |rs| == 0 then []
    else if |rs| == 1 then [rs[0].value]
    else Records(rs)
  }

  // ---- the decoding ----

  /** The record loop of `deserialize` from the cursor on: while three
      bytes remain, read a big-endian count and a value byte and append
      that many slots; the value byte is checked only when the count is
      not zero. Zero bytes left is success, one or two is failure. */
  function DecodeRecords(data: seq<Byte>): (r: Option<seq<Slot>>)
    ensures r.Some? ==> |data| % 3 == 0
    decreases |data|
  {
    if |data| < 3 then (if |data| == 0 then Some([]) else None)
    else
      ThreeMore(|data| - 3);
      var count := U16FromBigEndian(data[0], data[1]);
      if count == 0 then DecodeRecords(data[3..])
      else match SlotOfByte(data[2])
        case None => None
        case Some(s) =>
          match DecodeRecords(data[3..])
          case None => None
          case Some(rest) => Some(Repeat(s, count) + rest)
  }

  lemma ThreeMore(n: nat)
    ensures (n + 3) % 3 == 0 <==> n % 3 == 0
  {
  }

  /** `deserialize`: a single byte fills the whole capacity of 32768 slots
      with its value; any other input is a sequence of records. */
  function Decoding(data: seq<Byte>): (r: Option<seq<Slot>>)
    ensures |data| == 1 ==> (r.Some? <==> data[0] < 5)
    ensures |data| == 1 && r.Some? ==> |r.value| == ChunkVolume
    ensures |data| != 1 && r.Some? ==> |data| % 3 == 0
  {
    if |data| == 1 then
      match SlotOfByte(data[0])
      case None => None
      case Some(s) => Some(Repeat(s, ChunkVolume))
    else DecodeRecords(data)
  }

  /** `prefix` before a successful result; failure stays failure. */
  function Prepend(prefix: seq<Slot>, r: Option<seq<Slot>>): Option<seq<Slot>> {
    match r
    case None => None
    case Some(s) => Some(prefix + s)
  }

  lemma SlotsAppend(a: seq<Byte>, b: seq<Byte>)
    ensures Slots(a + b) == Slots(a) + Slots(b)
  {
  }

  /** The slots of a run of a valid byte followed by more bytes. */
  lemma SlotsOfRun(v: Byte, n: nat, rest: seq<Byte>)
    requires v < 5
    ensures Slots(Repeat(v, n) + rest) == Repeat(SlotOfByte(v).value, n) + Slots(rest)
  {
    SlotsAppend(Repeat(v, n), rest);
    assert Slots(Repeat(v, n)) == Repeat(SlotOfByte(v).value, n);
  }

  /** One step of the record loop: a record with a 16-bit non-zero count
      and a valid value byte appends that many slots. */
  lemma DecodeRecordsStep(r: Run, tail: seq<Run>)
    requires 1 <= r.count <= 0xFFFF && r.value < 5
    ensures DecodeRecords(Records([r] + tail))
         == Prepend(Repeat(SlotOfByte(r.value).value, r.count), DecodeRecords(Records(tail)))
  {
    var data := Records([r] + tail);
    assert ([r] + tail)[1..] == tail;
    assert data == Record(r) + Records(tail);
    assert data[3..] == Records(tail);
    assert U16FromBigEndian(data[0], data[1]) == r.count;
  }

  /** Decoding the records of well-formed runs whose counts fit 16 bits
      gives the slots of their bytes. */
  lemma {:induction false} DecodeRecordsOfRuns(rs: seq<Run>)
    requires WellFormed(rs, 0xFFFF)
    ensures DecodeRecords(Records(rs)) == Some(Slots(Expand(rs)))
    decreases |rs|
  {
    if rs != [] {
      var r, tail := rs[0], rs[1..];
      assert rs == [r] + tail;
      assert WellFormed(tail, 0xFFFF);
      DecodeRecordsOfRuns(tail);
      DecodeRecordsStep(r, tail);
      SlotsOfRun(r.value, r.count, Expand(tail));
    }
  }

  /** The runs of a chunk's slots: well formed, one slot at least per
      run, and expanding them gives back the slots' value bytes. */
  lemma ChunkRuns(blocks: seq<Slot>)
    ensures Expand(Runs(Values(blocks))) == Values(blocks)
    ensures WellFormed(Runs(Values(blocks)), |blocks|)
    ensures TotalCount(Runs(Values(blocks))) == |blocks|
  {
    RunsExpand(Values(blocks));
    RunsWellFormed(Values(blocks));
    TotalCountIsLength(Runs(Values(blocks)));
  }

  // ---- properties of the codec ----

  /** `deserialize(serialize(c)) == Some(c)` for every chunk of 32768
      slots, through the one-byte form and through the records. */
  lemma RoundTrip(blocks: seq<Slot>)
    requires |blocks| == ChunkVolume
    ensures Decoding(Encoding(blocks)) == Some(blocks)
  {
    var vs := Values(blocks);
    var rs := Runs(vs);
    ChunkRuns(blocks);
    SlotsOfValues(blocks);
    if |rs| == 1 {
      var r := rs[0];
      assert Expand(rs) == Repeat(r.value, r.count) + Expand(rs[1..]);
      assert vs == Repeat(r.value, ChunkVolume);
      var s := SlotOfByte(r.value).value;
      assert Slots(vs) == Repeat(s, ChunkVolume);
    } else {
      assert WellFormed(rs, 0xFFFF);
      DecodeRecordsOfRuns(rs);
    }
  }

  /** A chunk that is one run encodes as its single value byte; the
      default, all-empty chunk encodes as `[0]`. */
  lemma UniformEncoding(s: Slot, n: nat)
    requires n > 0
    ensures Encoding(Repeat(s, n)) == [ValueByte(s)]
    ensures Encoding(Repeat(None, ChunkVolume)) == [0]
  {
    ChunkRuns(Repeat(s, n));
    ChunkRuns(Repeat(None, ChunkVolume));
    UniformRuns(Repeat(s, n));
    UniformRuns(Repeat(None, ChunkVolume));
  }

  /** Where the second run starts, the bytes change value. */
  lemma RunBoundary(rs: seq<Run>, bound: nat)
    requires |rs| > 1 && WellFormed(rs, bound)
    ensures |Expand(rs)| > rs[0].count
    ensures Expand(rs)[0] != Expand(rs)[rs[0].count]
  {
    assert Expand(rs) == Repeat(rs[0].value, rs[0].count) + Expand(rs[1..]);
    assert Expand(rs[1..]) == Repeat(rs[1].value, rs[1].count) + Expand(rs[2..]);
  }

  /** Equal slots form one run. */
  lemma UniformRuns(blocks: seq<Slot>)
    requires |blocks| > 0 && forall i :: 0 <= i < |blocks| ==> blocks[i] == blocks[0]
    ensures |Runs(Values(blocks))| == 1
  {
    var rs := Runs(Values(blocks));
    ChunkRuns(blocks);
    if |rs| > 1 {
      RunBoundary(rs, |blocks|);
      assert false;
    }
  }

  /** The count and value fields of record `i`. */
  lemma RecordFields(rs: seq<Run>, i: nat)
    requires i < |rs| && rs[i].count < 0x1_0000
    ensures U16FromBigEndian(Records(rs)[3 * i], Records(rs)[3 * i + 1]) == rs[i].count
    ensures Records(rs)[3 * i + 2] == rs[i].value
  {
    RecordsAt(rs, i);
    var data := Records(rs);
    assert data[3 * i..3 * i + 3][0] == data[3 * i];
    assert data[3 * i..3 * i + 3][1] == data[3 * i + 1];
    assert data[3 * i..3 * i + 3][2] == data[3 * i + 2];
  }

  /** A chunk of more than one run encodes as 3-byte records: every count
      is between 1 and 32768, so the `u16` cast keeps it; neighbouring
      records carry different value bytes; the counts add up to 32768. */
  lemma EncodingRecords(blocks: seq<Slot>, i: nat)
    requires |blocks| == ChunkVolume && |Runs(Values(blocks))| > 1
    requires i < |Runs(Values(blocks))|
    ensures var data, rs := Encoding(blocks), Runs(Values(blocks));
      && |data| == 3 * |rs|
      && U16FromBigEndian(data[3 * i], data[3 * i + 1]) == rs[i].count
      && 1 <= rs[i].count <= ChunkVolume
      && data[3 * i + 2] == rs[i].value
      && (i + 1 < |rs| ==> data[3 * i + 2] != data[3 * i + 5])
      && TotalCount(rs) == ChunkVolume
  {
    var rs := Runs(Values(blocks));
    assert Encoding(blocks) == Records(rs);
    ChunkRuns(blocks);
    RecordFields(rs, i);
    if i + 1 < |rs| {
      RecordFields(rs, i + 1);
    }
  }

  /** Records stop short of the end unless the length is a multiple of
      three: such input is rejected. */
  lemma {:induction false} DecodeRecordsRejectsLength(data: seq<Byte>)
    requires |data| % 3 != 0
    ensures DecodeRecords(data) == None
    decreases |data|
  {
    if |data| >= 3 {
      DecodeRecordsRejectsLength(data[3..]);
    }
  }

  /** `deserialize` rejects every input whose length is neither 1 nor a
      multiple of 3. */
  lemma DecodingRejectsLength(data: seq<Byte>)
    requires |data| != 1 && |data| % 3 != 0
    ensures Decoding(data) == None
  {
    DecodeRecordsRejectsLength(data);
  }

  /** A record with a non-zero count and a value byte of 5 or more makes
      the whole input fail. */
  lemma {:induction false} DecodeRecordsRejectsValue(data: seq<Byte>, i: nat)
    requires 3 * i + 3 <= |data|
    requires U16FromBigEndian(data[3 * i], data[3 * i + 1]) != 0 && data[3 * i + 2] >= 5
    ensures DecodeRecords(data) == None
    decreases i
  {
    if i > 0 {
      DecodeRecordsRejectsValue(data[3..], i - 1);
    }
  }

  /** `deserialize` rejects a bad value byte: the single byte of the
      one-byte form, or the value of any record with a non-zero count. */
  lemma DecodingRejectsValue(data: seq<Byte>, i: nat)
    requires |data| == 1 ==> data[0] >= 5
    requires |data| != 1 ==> 3 * i + 3 <= |data| && U16FromBigEndian(data[3 * i], data[3 * i + 1]) != 0 && data[3 * i + 2] >= 5
    ensures Decoding(data) == None
  {
    if |data| != 1 {
      DecodeRecordsRejectsValue(data, i);
    }
  }

  /** The value byte of a record with count zero is never looked at. */
  lemma ZeroCountIgnored(v: Byte, rest: seq<Byte>)
    ensures DecodeRecords([0, 0, v] + rest) == DecodeRecords(rest)
  {
    assert ([0, 0, v] + rest)[3..] == rest;
  }

  /** The decoded total is not checked: no bytes give a chunk of no slots,
      one record of count 1 a chunk of one slot, and a single valid byte
      always 32768 slots. */
  lemma DecodingDoesNotCheckTotal(v: Byte)
    requires v < 5
    ensures Decoding([]) == Some([])
    ensures Decoding([0, 1, 0]) == Some([None])
    ensures Decoding([v]).Some? && |Decoding([v]).value| == ChunkVolume
  {
    assert [0, 1, 0][3..] == [];
    assert Repeat<Slot>(None, 1) + [] == [None];
  }

  // ---- the chunk ----

  /** `ChunkData`: the slots of one chunk, `x` fastest, then `y`, then `z`. */
  class ChunkData {
    var blocks: seq<Slot>

    /** `Default`: all 32768 slots empty. */
    constructor Default()
      ensures blocks == Repeat(None, ChunkVolume)
    {
      blocks := Repeat(None, ChunkVolume);
    }

    /** The chunk `deserialize` starts from, with no slots yet. */
    constructor Empty()
      ensures blocks == []
    {
      blocks := [];
    }

    /** `index`: `x + 32y + 1024z`. */
    static function Index(x: nat, y: nat, z: nat): (i: nat)
      ensures InChunk((x, y, z)) ==> i < ChunkVolume
    {
      x + y * ChunkSize + z * ChunkSize * ChunkSize
    }

    /** `block`: the slot at `(x, y, z)` (Rust panics past the end). */
    function Block(x: nat, y: nat, z: nat): (s: Slot)
      reads this
      requires Index(x, y, z) < |blocks|
      ensures InChunk((x, y, z)) ==> s == blocks[ChunkIndexing.AsUsize(ChunkIndexing.New(x, y, z))]
    {
      if InChunk((x, y, z)) then
        IndexAgreesWithChunkIndex(x, y, z);
        blocks[Index(x, y, z)]
      else
        blocks[Index(x, y, z)]
    }

    /** `*block_mut(x, y, z) = s`: a write through the slot `block_mut`
        hands out; only that slot changes. */
    method SetBlock(x: nat, y: nat, z: nat, s: Slot)
      requires Index(x, y, z) < |blocks|
      modifies this
      ensures blocks == old(blocks)[Index(x, y, z) := s]
    {
      blocks := blocks[Index(x, y, z) := s];
    }

    /** `serialize`: one pass keeping the last value byte and its count;
        a change of value writes the finished run's record, and at the end
        the last run is written as a record, or as the bare value byte if
        no record was written before it. */
    method Serialize() returns (data: seq<Byte>)
      ensures data == Encoding(blocks)
    {
      data := [];
      var last: Option<Byte> := None;
      var count := 0;
      var i := 0;
      while i < |blocks|
        invariant 0 <= i <= |blocks|
        invariant SerializeState(Runs(Values(blocks)[..i]), last, count, data)
      {
        var blockType := ValueByte(blocks[i]);
        SerializeStep(Values(blocks), i, last, count, data);
        if last == Some(blockType) {
          count := count + 1;
        } else {
          if last.Some? {
            data := data + U16BigEndian(count) + [last.value];
          }
          last := Some(blockType);
          count := 1;
        }
        i := i + 1;
      }
      assert Values(blocks)[..i] == Values(blocks);
      SerializeFinish(blocks, last, count, data);
      if last.Some? {
        if data == [] {
          data := data + [last.value];
        } else {
          data := data + U16BigEndian(count) + [last.value];
        }
      }
    }

    /** `deserialize`: a cursor over the bytes; the one-byte form fills the
        capacity with one slot, then records are read while three bytes
        remain, and the input is accepted only if the cursor ends exactly
        at the end. */
    static method Deserialize(data: seq<Byte>) returns (r: Option<ChunkData>)
      ensures Decoding(data).None? ==> r.None?
      ensures Decoding(data).Some? ==> r.Some? && fresh(r.value) && r.value.blocks == Decoding(data).value
    {
      var pos := 0;
      var chunk := new ChunkData.Empty();
      if |data| == 1 {
        ghost var slot := SlotOfByte(data[0]);
        var k := 0;
        while k < ChunkVolume
          invariant 0 <= k <= ChunkVolume
          invariant slot.Some? ==> chunk.blocks == Repeat(slot.value, k)
          invariant slot.None? ==> k == 0
          invariant fresh(chunk)
        {
          if data[0] == 0 {
            chunk.blocks := chunk.blocks + [None];
          } else {
            var b := FromCode(data[0] - 1);
            if b.None? {
              return None;
            }
            chunk.blocks := chunk.blocks + [Some(b.value)];
          }
          k := k + 1;
        }
        pos := 1;
        assert data[pos..] == [];
        assert chunk.blocks + [] == chunk.blocks;
      } else {
        assert data[pos..] == data;
        assert [] + Decoding(data).GetOr([]) == Decoding(data).GetOr([]);
      }
      while pos + 2 < |data|
        invariant 0 <= pos <= |data|
        invariant fresh(chunk)
        invariant Decoding(data) == Prepend(chunk.blocks, DecodeRecords(data[pos..]))
        decreases |data| - pos
      {
        var count := U16FromBigEndian(data[pos], data[pos + 1]);
        ghost var start, slot := chunk.blocks, SlotOfByte(data[pos + 2]);
        RecordStep(data, pos, start);
        pos := pos + 2;
        var k := 0;
        while k < count
          invariant 0 <= k <= count
          invariant slot.Some? ==> chunk.blocks == start + Repeat(slot.value, k)
          invariant slot.None? ==> k == 0 && chunk.blocks == start
        {
          var byte := data[pos];
          if byte == 0 {
            chunk.blocks := chunk.blocks + [None];
          } else {
            var b := FromCode(byte - 1);
            if b.None? {
              return None;
            }
            chunk.blocks := chunk.blocks + [Some(b.value)];
          }
          k := k + 1;
        }
        assert count == 0 ==> chunk.blocks == start;
        pos := pos + 1;
      }
      if pos == |data| {
        r := Some(chunk);
      } else {
        r := None;
      }
    }
  }

  /** What `serialize` holds after reading the bytes whose runs are
      `rs`: the last run's value and count, and the records of all the
      runs before it. */
  ghost predicate SerializeState(rs: seq<Run>, last: Option<Byte>, count: int, data: seq<Byte>) {
    if rs == [] then last == None && data == []
    else last == Some(rs[|rs| - 1].value) && count == rs[|rs| - 1].count && data == Records(rs[..|rs| - 1])
  }

  /** How the runs grow by one byte: the byte extends the last run when
      it carries the same value, and starts a run of one otherwise. */
  lemma RunsSnoc(vs: seq<Byte>, i: nat)
    requires i < |vs|
    ensures var rs := Runs(vs[..i]);
      Runs(vs[..i + 1]) ==
        if rs != [] && rs[|rs| - 1].value == vs[i] then rs[..|rs| - 1] + [Run(rs[|rs| - 1].count + 1, vs[i])]
        else rs + [Run(1, vs[i])]
  {
    var w := vs[..i + 1];
    assert w != [] && w[..|w| - 1] == vs[..i] && w[|w| - 1] == vs[i];
  }

  /** One pass of the loop of `serialize` keeps `SerializeState`. */
  lemma SerializeStep(vs: seq<Byte>, i: nat, last: Option<Byte>, count: int, data: seq<Byte>)
    requires i < |vs| && SerializeState(Runs(vs[..i]), last, count, data)
    ensures last == Some(vs[i]) ==> SerializeState(Runs(vs[..i + 1]), last, count + 1, data)
    ensures last != Some(vs[i]) ==>
      SerializeState(Runs(vs[..i + 1]), Some(vs[i]), 1,
                     if last.Some? then data + U16BigEndian(count) + [last.value] else data)
  {
    RunsSnoc(vs, i);
    var rs := Runs(vs[..i]);
    if last == Some(vs[i]) {
      SerializeExtends(rs, vs[i], count, data);
    } else if last.Some? {
      SerializeCloses(rs, vs[i], count, data);
    } else {
      assert rs == [];
      assert ([] + [Run(1, vs[i])])[..0] == [];
    }
  }

  /** A byte equal to the last run's value only counts it. */
  lemma SerializeExtends(rs: seq<Run>, v: Byte, count: int, data: seq<Byte>)
    requires SerializeState(rs, Some(v), count, data)
    ensures SerializeState(rs[..|rs| - 1] + [Run(rs[|rs| - 1].count + 1, v)], Some(v), count + 1, data)
  {
    var rs' := rs[..|rs| - 1] + [Run(rs[|rs| - 1].count + 1, v)];
    assert rs'[..|rs'| - 1] == rs[..|rs| - 1];
  }

  /** A byte of another value writes the last run's record and starts a
      run of one. */
  lemma SerializeCloses(rs: seq<Run>, v: Byte, count: int, data: seq<Byte>)
    requires rs != [] && rs[|rs| - 1].value != v
    requires SerializeState(rs, Some(rs[|rs| - 1].value), count, data)
    ensures SerializeState(rs + [Run(1, v)], Some(v), 1, data + U16BigEndian(count) + [rs[|rs| - 1].value])
  {
    var rs' := rs + [Run(1, v)];
    assert rs'[..|rs'| - 1] == rs;
    assert rs == rs[..|rs| - 1] + [rs[|rs| - 1]];
    RecordsSnoc(rs[..|rs| - 1], rs[|rs| - 1]);
  }

  /** After the loop of `serialize`, writing the last run (as a record,
      or as the bare byte if it is the only run) gives the encoding. */
  lemma SerializeFinish(blocks: seq<Slot>, last: Option<Byte>, count: int, data: seq<Byte>)
    requires SerializeState(Runs(Values(blocks)), last, count, data)
    ensures Encoding(blocks) ==
      if last.None? then data
      else if data == [] then data + [last.value]
      else data + U16BigEndian(count) + [last.value]
  {
    var rs := Runs(Values(blocks));
    if rs != [] {
      assert rs == rs[..|rs| - 1] + [rs[|rs| - 1]];
      RecordsSnoc(rs[..|rs| - 1], rs[|rs| - 1]);
    }
  }

  /** One pass of the record loop of `deserialize`, starting at `pos`
      with the slots `start` decoded so far. */
  lemma RecordStep(data: seq<Byte>, pos: nat, start: seq<Slot>)
    requires pos + 2 < |data|
    ensures var count, slot, rest := U16FromBigEndian(data[pos], data[pos + 1]), SlotOfByte(data[pos + 2]), DecodeRecords(data[pos + 3..]);
      Prepend(start, DecodeRecords(data[pos..])) ==
        if count == 0 then Prepend(start, rest)
        else if slot.None? then None
        else Prepend(start + Repeat(slot.value, count), rest)
  {
    assert data[pos..][3..] == data[pos + 3..];
    var rest := DecodeRecords(data[pos + 3..]);
    if rest.Some? {
      var s := SlotOfByte(data[pos + 2]);
      if s.Some? {
        ConcatAssoc(start, Repeat(s.value, U16FromBigEndian(data[pos], data[pos + 1])), rest.value);
      }
    }
  }

  // ---- addressing ----

  /** `index` lies inside the chunk for every cell of it, and distinct
      cells have distinct indices. */
  lemma IndexInjective(x: nat, y: nat, z: nat, x': nat, y': nat, z': nat)
    requires InChunk((x, y, z)) && InChunk((x', y', z'))
    ensures ChunkData.Index(x, y, z) < ChunkVolume
    ensures ChunkData.Index(x, y, z) == ChunkData.Index(x', y', z') <==> (x, y, z) == (x', y', z')
  {
    ChunkIndexing.NewInjective(x, y, z, x', y', z');
  }

  /** `block_mut` writes the slot `block` reads, and no other: after a
      write at one cell, reading that cell gives the new slot and reading
      any other cell gives what was there. */
  lemma WriteThenRead(blocks: seq<Slot>, x: nat, y: nat, z: nat, s: Slot, x': nat, y': nat, z': nat)
    requires |blocks| == ChunkVolume && InChunk((x, y, z)) && InChunk((x', y', z'))
    ensures var after := blocks[ChunkData.Index(x, y, z) := s];
      after[ChunkData.Index(x', y', z')] ==
        if (x, y, z) == (x', y', z') then s else blocks[ChunkData.Index(x', y', z')]
  {
    IndexInjective(x, y, z, x', y', z');
    IndexInjective(x', y', z', x', y', z');
  }

  /** `ChunkIndex::new(x, y, z).as_usize()` and `ChunkData::index(x, y,
      z)` agree on every cell of the chunk. */
  lemma IndexAgreesWithChunkIndex(x: nat, y: nat, z: nat)
    requires InChunk((x, y, z))
    ensures ChunkIndexing.AsUsize(ChunkIndexing.New(x, y, z)) == ChunkData.Index(x, y, z)
  {
  }

  /** Storage runs x fastest while `iter_blocks` runs z fastest: the
      second cell `iter_blocks` yields is stored at index 1024. */
  lemma StorageOrderDiffersFromIteration()
    ensures IterBlocks()[1] == (0, 0, 1)
    ensures ChunkData.Index(0, 0, 1) == 1024
  {
    IterBlocksAt(1);
  }
}
