/** Ranges a source declares, written as chunk indexes and read back as ranges: their one coalesced form (mkfs.go, writer.go, erofs.go). */
module RangeBack {
  import opened Arith
  import opened Bytes
  import opened BlockMap
  import opened DataReader
  import opened Chunks
  import opened CopyFile
  import opened CopyBack
  import opened Ranges
  import opened RangeMap

  // ---- Renumbering ----

  function Renumbered(r: DataRange, id: nat): DataRange {
    if IsHoleRange(r) then DataRange(0, HOLE_OFFSET, r.size) else DataRange(r.dev + id, r.off, r.size)
  }

  /** The ranges with the source's device under its id in the destination. */
  function Renumber(rs: seq<DataRange>, id: nat): seq<DataRange> {
    if rs == [] then [] else [Renumbered(rs[0], id)] + Renumber(rs[1..], id)
  }

  function MoveSpot(s: Spot, id: nat): Spot {
    if s.On? then On(s.dev + id, s.off) else s
  }

  lemma {:induction false} RenumberMeans(rs: seq<DataRange>, id: nat, p: nat)
    requires Proper(rs)
    ensures Proper(Renumber(rs, id)) && PlainHoles(Renumber(rs, id)) && Sum(Renumber(rs, id)) == Sum(rs)
    ensures SpotAt(Renumber(rs, id), p) == MoveSpot(SpotAt(rs, p), id)
  {
    if rs != [] {
      RenumberMeans(rs[1..], id, if p < rs[0].size then 0 else p - rs[0].size);
      assert Renumber(rs, id)[1..] == Renumber(rs[1..], id);
    }
  }

  lemma {:induction false} CoalescePlain(rs: seq<DataRange>)
    requires PlainHoles(rs)
    ensures PlainHoles(Coalesce(rs))
  {
    if rs != [] {
      CoalescePlain(rs[..|rs| - 1]);
    }
  }

  // ---- Bounds ----

  /** Every data range lies on the source's one device, of len bytes. */
  predicate InBounds(rs: seq<DataRange>, len: nat) {
    forall i :: 0 <= i < |rs| && !IsHoleRange(rs[i]) ==> rs[i].dev == 0 && rs[i].off + rs[i].size <= len
  }

  lemma {:induction false} SpotInBounds(rs: seq<DataRange>, len: nat, p: nat)
    requires InBounds(rs, len) && SpotAt(rs, p).On?
    ensures SpotAt(rs, p).dev == 0 && SpotAt(rs, p).off < len
  {
    if rs != [] && p >= rs[0].size {
      SpotInBounds(rs[1..], len, p - rs[0].size);
    }
  }

  // ---- The destination ----

  /** A file of the destination written from the source's ranges, the source being its device copyId. */
  ghost predicate WrittenRanges(ranges: seq<DataRange>, cs: seq<Chunk>, out: seq<Chunk>, dst: Image, copyId: nat, copy: Inode) {
    && WellFormed(dst) && 0 < copyId <= |dst.devices| && (forall i :: 0 <= i < |dst.devices| ==> dst.devices[i].mapped == 0)
    && copy.layout.ChunkBased? && copy.layout.indexed && !copy.layout.wide && copy.size > 0 && dst.bs * Pow2(copy.layout.bits) > 0
    && Proper(ranges) && Sum(ranges) == copy.size && RunsMatch(cs, ranges, dst.bs, copy.size, 1)
    && MovedRuns(cs, out, copyId - 1) && WithinLimits(out, |dst.devices|)
    && (copy.layout.bits == 0 || (|ranges| == 1 && !IsHoleRange(ranges[0])))
    && HoldsMap(dst, copy, out, CeilDiv(copy.size, dst.bs * Pow2(copy.layout.bits)))
    && InBounds(ranges, |DeviceBytes(dst, copyId)|)
  }

  /** One data range is one run, through any splitting of its blocks. */
  lemma SingleRange(r: DataRange, cs: seq<Chunk>, bs: nat, n: nat)
    requires bs > 0 && r.size > 0 && r.off >= 0 && RunsMatch(cs, [r], bs, r.size, 1) && n == CeilDiv(r.size, bs)
    ensures OneRun(cs, n)
  {
    hide TargetOf, CeilDiv;
    CeilIndex(r.size, bs, 0);
    RunBlock(r, cs, bs, 0);
    forall b: nat | b < n ensures TargetOf(cs, b) == Shift(TargetOf(cs, 0), b) {
      CeilIndex(r.size, bs, b);
      RunBlock(r, cs, bs, b);
      SameBlocks(TargetOf(cs, 0).blk, TargetOf(cs, b).blk, b, bs);
    }
  }

  lemma RunBlock(r: DataRange, cs: seq<Chunk>, bs: nat, b: nat)
    requires bs > 0 && r.size > 0 && r.off >= 0 && RunsMatch(cs, [r], bs, r.size, 1) && b * bs < r.size
    ensures var t := TargetOf(cs, b); t.At? && t.dev >= 1 && t.dev - 1 == r.dev && t.blk * bs == r.off + b * bs
  {
    hide TargetOf;
    var p := b * bs;
    DivUnique(p, bs, b, 0);
    SpotSingle(r, p);
    assert Agrees(TargetOf(cs, Div(p, bs)), SpotAt([r], p), bs, Mod(p, bs), 1);
  }

  lemma SameBlocks(x: nat, y: nat, b: nat, bs: nat)
    requires bs > 0 && y * bs == x * bs + b * bs
    ensures y == x + b
  {
    assert (x + b) * bs == y * bs;
    DivUnique(y * bs, bs, y, 0);
    DivUnique(y * bs, bs, x + b, 0);
  }

  lemma {:induction false} MovedOneRun(cs: seq<Chunk>, out: seq<Chunk>, delta: nat, n: nat)
    requires MovedRuns(cs, out, delta) && OneRun(cs, n)
    ensures OneRun(out, n)
  {
    hide TargetOf;
    MovedTarget(cs, out, delta, 0);
    forall b: nat | b < n ensures TargetOf(out, b) == Shift(TargetOf(out, 0), b) {
      MovedTarget(cs, out, delta, b);
    }
  }

  /** The block read back for a position is its run's, on the source's device. */
  lemma BackTarget(ranges: seq<DataRange>, cs: seq<Chunk>, out: seq<Chunk>, dst: Image, copyId: nat, copy: Inode, bn: nat)
    requires WrittenRanges(ranges, cs, out, dst, copyId, copy) && bn < CeilDiv(copy.size, dst.bs)
    ensures BlockTarget(dst, copy, bn) == Ok(Moved(TargetOf(cs, bn), copyId - 1))
    ensures copy.layout.bits == 0 || OneRun(out, CeilDiv(copy.size, dst.bs))
  {
    hide WellFormed, TargetOf, CeilDiv, Pow2, HoldsMap, MapFits, InBounds, WithinLimits, MovedRuns, BlockTarget, RunsMatch, OneRun, Sum;
    if copy.layout.bits != 0 {
      assert ranges == [ranges[0]];
      SpotSingle(ranges[0], 0);
      SingleRange(ranges[0], cs, dst.bs, CeilDiv(copy.size, dst.bs));
      MovedOneRun(cs, out, copyId - 1, CeilDiv(copy.size, dst.bs));
    }
    TargetReadsBack(dst, copy, out, bn);
    MovedTarget(cs, out, copyId - 1, bn);
  }

  /** Every position is read where the source declared it. */
  lemma BackPlace(ranges: seq<DataRange>, cs: seq<Chunk>, out: seq<Chunk>, dst: Image, copyId: nat, copy: Inode, p: nat)
    requires WrittenRanges(ranges, cs, out, dst, copyId, copy) && p < copy.size
    ensures PlaceOf(dst, copy, p) == SpotAt(Renumber(ranges, copyId), p) && !SpotAt(ranges, p).Past?
    ensures var t := BlockTarget(dst, copy, Div(p, dst.bs)); t.Ok? && (t.value.At? ==> t.value.dev > 0)
  {
    hide WellFormed, TargetOf, CeilDiv, Pow2, HoldsMap, MapFits, InBounds, WithinLimits, MovedRuns, BlockTarget, SpotAt, Sum, Proper;
    var bn := Div(p, dst.bs);
    DivMod(p, dst.bs);
    CeilIndex(copy.size, dst.bs, bn);
    BackTarget(ranges, cs, out, dst, copyId, copy, bn);
    RenumberMeans(ranges, copyId, p);
    assert Agrees(TargetOf(cs, bn), SpotAt(ranges, p), dst.bs, Mod(p, dst.bs), 1);
  }

  /** The source's ranges, renumbered and coalesced, are the layout of the file read back. */
  lemma CoalescedLayout(ranges: seq<DataRange>, cs: seq<Chunk>, out: seq<Chunk>, dst: Image, copyId: nat, copy: Inode)
    requires dst.bs > 0 && WrittenRanges(ranges, cs, out, dst, copyId, copy)
    ensures IsLayout(dst, copy, Coalesce(Renumber(ranges, copyId)))
  {
    hide WellFormed, TargetOf, CeilDiv, Pow2, HoldsMap, MapFits, InBounds, WithinLimits, MovedRuns, SpotAt, Sum, Proper, PlaceOf,
         Normal, PlainHoles, RunsMatch, Renumber;
    var rs := Renumber(ranges, copyId);
    RenumberMeans(ranges, copyId, 0);
    CoalesceMeans(rs, 0);
    CoalescePlain(rs);
    forall p: nat | p < copy.size ensures SpotAt(Coalesce(rs), p) == PlaceOf(dst, copy, p) {
      CoalesceMeans(rs, p);
      BackPlace(ranges, cs, out, dst, copyId, copy, p);
    }
  }

  lemma LastByte(i: nat, size: nat, bs: nat, bpc: nat)
    requires bs > 0 && bpc > 0 && i * (bs * bpc) < size && bs * bpc > 0
    ensures var n := ChunkLen(size, bs * bpc, i);
            && n > 0
            && var p := i * (bs * bpc) + n - 1;
               p < size && Div(Div(p, bs), bpc) == i && Addr(Mod(Div(p, bs), bpc), bs, Mod(p, bs)) == n - 1
  {
    var n := ChunkLen(size, bs * bpc, i);
    WithinChunk(i, n - 1, bs, bpc);
  }

  lemma WithinChunk(i: nat, k: nat, bs: nat, bpc: nat)
    requires bs > 0 && bpc > 0 && k < bs * bpc
    ensures var p := i * (bs * bpc) + k; Div(Div(p, bs), bpc) == i && Addr(Mod(Div(p, bs), bpc), bs, Mod(p, bs)) == k
  {
    hide Div, Mod;
    var p := i * (bs * bpc) + k;
    DivMod(p, bs);
    ChunkOffset(p, Div(p, bs), bs, bpc);
    DivIs(p, bs * bpc, i, k);
  }

  lemma DivIs(p: nat, d: nat, q: nat, r: nat)
    requires d > 0 && p == q * d + r && r < d
    ensures Div(p, d) == q
  {
    DivUnique(p, d, q, r);
  }

  /** Each chunk's last byte is in bounds, so the chunk is. */
  lemma BackRangeOk(ranges: seq<DataRange>, cs: seq<Chunk>, out: seq<Chunk>, dst: Image, copyId: nat, copy: Inode, i: nat)
    requires dst.bs > 0 && copy.layout.ChunkBased? && WrittenRanges(ranges, cs, out, dst, copyId, copy)
    requires dst.bs * Pow2(copy.layout.bits) > 0 && i < CeilDiv(copy.size, dst.bs * Pow2(copy.layout.bits))
    ensures ChunkRange(dst, copy, i).Ok?
  {
    hide *;
    var bs, bpc := dst.bs, Pow2(copy.layout.bits);
    Parts(ranges, cs, out, dst, copyId, copy);
    CeilIndex(copy.size, bs * bpc, i);
    LastByte(i, copy.size, bs, bpc);
    var n := ChunkLen(copy.size, bs * bpc, i);
    var p := i * (bs * bpc) + n - 1;
    var s := SpotAt(ranges, p);
    if s.On? {
      SpotInBounds(ranges, |DeviceBytes(dst, copyId)|, p);
    }
    BackPlace(ranges, cs, out, dst, copyId, copy, p);
    RenumberMeans(ranges, copyId, p);
    DevBounded(dst, copyId);
    PlacedInBounds(dst, copy, i, p, n, copyId, s);
  }

  lemma Parts(ranges: seq<DataRange>, cs: seq<Chunk>, out: seq<Chunk>, dst: Image, copyId: nat, copy: Inode)
    requires WrittenRanges(ranges, cs, out, dst, copyId, copy)
    ensures Proper(ranges) && InBounds(ranges, |DeviceBytes(dst, copyId)|) && WellFormed(dst) && 0 < copyId <= |dst.devices|
    ensures copy.layout.ChunkBased? && !copy.layout.wide && dst.bs * Pow2(copy.layout.bits) > 0 && Pow2(copy.layout.bits) > 0
    ensures copy.size > 0 && copy.layout.indexed && HoldsMap(dst, copy, out, CeilDiv(copy.size, dst.bs * Pow2(copy.layout.bits)))
  {
    hide Proper, InBounds, WellFormed, HoldsMap, RunsMatch, MovedRuns, WithinLimits, CeilDiv, Sum;
  }

  lemma DevBounded(dst: Image, copyId: nat)
    requires WellFormed(dst) && 0 < copyId <= |dst.devices|
    ensures |DeviceBytes(dst, copyId)| <= MAX_INT64
  {
  }

  lemma PlacedInBounds(dst: Image, copy: Inode, i: nat, p: nat, n: nat, id: nat, s: Spot)
    requires dst.bs > 0 && 0 < id <= |dst.devices| && copy.layout.ChunkBased? && !copy.layout.wide && Pow2(copy.layout.bits) > 0
    requires n == ChunkLen(copy.size, dst.bs * Pow2(copy.layout.bits), i) > 0 && |DeviceBytes(dst, id)| <= MAX_INT64
    requires var bn, bpc := Div(p, dst.bs), Pow2(copy.layout.bits);
             Div(bn, bpc) == i && Addr(Mod(bn, bpc), dst.bs, Mod(p, dst.bs)) == n - 1
    requires s.On? ==> s.dev == 0 && s.off < |DeviceBytes(dst, id)|
    requires PlaceOf(dst, copy, p) == MoveSpot(s, id) && !s.Past?
    requires var t := BlockTarget(dst, copy, Div(p, dst.bs)); t.Ok? && (t.value.At? ==> t.value.dev > 0)
    ensures ChunkRange(dst, copy, i).Ok?
  {
    hide *;
    EntryPlaced(dst, copy, p, id, s);
    var bn, bpc := Div(p, dst.bs), Pow2(copy.layout.bits);
    var c := ChunkEntry(dst, copy, i);
    if c.value.At? {
      AddrInto(c.value.blk, Mod(bn, bpc), dst.bs, Mod(p, dst.bs));
    }
    EntryInBounds(dst, copy, i, n, id);
  }

  lemma EntryPlaced(dst: Image, copy: Inode, p: nat, id: nat, s: Spot)
    requires dst.bs > 0 && copy.layout.ChunkBased? && !copy.layout.wide && Pow2(copy.layout.bits) > 0
    requires s.On? ==> s.dev == 0
    requires PlaceOf(dst, copy, p) == MoveSpot(s, id) && !s.Past?
    requires var t := BlockTarget(dst, copy, Div(p, dst.bs)); t.Ok? && (t.value.At? ==> t.value.dev > 0)
    ensures var bn, bpc := Div(p, dst.bs), Pow2(copy.layout.bits);
            var c := ChunkEntry(dst, copy, Div(bn, bpc));
            c.Ok? && (c.value.At? ==> c.value.dev == id && s == On(0, Addr(c.value.blk + Mod(bn, bpc), dst.bs, Mod(p, dst.bs))))
  {
    hide ChunkEntry, Pow2, Div, Mod, MappedDevice;
  }

  lemma EntryInBounds(dst: Image, copy: Inode, i: nat, n: nat, id: nat)
    requires dst.bs > 0 && 0 < id <= |dst.devices| && copy.layout.ChunkBased? && |DeviceBytes(dst, id)| <= MAX_INT64
    requires n == ChunkLen(copy.size, dst.bs * Pow2(copy.layout.bits), i) > 0
    requires var c := ChunkEntry(dst, copy, i);
             c.Ok? && (c.value.At? ==> c.value.dev == id && c.value.blk * dst.bs + n - 1 < |DeviceBytes(dst, id)|)
    ensures ChunkRange(dst, copy, i).Ok?
  {
    hide ChunkEntry, Pow2, MappedDevice, ChunkLen, BlockAddr;
    var c := ChunkEntry(dst, copy, i).value;
    if c.At? {
      AddrOk(dst, c.blk);
    }
  }

  lemma AddrOk(img: Image, blk: nat)
    requires img.bs > 0 && blk * img.bs <= MAX_INT64
    ensures BlockAddr(img, blk) == Ok(blk * img.bs)
  {
    var q: nat := MAX_INT64 / img.bs;
    assert (q + 1) * img.bs > MAX_INT64;
    MulCancel(blk, q + 1, img.bs);
  }

  /** The bytes an inode's index map takes. */
  function MapBytes(bs: nat, ino: Inode): nat
    requires bs > 0 && ino.layout.ChunkBased? && bs * Pow2(ino.layout.bits) > 0
  {
    CeilDiv(ino.size, bs * Pow2(ino.layout.bits)) * CHUNK_INDEX
  }

  /** A map that is there is refused by Stat for its size alone. */
  lemma HeldStatable(dst: Image, copy: Inode, ranges: seq<DataRange>, cs: seq<Chunk>, out: seq<Chunk>, copyId: nat)
    requires dst.bs > 0 && WrittenRanges(ranges, cs, out, dst, copyId, copy)
    ensures copy.layout.ChunkBased? && dst.bs * Pow2(copy.layout.bits) > 0
    ensures Statable(dst, copy) <==> MapBytes(dst.bs, copy) <= MAX_CHUNK_INDEX_BYTES
  {
    hide *;
    Parts(ranges, cs, out, dst, copyId, copy);
    forall i: nat | i < CeilDiv(copy.size, dst.bs * Pow2(copy.layout.bits)) ensures ChunkRange(dst, copy, i).Ok? {
      BackRangeOk(ranges, cs, out, dst, copyId, copy, i);
    }
    HeldFits(dst, copy, out, CeilDiv(copy.size, dst.bs * Pow2(copy.layout.bits)));
  }

  lemma HeldFits(dst: Image, copy: Inode, out: seq<Chunk>, n: nat)
    requires dst.bs > 0 && copy.layout.ChunkBased? && copy.layout.indexed && !copy.layout.wide && dst.bs * Pow2(copy.layout.bits) > 0
    requires n == CeilDiv(copy.size, dst.bs * Pow2(copy.layout.bits)) && HoldsMap(dst, copy, out, n)
    requires forall i: nat :: i < n ==> ChunkRange(dst, copy, i).Ok?
    ensures Statable(dst, copy) <==> MapBytes(dst.bs, copy) <= MAX_CHUNK_INDEX_BYTES
  {
    hide ChunkRange, IndexMap, CeilDiv, Pow2;
  }

  /** A source's ranges, written as chunk indexes and read back, are their one maximal coalescing with the device renumbered, exactly where the map is not too large to be read. */
  method ReadBack(dst: Image, copy: Inode, ghost ranges: seq<DataRange>, ghost cs: seq<Chunk>, ghost out: seq<Chunk>, ghost copyId: nat)
    returns (r: Result<seq<DataRange>>)
    requires dst.bs > 0 && WrittenRanges(ranges, cs, out, dst, copyId, copy)
    ensures copy.layout.ChunkBased? && dst.bs * Pow2(copy.layout.bits) > 0
    ensures if MapBytes(dst.bs, copy) <= MAX_CHUNK_INDEX_BYTES then r == Ok(Coalesce(Renumber(ranges, copyId))) else r.Err?
  {
    hide *;
    Parts(ranges, cs, out, dst, copyId, copy);
    HeldStatable(dst, copy, ranges, cs, out, copyId);
    r := BuildChunkDataRanges(dst, copy);
    if r.Ok? {
      CoalescedLayout(ranges, cs, out, dst, copyId, copy);
      LayoutUnique(dst, copy, r.value, Coalesce(Renumber(ranges, copyId)));
    }
  }

  // ---- The pipeline ----

  datatype WrittenMap = WrittenMap(size: nat, bits: nat, indexes: seq<byte>)

  function MapInode(w: WrittenMap, head: nat): Inode {
    Inode(ChunkBased(w.bits, true, false), w.size, 0, false, head)
  }

  /** A destination with the written map past its inode and the source as device copyId. */
  ghost predicate HoldsRanges(dst: Image, bs: nat, copyId: nat, devices: nat, w: WrittenMap, head: nat) {
    && WellFormed(dst) && dst.bs == bs > 0 && |dst.devices| == devices && 0 < copyId <= devices
    && (forall i :: 0 <= i < |dst.devices| ==> dst.devices[i].mapped == 0)
    && AlignUp(head, 8) + |w.indexes| <= |dst.bytes|
    && dst.bytes[AlignUp(head, 8)..AlignUp(head, 8) + |w.indexes|] == w.indexes
  }

  lemma SumPositive(rs: seq<DataRange>)
    requires Proper(rs) && |rs| > 0
    ensures Sum(rs) > 0
  {
    assert rs[0].size > 0;
    SumNonNegative(rs[1..]);
  }

  lemma {:induction false} SumNonNegative(rs: seq<DataRange>)
    requires Proper(rs)
    ensures Sum(rs) >= 0
  {
    if rs != [] {
      SumNonNegative(rs[1..]);
    }
  }

  lemma HeldRanges(ranges: seq<DataRange>, cs: seq<Chunk>, out: seq<Chunk>, dst: Image, bs: nat, copyId: nat, devices: nat, w: WrittenMap, head: nat)
    requires HoldsRanges(dst, bs, copyId, devices, w, head) && InBounds(ranges, |DeviceBytes(dst, copyId)|)
    requires bs * Pow2(w.bits) > 0 && w.size > 0
    requires Proper(ranges) && Sum(ranges) == w.size && RunsMatch(cs, ranges, bs, w.size, 1)
    requires MovedRuns(cs, out, copyId - 1) && WithinLimits(out, devices)
    requires w.bits == 0 || (|ranges| == 1 && !IsHoleRange(ranges[0]))
    requires w.indexes == IndexMap(out, Pow2(w.bits), CeilDiv(w.size, bs * Pow2(w.bits)))
    ensures WrittenRanges(ranges, cs, out, dst, copyId, MapInode(w, head))
  {
    hide WellFormed, InBounds, Proper, Sum, RunsMatch, MovedRuns, WithinLimits, IndexMap, CeilDiv, Pow2, DeviceBytes, AlignUp;
  }

  /** The map written for the ranges is one Stat can read: one index or two for a single data range, else an index a block. */
  predicate SmallMap(ranges: seq<DataRange>, fileSize: int, bs: nat)
    requires bs > 0 && fileSize >= 0
  {
    (|ranges| == 1 && !IsHoleRange(ranges[0])) || CeilDiv(fileSize, bs) * CHUNK_INDEX <= MAX_CHUNK_INDEX_BYTES
  }

  /** The size of the map written, against the limit. */
  lemma MapSized(ranges: seq<DataRange>, fileSize: nat, bs: nat, bits: nat, copyId: nat, devices: nat)
    requires bs > 0 && 0 < copyId && fileSize > 0 && bs * Pow2(bits) > 0 && Sum(ranges) == fileSize
    requires RangesFit(ranges, bs, copyId - 1, devices)
    requires if |ranges| == 1 && !IsHoleRange(ranges[0]) then bits <= 31 && (bits < 31 ==> bs * Pow2(bits) >= fileSize) else bits == 0
    ensures CeilDiv(fileSize, bs * Pow2(bits)) * CHUNK_INDEX <= MAX_CHUNK_INDEX_BYTES <==> SmallMap(ranges, fileSize, bs)
  {
    hide Pow2, CeilDiv;
    if |ranges| == 1 && !IsHoleRange(ranges[0]) {
      assert ranges[1..] == [];
      assert fileSize == ranges[0].size;
      assert RangeFits(ranges[0], bs, copyId - 1, devices);
      if bits == 31 {
        TwoChunks(fileSize, bs);
      } else {
        CeilUnique(fileSize, bs * Pow2(bits), 1);
      }
    } else {
      PowZero();
    }
  }

  /** What 32-bit block addresses reach is at most two of the largest chunks. */
  lemma TwoChunks(size: nat, bs: nat)
    requires bs > 0 && size > 0 && CeilDiv(size, bs) <= NULL_ADDR && bs * Pow2(31) > 0
    ensures CeilDiv(size, bs * Pow2(31)) <= 2
  {
    hide Pow2, CeilDiv;
    CeilBounds(size, bs);
    MulMono(CeilDiv(size, bs), NULL_ADDR, bs);
    Pow2Is31();
    assert 2 * (bs * Pow2(31)) == 0x1_0000_0000 * bs;
    CeilIndex(size, bs * Pow2(31), 2);
  }

  /** Convert, remap, check and serialise: refused exactly where the ranges cannot be stated or the destination cannot name them, else read back from any destination that holds the map as the ranges' one coalesced form. */
  method RangesToIndexes(ranges: seq<DataRange>, fileSize: int, bs: nat, copyId: nat, devices: nat) returns (r: Result<WrittenMap>)
    requires bs > 0 && Int64s(ranges) && |ranges| > 0 && 0 < copyId && devices <= 0xFFFF
    ensures r.Ok? <==> Accepts(ranges, fileSize, bs) && RangesFit(ranges, bs, copyId - 1, devices)
    ensures r.Ok? ==> r.value.size == fileSize > 0 && (|r.value.indexes| <= MAX_CHUNK_INDEX_BYTES <==> SmallMap(ranges, fileSize, bs))
    ensures r.Ok? ==>
              forall dst, head :: HoldsRanges(dst, bs, copyId, devices, r.value, head) && InBounds(ranges, |DeviceBytes(dst, copyId)|) ==>
                ReadsAs(dst, MapInode(r.value, head), Coalesce(Renumber(ranges, copyId)), SmallMap(ranges, fileSize, bs))
  {
    hide Accepts, RunsMatch, Proper, Sum, IndexMap, CeilDiv, Pow2, WithinLimits, Counted, HoldsRanges, InBounds, ReadsAs, Coalesce, Renumber, Int64s,
         RangesFit, SmallMap;
    var c := ChunksFromRanges(ranges, fileSize, bs);
    if c.Err? {
      return Err(c.error);
    }
    assert Sum(ranges) == fileSize by { AcceptedSum(ranges, fileSize, bs); }
    SumPositive(ranges);
    var out := RemapChunkDevices(c.value, copyId, false, devices);
    if out.Err? {
      assert !RunsFit(c.value, copyId - 1, devices) by { Undeclared(c.value, copyId, devices); }
      return Err(out.error);
    }
    assert MovedRuns(c.value, out.value, copyId - 1);
    assert WithTail(out.value, [], 0) == out.value;
    var ok := CheckLimits(out.value);
    EndsStay(c.value, out.value, [], 0, copyId - 1);
    if !ok {
      assert !RunsFit(c.value, copyId - 1, devices);
      return Err(NotImplemented);
    }
    assert RunsFit(c.value, copyId - 1, devices);
    var bits := 0;
    if |ranges| == 1 && !IsHoleRange(ranges[0]) {
      bits := MinChunkBits(bs, fileSize);
    }
    LimitsHold(c.value, out.value, copyId, devices);
    PositiveChunk(bs, bits);
    var indexes := WriteChunkIndexes(out.value, Pow2(bits), CeilDiv(fileSize, bs * Pow2(bits)));
    MapSized(ranges, fileSize, bs, bits, copyId, devices);
    var w := WrittenMap(fileSize, bits, indexes);
    forall dst, head | HoldsRanges(dst, bs, copyId, devices, w, head) && InBounds(ranges, |DeviceBytes(dst, copyId)|)
      ensures ReadsAs(dst, MapInode(w, head), Coalesce(Renumber(ranges, copyId)), SmallMap(ranges, fileSize, bs))
    {
      HeldRanges(ranges, c.value, out.value, dst, bs, copyId, devices, w, head);
      HeldReads(ranges, c.value, out.value, dst, bs, copyId, devices, w, head, SmallMap(ranges, fileSize, bs));
    }
    return Ok(w);
  }

  /** rs is the layout of the file, and Stat takes the file exactly when readable. */
  ghost predicate ReadsAs(dst: Image, ino: Inode, rs: seq<DataRange>, readable: bool) {
    && dst.bs > 0 && ino.layout.ChunkBased? && dst.bs * Pow2(ino.layout.bits) > 0
    && IsLayout(dst, ino, rs) && (Statable(dst, ino) <==> readable)
  }

  lemma HeldReads(ranges: seq<DataRange>, cs: seq<Chunk>, out: seq<Chunk>, dst: Image, bs: nat, copyId: nat, devices: nat, w: WrittenMap, head: nat, readable: bool)
    requires WrittenRanges(ranges, cs, out, dst, copyId, MapInode(w, head)) && HoldsRanges(dst, bs, copyId, devices, w, head)
    requires bs * Pow2(w.bits) > 0 && |w.indexes| == CHUNK_INDEX * CeilDiv(w.size, bs * Pow2(w.bits))
    requires |w.indexes| <= MAX_CHUNK_INDEX_BYTES <==> readable
    ensures ReadsAs(dst, MapInode(w, head), Coalesce(Renumber(ranges, copyId)), readable)
  {
    hide WrittenRanges, HoldsRanges, IsLayout, Statable, Coalesce, Renumber, CeilDiv, Pow2;
    HeldBlockSize(dst, bs, copyId, devices, w, head);
    CoalescedLayout(ranges, cs, out, dst, copyId, MapInode(w, head));
    HeldStatable(dst, MapInode(w, head), ranges, cs, out, copyId);
  }

  /** Ranges written and read back through any image that holds their map: their coalesced form if and only if the map is small enough to be read. */
  method RangesBack(ranges: seq<DataRange>, fileSize: int, bs: nat, copyId: nat, devices: nat, dst: Image, head: nat)
    returns (w: Result<WrittenMap>, r: Result<seq<DataRange>>)
    requires bs > 0 && Int64s(ranges) && |ranges| > 0 && 0 < copyId && devices <= 0xFFFF
    ensures w.Ok? <==> Accepts(ranges, fileSize, bs) && RangesFit(ranges, bs, copyId - 1, devices)
    ensures w.Ok? && HoldsRanges(dst, bs, copyId, devices, w.value, head) && InBounds(ranges, |DeviceBytes(dst, copyId)|) ==>
              fileSize > 0 && if SmallMap(ranges, fileSize, bs) then r == Ok(Coalesce(Renumber(ranges, copyId))) else r.Err?
  {
    hide Accepts, RangesFit, HoldsRanges, InBounds, Coalesce, Renumber, SmallMap, IsLayout, Int64s, Statable, Pow2;
    w := RangesToIndexes(ranges, fileSize, bs, copyId, devices);
    r := Err(Invalid);
    if w.Ok? && dst.bs > 0 {
      var ino := MapInode(w.value, head);
      PositiveChunk(dst.bs, ino.layout.bits);
      r := BuildChunkDataRanges(dst, ino);
      if HoldsRanges(dst, bs, copyId, devices, w.value, head) && InBounds(ranges, |DeviceBytes(dst, copyId)|) {
        assert ReadsAs(dst, ino, Coalesce(Renumber(ranges, copyId)), SmallMap(ranges, fileSize, bs));
        HeldWell(dst, bs, copyId, devices, w.value, head);
        if r.Ok? {
          LayoutUnique(dst, ino, r.value, Coalesce(Renumber(ranges, copyId)));
        }
      }
    } else if w.Ok? && HoldsRanges(dst, bs, copyId, devices, w.value, head) {
      HeldBlockSize(dst, bs, copyId, devices, w.value, head);
    }
  }

  lemma HeldWell(dst: Image, bs: nat, copyId: nat, devices: nat, w: WrittenMap, head: nat)
    requires HoldsRanges(dst, bs, copyId, devices, w, head)
    ensures WellFormed(dst)
  {
  }

  /** A hole of 2^23 blocks before a block of data: taken by the Writer, its map of 64 MiB and eight bytes refused by Stat. */
  lemma LongMap()
    ensures var rs := [DataRange(0, HOLE_OFFSET, 0x80_0000 * 4096), DataRange(0, 0, 4096)];
            && Int64s(rs) && Accepts(rs, 0x80_0001 * 4096, 4096) && RangesFit(rs, 4096, 0, 1) && InBounds(rs, 4096)
            && !SmallMap(rs, 0x80_0001 * 4096, 4096)
  {
    var rs := [DataRange(0, HOLE_OFFSET, 0x80_0000 * 4096), DataRange(0, 0, 4096)];
    assert rs[1..] == [rs[1]] && rs[1..][1..] == [];
    assert Sum(rs[1..]) == 4096;
  }

  lemma Undeclared(cs: seq<Chunk>, copyId: nat, devices: nat)
    requires copyId > 0 && forall c :: c in cs && !IsHole(c) ==> c.dev == 1
    requires exists i :: 0 <= i < |cs| && !IsHole(cs[i]) && ((cs[i].dev == 0 && !false) || cs[i].dev + IdOffset(copyId, false) > devices)
    ensures !RunsFit(cs, copyId - 1, devices)
  {
    var i :| 0 <= i < |cs| && !IsHole(cs[i]) && ((cs[i].dev == 0 && !false) || cs[i].dev + IdOffset(copyId, false) > devices);
    assert cs[i] in cs;
    assert !Fits(RunTarget(cs[i], 0), cs[i].count, copyId - 1, devices);
  }

  lemma AcceptedSum(ranges: seq<DataRange>, fileSize: int, bs: nat)
    requires bs > 0 && Accepts(ranges, fileSize, bs)
    ensures Sum(ranges) == fileSize
  {
  }

  lemma HeldBlockSize(dst: Image, bs: nat, copyId: nat, devices: nat, w: WrittenMap, head: nat)
    requires HoldsRanges(dst, bs, copyId, devices, w, head)
    ensures dst.bs == bs
  {
  }

  lemma LimitsHold(cs: seq<Chunk>, out: seq<Chunk>, copyId: nat, devices: nat)
    requires 0 < copyId && Counted(cs) && MovedRuns(cs, out, copyId - 1) && devices <= 0xFFFF
    requires forall i :: 0 <= i < |out| && !IsHole(out[i]) ==> out[i].phys + out[i].count <= NULL_ADDR
    requires forall i :: 0 <= i < |cs| && !IsHole(cs[i]) ==> 0 < out[i].dev <= devices
    ensures Counted(out) && WithinLimits(out, devices)
  {
  }
}
