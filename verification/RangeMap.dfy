/** A chunked file's layout read as ranges (erofs.go: buildChunkDataRanges), and ranges turned into runs (mkfs.go: chunksFromRanges). */
module RangeMap {
  import opened Arith
  import opened Bytes
  import opened BlockMap
  import opened DataReader
  import opened Chunks
  import opened CopyFile
  import opened CopyBack
  import opened Ranges

  // ---- buildChunkDataRanges ----

  /** Chunk i as a range: a hole, or its bytes where the readers place and bound them. */
  function ChunkRange(img: Image, ino: Inode, i: nat): Result<DataRange>
    requires img.bs > 0 && ino.layout.ChunkBased?
  {
    var n := ChunkLen(ino.size, img.bs * Pow2(ino.layout.bits), i);
    var c :- ChunkEntry(img, ino, i);
    if c.Hole? then Ok(DataRange(0, HOLE_OFFSET, n))
    else
      var pa :- BlockAddr(img, c.blk);
      var l :- Locate(img, c.dev, pa);
      if !BoundOnDevice(img, l, n) then Err(Corrupt) else Ok(DataRange(l.dev, l.off, n))
  }

  /** The place a reader finds a position's byte: nowhere, or on a device. */
  function PlaceOf(img: Image, ino: Inode, p: nat): Spot
    requires img.bs > 0
  {
    var t := BlockTarget(img, ino, Div(p, img.bs));
    if t.Err? then Past
    else if t.value.Hole? then InHole
    else
      var l := MapDev(img, t.value.dev, Addr(t.value.blk, img.bs, Mod(p, img.bs)));
      On(l.dev, l.off)
  }

  /** rs is the file's layout: in normal form, covering it exactly, every position where the block loader reads it. */
  ghost predicate IsLayout(img: Image, ino: Inode, rs: seq<DataRange>)
    requires img.bs > 0
  {
    Normal(rs) && PlainHoles(rs) && Sum(rs) == ino.size && forall p: nat :: p < ino.size ==> SpotAt(rs, p) == PlaceOf(img, ino, p)
  }

  lemma LayoutUnique(img: Image, ino: Inode, a: seq<DataRange>, b: seq<DataRange>)
    requires img.bs > 0 && IsLayout(img, ino, a) && IsLayout(img, ino, b)
    ensures a == b
  {
    hide SpotAt, PlaceOf, Normal, PlainHoles;
    NormalUnique(a, b);
  }

  lemma ChunkRangeSpot(img: Image, ino: Inode, p: nat)
    requires img.bs > 0 && WellFormed(img) && p < ino.size && ino.layout.ChunkBased? && !ino.layout.wide
    requires ChunkRange(img, ino, Div(Div(p, img.bs), Pow2(ino.layout.bits))).Ok?
    ensures var bn, bpc := Div(p, img.bs), Pow2(ino.layout.bits);
            SpotIn(ChunkRange(img, ino, Div(bn, bpc)).value, Addr(Mod(bn, bpc), img.bs, Mod(p, img.bs))) == PlaceOf(img, ino, p)
  {
    hide *;
    var bs, bpc := img.bs, Pow2(ino.layout.bits);
    var bn := Div(p, bs);
    ChunkPosition(p, ino.size, bs, bpc);
    ChunkPlaceIs(img, ino, p);
    ChunkRangeIs(img, ino, Div(bn, bpc), Addr(Mod(bn, bpc), bs, Mod(p, bs)));
    var c := ChunkEntry(img, ino, Div(bn, bpc)).value;
    if c.At? {
      AddrInto(c.blk, Mod(bn, bpc), bs, Mod(p, bs));
    }
  }

  lemma ChunkPlaceIs(img: Image, ino: Inode, p: nat)
    requires img.bs > 0 && ino.layout.ChunkBased? && !ino.layout.wide
    requires ChunkRange(img, ino, Div(Div(p, img.bs), Pow2(ino.layout.bits))).Ok?
    ensures var bn, bpc := Div(p, img.bs), Pow2(ino.layout.bits);
            && ChunkEntry(img, ino, Div(bn, bpc)).Ok?
            && PlaceOf(img, ino, p) ==
               match ChunkEntry(img, ino, Div(bn, bpc)).value
               case Hole => InHole
               case At(dev, blk) => var l := MapDev(img, dev, Addr(blk + Mod(bn, bpc), img.bs, Mod(p, img.bs))); On(l.dev, l.off)
  {
    hide ChunkEntry, MapDev, Locate, BlockAddr, BoundOnDevice, ChunkLen, Div, Mod, Pow2;
  }

  lemma ChunkRangeIs(img: Image, ino: Inode, i: nat, k: nat)
    requires img.bs > 0 && WellFormed(img) && ino.layout.ChunkBased? && ChunkRange(img, ino, i).Ok?
    requires k < ChunkLen(ino.size, img.bs * Pow2(ino.layout.bits), i)
    ensures ChunkEntry(img, ino, i).Ok?
    ensures SpotIn(ChunkRange(img, ino, i).value, k) ==
            match ChunkEntry(img, ino, i).value
            case Hole => InHole
            case At(dev, blk) => var l := MapDev(img, dev, Addr(blk, img.bs, k)); On(l.dev, l.off)
  {
    hide ChunkEntry, MappedDevice, ChunkLen, Pow2;
    var c := ChunkEntry(img, ino, i).value;
    if c.At? {
      var l := MapDev(img, c.dev, c.blk * img.bs);
      if l.dev > 0 {
        assert |img.devices[l.dev - 1].bytes| == img.devices[l.dev - 1].blocks * img.bs;
      }
      RangeReads(img, c.dev, c.blk * img.bs, ChunkLen(ino.size, img.bs * Pow2(ino.layout.bits), i), k);
    }
  }

  lemma ChunkRangeProper(img: Image, ino: Inode, i: nat)
    requires img.bs > 0 && ino.layout.ChunkBased? && ChunkRange(img, ino, i).Ok?
    requires i * (img.bs * Pow2(ino.layout.bits)) < ino.size && img.bs * Pow2(ino.layout.bits) > 0
    ensures var r := ChunkRange(img, ino, i).value;
            && r.size == ChunkLen(ino.size, img.bs * Pow2(ino.layout.bits), i) > 0 && r.off >= HOLE_OFFSET
            && (IsHoleRange(r) ==> r.dev == 0)
  {
    hide ChunkEntry, Locate, BoundOnDevice, Pow2;
  }

  /** The map is small enough to be read, is there, and places every chunk where a device holds it: what Stat takes of a chunked file. */
  predicate Statable(img: Image, ino: Inode)
    requires img.bs > 0 && ino.layout.ChunkBased? && img.bs * Pow2(ino.layout.bits) > 0
  {
    var n := CeilDiv(ino.size, img.bs * Pow2(ino.layout.bits));
    !ino.layout.wide && MapFits(img, ino, n) && forall i :: 0 <= i < n ==> ChunkRange(img, ino, i).Ok?
  }

  /** One pass over the map, each chunk merged into the last range where it continues it. */
  method BuildChunkDataRanges(img: Image, ino: Inode) returns (r: Result<seq<DataRange>>)
    requires img.bs > 0 && ino.size > 0 && ino.layout.ChunkBased? && img.bs * Pow2(ino.layout.bits) > 0
    ensures r.Ok? <==> Statable(img, ino)
    ensures r.Ok? ==> Normal(r.value) && Sum(r.value) == ino.size
    ensures r.Ok? && WellFormed(img) ==> IsLayout(img, ino, r.value)
  {
    hide ChunkRange, Pow2, CeilDiv, SpotAt, Sum, Push, Normal, PlainHoles, PlaceOf, WellFormed, ChunkLen, SpotIn;
    if ino.layout.wide {
      return Err(NotImplemented);
    }
    var chunk := img.bs * Pow2(ino.layout.bits);
    var nchunks := CeilDiv(ino.size, chunk);
    CeilBounds(ino.size, chunk);
    if !MapFits(img, ino, nchunks) {
      return Err(Corrupt);
    }
    var rs: seq<DataRange> := [];
    NoRanges();
    for i := 0 to nchunks
      invariant Normal(rs) && PlainHoles(rs) && Sum(rs) == Min(i * chunk, ino.size)
      invariant forall j :: 0 <= j < i ==> ChunkRange(img, ino, j).Ok?
      invariant WellFormed(img) ==> forall p: nat :: p < Min(i * chunk, ino.size) ==> SpotAt(rs, p) == PlaceOf(img, ino, p)
    {
      var c := ChunkRange(img, ino, i);
      if c.Err? {
        return Err(c.error);
      }
      CeilIndex(ino.size, chunk, i);
      ChunkRangeProper(img, ino, i);
      if WellFormed(img) {
        RangeStep(img, ino, i, rs);
      }
      ChunkEnds(ino.size, chunk, i);
      PushKeeps(rs, c.value);
      rs := Push(rs, c.value);
    }
    assert Min(nchunks * chunk, ino.size) == ino.size;
    return Ok(rs);
  }

  lemma NoRanges()
    ensures Normal([]) && PlainHoles([]) && Sum([]) == 0
  {
  }

  lemma PushKeeps(rs: seq<DataRange>, r: DataRange)
    requires Normal(rs) && PlainHoles(rs) && r.size > 0 && r.off >= HOLE_OFFSET && (IsHoleRange(r) ==> r.dev == 0)
    ensures Normal(Push(rs, r)) && PlainHoles(Push(rs, r)) && Sum(Push(rs, r)) == Sum(rs) + r.size
  {
    PushNormal(rs, r);
    PushSpot(rs, r, 0);
  }

  lemma ChunkEnds(size: nat, chunk: nat, i: nat)
    requires chunk > 0 && i * chunk < size
    ensures Min(i * chunk, size) + ChunkLen(size, chunk, i) == Min((i + 1) * chunk, size)
  {
    assert (i + 1) * chunk == i * chunk + chunk;
  }

  /** Pushing a chunk's range puts the chunk's positions where the block loader reads them. */
  lemma RangeStep(img: Image, ino: Inode, i: nat, rs: seq<DataRange>)
    requires img.bs > 0 && WellFormed(img) && ino.layout.ChunkBased? && !ino.layout.wide && img.bs * Pow2(ino.layout.bits) > 0
    requires i * (img.bs * Pow2(ino.layout.bits)) < ino.size && ChunkRange(img, ino, i).Ok?
    requires Normal(rs) && Sum(rs) == i * (img.bs * Pow2(ino.layout.bits))
    requires forall p: nat :: p < Sum(rs) ==> SpotAt(rs, p) == PlaceOf(img, ino, p)
    ensures forall p: nat :: p < Min((i + 1) * (img.bs * Pow2(ino.layout.bits)), ino.size) ==>
              SpotAt(Push(rs, ChunkRange(img, ino, i).value), p) == PlaceOf(img, ino, p)
  {
    var bs, bpc := img.bs, Pow2(ino.layout.bits);
    var chunk, r := bs * bpc, ChunkRange(img, ino, i).value;
    ChunkRangeProper(img, ino, i);
    ChunkEnds(ino.size, chunk, i);
    NormalProper(rs);
    forall p: nat | p < Min((i + 1) * chunk, ino.size) ensures SpotAt(Push(rs, r), p) == PlaceOf(img, ino, p) {
      hide *;
      RangeStepAt(img, ino, i, rs, p);
    }
  }

  lemma RangeStepAt(img: Image, ino: Inode, i: nat, rs: seq<DataRange>, p: nat)
    requires img.bs > 0 && WellFormed(img) && ino.layout.ChunkBased? && !ino.layout.wide && img.bs * Pow2(ino.layout.bits) > 0
    requires i * (img.bs * Pow2(ino.layout.bits)) < ino.size && ChunkRange(img, ino, i).Ok?
    requires Proper(rs) && Sum(rs) == i * (img.bs * Pow2(ino.layout.bits))
    requires forall q: nat :: q < Sum(rs) ==> SpotAt(rs, q) == PlaceOf(img, ino, q)
    requires p < Min((i + 1) * (img.bs * Pow2(ino.layout.bits)), ino.size)
    ensures SpotAt(Push(rs, ChunkRange(img, ino, i).value), p) == PlaceOf(img, ino, p)
  {
    hide SpotAt, PlaceOf, Sum, Push, ChunkRange, Pow2, WellFormed, ChunkLen, SpotIn, Proper, Div, Mod;
    var bs, bpc := img.bs, Pow2(ino.layout.bits);
    var chunk, r := bs * bpc, ChunkRange(img, ino, i).value;
    ChunkRangeProper(img, ino, i);
    PushSpot(rs, r, p);
    ChunkEnds(ino.size, chunk, i);
    if p >= i * chunk {
      InChunk(p, i, bs, bpc);
      ChunkRangeSpot(img, ino, p);
    }
  }

  /** A position's chunk, and how far into it the position lies. */
  lemma InChunk(p: nat, i: nat, bs: nat, bpc: nat)
    requires bs > 0 && bpc > 0 && i * (bs * bpc) <= p < (i + 1) * (bs * bpc)
    ensures Div(Div(p, bs), bpc) == i && Addr(Mod(Div(p, bs), bpc), bs, Mod(p, bs)) == p - i * (bs * bpc)
  {
    var bn := Div(p, bs);
    DivMod(p, bs);
    ChunkOffset(p, bn, bs, bpc);
    assert (i + 1) * (bs * bpc) == i * (bs * bpc) + bs * bpc;
    DivUnique(p, bs * bpc, i, p - i * (bs * bpc));
  }

  // ---- chunksFromRanges ----

  /** A range a generic source may declare: block-aligned, on its one device, and a whole number of blocks unless it is the last. */
  predicate RangeOk(r: DataRange, last: bool, bs: nat)
    requires bs > 0
  {
    && r.size > 0
    && (last || r.size % bs == 0)
    && (IsHoleRange(r) || (r.off >= 0 && r.off % bs == 0 && r.dev == 0))
  }

  predicate Accepts(rs: seq<DataRange>, fileSize: int, bs: nat)
    requires bs > 0
  {
    Sum(rs) == fileSize && forall i :: 0 <= i < |rs| ==> RangeOk(rs[i], i == |rs| - 1, bs)
  }

  /** The fields' widths: offsets and sizes are signed 64-bit. */
  predicate Int64s(rs: seq<DataRange>) {
    forall i :: 0 <= i < |rs| ==> rs[i].off <= MAX_INT64 && rs[i].size <= MAX_INT64
  }

  /** A run's target agrees with a range's place, the device ids delta apart. */
  predicate Agrees(t: Target, s: Spot, bs: nat, off: nat, delta: nat) {
    match t
    case Hole => s == InHole
    case At(dev, blk) => dev >= delta && s == On(dev - delta, Addr(blk, bs, off))
  }

  /** The runs put every position below n where the ranges do. */
  ghost predicate RunsMatch(cs: seq<Chunk>, rs: seq<DataRange>, bs: nat, n: int, delta: nat)
    requires bs > 0
  {
    forall p: nat :: p < n ==> Agrees(TargetOf(cs, Div(p, bs)), SpotAt(rs, p), bs, Mod(p, bs), delta)
  }

  function RangeStart(r: DataRange, bs: nat): nat
    requires bs > 0
  {
    if IsHoleRange(r) then NULL_BLOCK else if r.off < 0 then 0 else Div(r.off, bs)
  }

  /** The blocks of one range, appended after whole blocks, match the range. */
  lemma RangeRuns(cs: seq<Chunk>, more: seq<Chunk>, rs: seq<DataRange>, r: DataRange, bs: nat, p: nat)
    requires bs > 0 && Proper(rs) && Total(cs) * bs == Sum(rs) && Sum(rs) <= p < Sum(rs) + r.size
    requires r.size > 0 && (IsHoleRange(r) || (r.off >= 0 && r.off % bs == 0 && r.off <= MAX_INT64 && r.dev == 0))
    requires forall b :: 0 <= b < CeilDiv(r.size, bs) ==>
               TargetOf(more, b) == RunTarget(Chunk(RangeStart(r, bs), 0, if IsHoleRange(r) then 0 else 1), b)
    ensures Agrees(TargetOf(cs + more, Div(p, bs)), SpotAt(rs + [r], p), bs, Mod(p, bs), 1)
  {
    hide TargetOf, SpotAt, Total, Sum, CeilDiv, Proper;
    var k := p - Sum(rs);
    SpotConcat(rs, [r], p);
    SpotSingle(r, k);
    DivMod(k, bs);
    CeilIndex(r.size, bs, Div(k, bs));
    assert (Total(cs) + Div(k, bs)) * bs == Total(cs) * bs + Div(k, bs) * bs;
    DivUnique(p, bs, Total(cs) + Div(k, bs), Mod(k, bs));
    TargetConcat(cs, more, Div(p, bs));
    if !IsHoleRange(r) {
      DivMod(r.off, bs);
      StartIsBlock(r.off, bs);
      assert (Div(r.off, bs) + Div(k, bs)) * bs == Div(r.off, bs) * bs + Div(k, bs) * bs;
    }
  }

  lemma StartIsBlock(off: nat, bs: nat)
    requires bs > 0 && off <= MAX_INT64
    ensures Div(off, bs) <= off < NULL_BLOCK
  {
    DivMod(off, bs);
    MulMono(1, bs, Div(off, bs));
  }

  /** The state of the conversion after i ranges. */
  ghost predicate Built(cs: seq<Chunk>, rs: seq<DataRange>, i: nat, bs: nat)
    requires bs > 0 && i <= |rs|
  {
    && Counted(cs) && Proper(rs[..i]) && (i < |rs| ==> Total(cs) * bs == Sum(rs[..i]))
    && (forall c :: c in cs && !IsHole(c) ==> c.dev == 1)
    && RunsMatch(cs, rs[..i], bs, Sum(rs[..i]), 1)
  }

  lemma BuiltNone(rs: seq<DataRange>, bs: nat)
    requires bs > 0
    ensures Built([], rs, 0, bs)
  {
    assert rs[..0] == [];
  }

  lemma BuiltAll(cs: seq<Chunk>, rs: seq<DataRange>, bs: nat)
    requires bs > 0 && Built(cs, rs, |rs|, bs)
    ensures Counted(cs) && (forall c :: c in cs && !IsHole(c) ==> c.dev == 1) && Proper(rs) && RunsMatch(cs, rs, bs, Sum(rs), 1)
  {
    assert rs[..|rs|] == rs;
  }

  lemma BuiltStep(cs: seq<Chunk>, more: seq<Chunk>, rs: seq<DataRange>, i: nat, bs: nat)
    requires bs > 0 && i < |rs| && Built(cs, rs, i, bs) && RangeOk(rs[i], i == |rs| - 1, bs) && Int64s(rs)
    requires Counted(more) && Total(more) == CeilDiv(rs[i].size, bs) && (forall c :: c in more && !IsHole(c) ==> c.dev == 1)
    requires var r := rs[i];
             forall b :: 0 <= b < CeilDiv(r.size, bs) ==>
               TargetOf(more, b) == RunTarget(Chunk(RangeStart(r, bs), 0, if IsHoleRange(r) then 0 else 1), b)
    ensures Built(cs + more, rs, i + 1, bs)
  {
    hide TargetOf, SpotAt, Total, Sum, CeilDiv, RunsMatch, Proper, RangeStart;
    SumProper(rs[..i]);
    RunsStep(cs, more, rs, i, bs);
    TotalConcat(cs, more);
    SumNext(rs, i);
    ProperNext(rs, i);
    if i + 1 < |rs| {
      WholeCeil(rs[i].size, bs);
      assert (Total(cs) + Total(more)) * bs == Total(cs) * bs + Total(more) * bs;
    }
  }

  /** A range the destination can name: a hole, or on a device it declares once moved, ending within 32-bit addresses. */
  predicate RangeFits(r: DataRange, bs: nat, delta: nat, devices: nat)
    requires bs > 0
  {
    IsHoleRange(r) || (1 + delta <= devices && RangeStart(r, bs) + CeilDiv(Max(r.size, 0), bs) <= NULL_ADDR)
  }

  predicate RangesFit(rs: seq<DataRange>, bs: nat, delta: nat, devices: nat)
    requires bs > 0
  {
    forall i :: 0 <= i < |rs| ==> RangeFits(rs[i], bs, delta, devices)
  }

  /** The runs and the first i ranges are writable to the same destinations. */
  ghost predicate FitAlike(cs: seq<Chunk>, rs: seq<DataRange>, i: nat, bs: nat)
    requires bs > 0 && i <= |rs|
  {
    forall delta, devices :: RunsFit(cs, delta, devices) <==> RangesFit(rs[..i], bs, delta, devices)
  }

  lemma RunFits(more: seq<Chunk>, r: DataRange, bs: nat, delta: nat, devices: nat)
    requires bs > 0 && r.size > 0 && (IsHoleRange(r) || RangeStart(r, bs) < NULL_BLOCK)
    requires Counted(more) && Total(more) == CeilDiv(r.size, bs)
    requires forall b :: 0 <= b < CeilDiv(r.size, bs) ==>
               TargetOf(more, b) == RunTarget(Chunk(RangeStart(r, bs), 0, if IsHoleRange(r) then 0 else 1), b)
    ensures RunsFit(more, delta, devices) <==> RangeFits(r, bs, delta, devices)
  {
    hide TargetOf, Total, RunsFit, CeilDiv, Div;
    RunsFitBlocks(more, delta, devices);
    var n := CeilDiv(r.size, bs);
    CeilIndex(r.size, bs, 0);
    assert BlocksFit(more, delta, devices) ==> Fits(TargetOf(more, n - 1), 1, delta, devices);
  }

  lemma FitStep(cs: seq<Chunk>, more: seq<Chunk>, rs: seq<DataRange>, i: nat, bs: nat)
    requires bs > 0 && i < |rs| && FitAlike(cs, rs, i, bs) && rs[i].size > 0 && (IsHoleRange(rs[i]) || RangeStart(rs[i], bs) < NULL_BLOCK)
    requires Counted(more) && Total(more) == CeilDiv(rs[i].size, bs)
    requires var r := rs[i];
             forall b :: 0 <= b < CeilDiv(r.size, bs) ==>
               TargetOf(more, b) == RunTarget(Chunk(RangeStart(r, bs), 0, if IsHoleRange(r) then 0 else 1), b)
    ensures FitAlike(cs + more, rs, i + 1, bs)
  {
    hide TargetOf, Total, RangeStart, CeilDiv, RangeFits, Fits;
    forall delta, devices ensures RunsFit(cs + more, delta, devices) <==> RangesFit(rs[..i + 1], bs, delta, devices) {
      RunFits(more, rs[i], bs, delta, devices);
      BothFit(cs, more, delta, devices);
      assert rs[..i + 1] == rs[..i] + [rs[i]];
    }
  }

  lemma BothFit(a: seq<Chunk>, b: seq<Chunk>, delta: nat, devices: nat)
    ensures RunsFit(a + b, delta, devices) <==> RunsFit(a, delta, devices) && RunsFit(b, delta, devices)
  {
    hide Fits, RunTarget;
    if RunsFit(a + b, delta, devices) {
      assert forall i :: 0 <= i < |a| ==> a[i] == (a + b)[i];
      assert forall i :: 0 <= i < |b| ==> b[i] == (a + b)[|a| + i];
    }
  }

  lemma ProperNext(rs: seq<DataRange>, i: nat)
    requires i < |rs| && Proper(rs[..i]) && rs[i].size > 0 && rs[i].off >= HOLE_OFFSET
    ensures Proper(rs[..i + 1])
  {
    assert rs[..i + 1] == rs[..i] + [rs[i]];
  }

  /** Turns a source's ranges into runs on its one device, id 1, refusing any that runs cannot state. */
  method ChunksFromRanges(ranges: seq<DataRange>, fileSize: int, bs: nat) returns (r: Result<seq<Chunk>>)
    requires bs > 0 && Int64s(ranges)
    ensures r.Ok? <==> Accepts(ranges, fileSize, bs)
    ensures r.Ok? ==> Counted(r.value) && (forall c :: c in r.value && !IsHole(c) ==> c.dev == 1)
    ensures r.Ok? ==> Proper(ranges) && RunsMatch(r.value, ranges, bs, fileSize, 1)
    ensures r.Ok? ==> forall delta, devices :: RunsFit(r.value, delta, devices) <==> RangesFit(ranges, bs, delta, devices)
  {
    hide TargetOf, Total, Sum, CeilDiv, Built, RunsMatch, Proper, RangeOk, RangeStart, RunsFit, RangesFit, FitAlike;
    var total := SumSizes(ranges);
    if total != fileSize {
      return Err(Invalid);
    }
    var cs: seq<Chunk> := [];
    BuiltNone(ranges, bs);
    NoneFit(ranges, bs);
    for i := 0 to |ranges|
      invariant Built(cs, ranges, i, bs) && FitAlike(cs, ranges, i, bs)
      invariant forall j :: 0 <= j < i ==> RangeOk(ranges[j], j == |ranges| - 1, bs)
    {
      if !RangeOk(ranges[i], i == |ranges| - 1, bs) {
        return Err(Invalid);
      }
      StartFits(ranges[i], i == |ranges| - 1, bs);
      var more := DeviceChunks(RangeStart(ranges[i], bs), CeilDiv(ranges[i].size, bs), if IsHoleRange(ranges[i]) then 0 else 1);
      BuiltStep(cs, more, ranges, i, bs);
      FitStep(cs, more, ranges, i, bs);
      cs := cs + more;
    }
    BuiltAll(cs, ranges, bs);
    AllFit(cs, ranges, bs);
    return Ok(cs);
  }

  lemma NoneFit(rs: seq<DataRange>, bs: nat)
    requires bs > 0
    ensures FitAlike([], rs, 0, bs)
  {
  }

  lemma AllFit(cs: seq<Chunk>, rs: seq<DataRange>, bs: nat)
    requires bs > 0 && FitAlike(cs, rs, |rs|, bs)
    ensures forall delta, devices :: RunsFit(cs, delta, devices) <==> RangesFit(rs, bs, delta, devices)
  {
    hide RunsFit, RangesFit;
    assert rs[..|rs|] == rs;
  }

  method SumSizes(rs: seq<DataRange>) returns (total: int)
    ensures total == Sum(rs)
  {
    total := 0;
    assert rs[..0] == [];
    for i := 0 to |rs|
      invariant total == Sum(rs[..i])
    {
      total := total + rs[i].size;
      SumNext(rs, i);
    }
    assert rs[..|rs|] == rs;
  }

  lemma StartFits(r: DataRange, last: bool, bs: nat)
    requires bs > 0 && RangeOk(r, last, bs) && r.off <= MAX_INT64 && r.size <= MAX_INT64
    ensures r.size > 0
    ensures var start := RangeStart(r, bs); if IsHoleRange(r) then start == NULL_BLOCK else start + CeilDiv(r.size, bs) < NULL_BLOCK
  {
    BlocksBounded(r.size, bs);
    if !IsHoleRange(r) {
      StartIsBlock(r.off, bs);
    }
  }

  lemma SumNext(rs: seq<DataRange>, i: nat)
    requires i < |rs|
    ensures Sum(rs[..i + 1]) == Sum(rs[..i]) + rs[i].size
  {
    assert rs[..i + 1] == rs[..i] + [rs[i]];
    SumConcat(rs[..i], [rs[i]]);
  }

  lemma BlocksBounded(size: nat, bs: nat)
    requires bs > 0 && size > 0
    ensures CeilDiv(size, bs) <= size
  {
    CeilUnique(size, 1, size);
    var q := CeilDiv(size, bs);
    CeilBounds(size, bs);
    WholeFits(size, q, bs);
  }

  lemma WholeCeil(size: nat, bs: nat)
    requires bs > 0 && size % bs == 0
    ensures CeilDiv(size, bs) * bs == size
  {
    CeilUnique(size, bs, size / bs);
  }

  lemma RunsStep(cs: seq<Chunk>, more: seq<Chunk>, rs: seq<DataRange>, i: nat, bs: nat)
    requires bs > 0 && i < |rs| && Proper(rs[..i]) && 0 <= Sum(rs[..i]) && Total(cs) * bs == Sum(rs[..i])
    requires RangeOk(rs[i], i == |rs| - 1, bs) && Int64s(rs)
    requires RunsMatch(cs, rs[..i], bs, Sum(rs[..i]), 1)
    requires var r := rs[i];
             forall b :: 0 <= b < CeilDiv(r.size, bs) ==>
               TargetOf(more, b) == RunTarget(Chunk(RangeStart(r, bs), 0, if IsHoleRange(r) then 0 else 1), b)
    ensures RunsMatch(cs + more, rs[..i + 1], bs, Sum(rs[..i]) + rs[i].size, 1)
  {
    hide TargetOf, SpotAt, Total, Sum, CeilDiv, Agrees, Proper;
    var was, r := rs[..i], rs[i];
    assert rs[..i + 1] == was + [r];
    forall p: nat | p < Sum(was) + r.size
      ensures Agrees(TargetOf(cs + more, Div(p, bs)), SpotAt(rs[..i + 1], p), bs, Mod(p, bs), 1)
    {
      if p < Sum(was) {
        DivMod(p, bs);
        MulCancel(Div(p, bs), Total(cs), bs);
        TargetConcat(cs, more, Div(p, bs));
        SpotConcat(was, [r], p);
      } else {
        RangeRuns(cs, more, was, r, bs, p);
      }
    }
  }
}
