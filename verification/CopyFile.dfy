/** The metadata-only copy of a regular file: its block map read into runs that name the source's devices (mkfs_image.go). */
module CopyFile {
  import opened Arith
  import opened Bytes
  import opened BlockMap
  import opened DataReader
  import opened Reference
  import opened Chunks

  // ---- Placing a chunk ----

  /** locateChunk: a chunk's device and block where erofs_map_dev lands it, its n bytes bounded there. */
  function LocateChunk(img: Image, dev: nat, blk: nat, n: nat): Result<Target>
    requires img.bs > 0
  {
    var pa :- BlockAddr(img, blk);
    var l :- Locate(img, dev, pa);
    if !BoundOnDevice(img, l, n) then Err(Corrupt) else Ok(At(l.dev, Div(l.off, img.bs)))
  }

  /** The byte at an address of a device itself, with no mapped range in between. */
  function RawByte(img: Image, dev: nat, pa: nat): Option<byte> {
    var b := DeviceBytes(img, dev);
    if pa < |b| then Some(b[pa]) else None
  }

  /** A block's place on a device is a whole number of blocks in. */
  lemma WholeBlocks(img: Image, dev: nat, blk: nat)
    requires img.bs > 0
    ensures var l := MapDev(img, dev, blk * img.bs); Div(l.off, img.bs) * img.bs == l.off
  {
    hide MappedDevice;
    var m := MappedDevice(img, blk * img.bs, 0);
    if dev == 0 && m.Some? {
      var lo := img.devices[m.value].mapped;
      assert MapsTo(img, blk * img.bs, m.value);
      BlockInRange(lo, img.devices[m.value].blocks, blk, 0, img.bs);
      assert blk * img.bs - lo * img.bs == (blk - lo) * img.bs;
      DivUnique((blk - lo) * img.bs, img.bs, blk - lo, 0);
    } else {
      DivUnique(blk * img.bs, img.bs, blk, 0);
    }
  }

  /** A placed chunk's bytes on its device are the bytes its address denotes. */
  lemma PlacedByte(img: Image, dev: nat, blk: nat, n: nat, k: nat)
    requires img.bs > 0 && WellFormed(img) && k < n && LocateChunk(img, dev, blk, n).Ok?
    ensures var t := LocateChunk(img, dev, blk, n).value;
            && t.At? && t.dev <= |img.devices|
            && ByteAt(img, dev, blk * img.bs + k) == RawByte(img, t.dev, t.blk * img.bs + k)
            && RawByte(img, t.dev, t.blk * img.bs + k).Some?
  {
    hide MappedDevice;
    var l := MapDev(img, dev, blk * img.bs);
    WholeBlocks(img, dev, blk);
    if l.dev > 0 {
      assert |img.devices[l.dev - 1].bytes| == img.devices[l.dev - 1].blocks * img.bs;
    }
    RangeReads(img, dev, blk * img.bs, n, k);
  }

  // ---- What the runs must carry ----

  /** The file's byte at p is the one its block's target gives on the source's own devices. */
  ghost predicate TargetGives(img: Image, ino: Inode, p: nat, t: Target)
    requires img.bs > 0
  {
    match t
    case Hole => FileByte(img, ino, p) == Some(0)
    case At(dev, blk) =>
      && dev <= |img.devices|
      && FileByte(img, ino, p).Some?
      && FileByte(img, ino, p) == RawByte(img, dev, Addr(blk, img.bs, Mod(p, img.bs)))
  }

  /** Every position below n is carried. */
  ghost predicate Carries(img: Image, ino: Inode, cs: seq<Chunk>, n: nat)
    requires img.bs > 0
  {
    forall p :: 0 <= p < n ==> TargetGives(img, ino, p, TargetOf(cs, Div(p, img.bs)))
  }

  // ---- Chunk maps ----

  /** chunkBytes: the logical size of chunk i. */
  function ChunkLen(size: nat, chunk: nat, i: nat): nat {
    if i * chunk < size then Min(chunk, size - i * chunk) else 0
  }

  /** Chunk i as the copy places it. */
  function PlacedChunk(img: Image, ino: Inode, i: nat): Result<Target>
    requires img.bs > 0 && ino.layout.ChunkBased?
  {
    var c :- ChunkEntry(img, ino, i);
    if c.Hole? then Ok(Hole)
    else LocateChunk(img, c.dev, c.blk, ChunkLen(ino.size, img.bs * Pow2(ino.layout.bits), i))
  }

  function Shift(t: Target, k: nat): Target {
    if t.Hole? then Hole else At(t.dev, t.blk + k)
  }

  /** A position of a placed chunk reads on its device what it denotes. */
  lemma PlacedChunkByte(img: Image, ino: Inode, p: nat)
    requires img.bs > 0 && WellFormed(img) && p < ino.size && ino.layout.ChunkBased? && !ino.layout.wide
    requires PlacedChunk(img, ino, Div(Div(p, img.bs), Pow2(ino.layout.bits))).Ok?
    ensures var bn, bpc := Div(p, img.bs), Pow2(ino.layout.bits);
            TargetGives(img, ino, p, Shift(PlacedChunk(img, ino, Div(bn, bpc)).value, Mod(bn, bpc)))
  {
    hide *;
    var bs, bpc := img.bs, Pow2(ino.layout.bits);
    var bn := Div(p, bs);
    PlacedChunkIs(img, ino, Div(bn, bpc));
    ChunkFileByte(img, ino, p);
    var c := ChunkEntry(img, ino, Div(bn, bpc)).value;
    if c.At? {
      ChunkPosition(p, ino.size, bs, bpc);
      PlacedBlockByte(img, c.dev, c.blk, ChunkLen(ino.size, bs * bpc, Div(bn, bpc)), Mod(bn, bpc), Mod(p, bs));
    }
    GivesUnfold(img, ino, p, Shift(PlacedChunk(img, ino, Div(bn, bpc)).value, Mod(bn, bpc)));
  }

  lemma GivesUnfold(img: Image, ino: Inode, p: nat, t: Target)
    requires img.bs > 0
    ensures t.Hole? && FileByte(img, ino, p) == Some(0) ==> TargetGives(img, ino, p, t)
    ensures (&& t.At? && t.dev <= |img.devices| && FileByte(img, ino, p).Some?
             && FileByte(img, ino, p) == RawByte(img, t.dev, Addr(t.blk, img.bs, Mod(p, img.bs)))) ==> TargetGives(img, ino, p, t)
  {
  }

  lemma PlacedChunkIs(img: Image, ino: Inode, i: nat)
    requires img.bs > 0 && ino.layout.ChunkBased? && PlacedChunk(img, ino, i).Ok?
    ensures ChunkEntry(img, ino, i).Ok?
    ensures var c := ChunkEntry(img, ino, i).value;
            if c.Hole? then PlacedChunk(img, ino, i).value == Hole
            else PlacedChunk(img, ino, i) == LocateChunk(img, c.dev, c.blk, ChunkLen(ino.size, img.bs * Pow2(ino.layout.bits), i))
    ensures forall k :: Shift(PlacedChunk(img, ino, i).value, k) ==
                        if PlacedChunk(img, ino, i).value.Hole? then Hole
                        else At(PlacedChunk(img, ino, i).value.dev, PlacedChunk(img, ino, i).value.blk + k)
  {
  }

  lemma PlacedBlockByte(img: Image, dev: nat, blk: nat, n: nat, into: nat, off: nat)
    requires img.bs > 0 && WellFormed(img) && Addr(into, img.bs, off) < n && LocateChunk(img, dev, blk, n).Ok?
    ensures var t := LocateChunk(img, dev, blk, n).value;
            && t.At? && t.dev <= |img.devices|
            && ByteAt(img, dev, Addr(blk + into, img.bs, off)) == RawByte(img, t.dev, Addr(t.blk + into, img.bs, off))
            && RawByte(img, t.dev, Addr(t.blk + into, img.bs, off)).Some?
  {
    hide *;
    PlacedByte(img, dev, blk, n, Addr(into, img.bs, off));
    var t := LocateChunk(img, dev, blk, n).value;
    AddrInto(blk, into, img.bs, off);
    AddrInto(t.blk, into, img.bs, off);
  }

  lemma AddrInto(blk: nat, into: nat, bs: nat, off: nat)
    ensures Addr(blk + into, bs, off) == Addr(blk, bs, Addr(into, bs, off)) == blk * bs + Addr(into, bs, off)
  {
  }

  lemma ChunkFileByte(img: Image, ino: Inode, p: nat)
    requires img.bs > 0 && p < ino.size && ino.layout.ChunkBased? && !ino.layout.wide
    requires ChunkEntry(img, ino, Div(Div(p, img.bs), Pow2(ino.layout.bits))).Ok?
    ensures var bn, bpc := Div(p, img.bs), Pow2(ino.layout.bits);
            FileByte(img, ino, p) ==
            match ChunkEntry(img, ino, Div(bn, bpc)).value
            case Hole => Some(0)
            case At(dev, blk) => ByteAt(img, dev, Addr(blk + Mod(bn, bpc), img.bs, Mod(p, img.bs)))
  {
    hide ByteAt, ChunkEntry, Pow2, Div, Mod;
  }

  /** A position lies in its chunk at its block's place plus its offset. */
  lemma ChunkPosition(p: nat, size: nat, bs: nat, bpc: nat)
    requires bs > 0 && bpc > 0 && p < size
    ensures var bn := Div(p, bs); Addr(Mod(bn, bpc), bs, Mod(p, bs)) < ChunkLen(size, bs * bpc, Div(bn, bpc))
  {
    var bn := Div(p, bs);
    DivMod(p, bs);
    ChunkOffset(p, bn, bs, bpc);
    DivMod(p, bs * bpc);
  }

  /** The runs give chunks 0 to n block by block, each where the copy placed it. */
  ghost predicate Spreads(img: Image, ino: Inode, cs: seq<Chunk>, n: nat)
    requires img.bs > 0 && ino.layout.ChunkBased?
  {
    var bpc := Pow2(ino.layout.bits);
    && Counted(cs) && Total(cs) == n * bpc
    && (forall i :: 0 <= i < n ==> PlacedChunk(img, ino, i).Ok?)
    && (forall b :: 0 <= b < n * bpc ==> SpreadAt(img, ino, cs, b))
  }

  ghost predicate SpreadAt(img: Image, ino: Inode, cs: seq<Chunk>, b: nat)
    requires img.bs > 0 && ino.layout.ChunkBased?
  {
    var i := Div(b, Pow2(ino.layout.bits));
    PlacedChunk(img, ino, i).Ok? && TargetOf(cs, b) == Shift(PlacedChunk(img, ino, i).value, Mod(b, Pow2(ino.layout.bits)))
  }

  lemma SpreadStep(img: Image, ino: Inode, cs: seq<Chunk>, n: nat, more: seq<Chunk>)
    requires img.bs > 0 && ino.layout.ChunkBased? && Spreads(img, ino, cs, n) && PlacedChunk(img, ino, n).Ok?
    requires var bpc := Pow2(ino.layout.bits);
             && Counted(more) && Total(more) == Total(cs) + bpc
             && (forall b :: 0 <= b < Total(cs) ==> TargetOf(more, b) == TargetOf(cs, b))
             && (forall b :: Total(cs) <= b < Total(cs) + bpc ==>
                   TargetOf(more, b) == Shift(PlacedChunk(img, ino, n).value, b - Total(cs)))
    ensures Spreads(img, ino, more, n + 1)
  {
    hide PlacedChunk, TargetOf, Total, Pow2, Counted;
    var bpc := Pow2(ino.layout.bits);
    assert (n + 1) * bpc == n * bpc + bpc;
    forall b | 0 <= b < (n + 1) * bpc ensures SpreadAt(img, ino, more, b) {
      if b < n * bpc {
        assert SpreadAt(img, ino, cs, b);
      } else {
        DivUnique(b, bpc, n, b - n * bpc);
      }
    }
  }

  lemma SpreadsCarry(img: Image, ino: Inode, cs: seq<Chunk>)
    requires img.bs > 0 && WellFormed(img) && ino.layout.ChunkBased? && !ino.layout.wide
    requires img.bs * Pow2(ino.layout.bits) > 0
    requires Spreads(img, ino, cs, CeilDiv(ino.size, img.bs * Pow2(ino.layout.bits)))
    ensures Carries(img, ino, cs, ino.size)
  {
    hide PlacedChunk, TargetOf, Total, Pow2, Counted, FileByte, WellFormed, TargetGives, CeilDiv;
    var bs, bpc := img.bs, Pow2(ino.layout.bits);
    var n := CeilDiv(ino.size, bs * bpc);
    forall p | 0 <= p < ino.size ensures TargetGives(img, ino, p, TargetOf(cs, Div(p, bs))) {
      var bn := Div(p, bs);
      DivMod(p, bs);
      CeilBounds(ino.size, bs * bpc);
      assert bn < n * bpc by {
        assert n * (bs * bpc) == (n * bpc) * bs;
        MulCancel(bn, n * bpc, bs);
      }
      assert SpreadAt(img, ino, cs, bn);
      PlacedChunkByte(img, ino, p);
    }
  }

  /** chunkMapBytes and chunkIndexFits: a map of nchunks entries of either format is not absurd and is there. */
  predicate MapFits(img: Image, ino: Inode, nchunks: nat)
    requires ino.layout.ChunkBased?
  {
    var unit := if ino.layout.indexed then CHUNK_INDEX else 4;
    nchunks * unit <= MAX_CHUNK_INDEX_BYTES && MapBase(ino) + nchunks * unit <= |img.bytes|
  }

  /** What the copy takes of a chunked file: a map that fits, and that its parser takes. */
  predicate MapAccepted(img: Image, ino: Inode)
    requires img.bs > 0 && ino.layout.ChunkBased?
  {
    var chunk := img.bs * Pow2(ino.layout.bits);
    chunk > 0 && MapFits(img, ino, CeilDiv(ino.size, chunk)) && MapParses(img, ino)
  }

  /** What a map's parser takes: narrow addresses, entries that are there, and every chunk where a device holds it. */
  predicate MapParses(img: Image, ino: Inode)
    requires img.bs > 0 && ino.layout.ChunkBased?
  {
    var bpc := Pow2(ino.layout.bits);
    && !ino.layout.wide && img.bs * bpc > 0
    && var n := CeilDiv(ino.size, img.bs * bpc);
       && (ino.layout.indexed ==> bpc <= MAX_COUNT && n * CHUNK_INDEX <= MAX_CHUNK_INDEX_BYTES)
       && MapBase(ino) + n * (if ino.layout.indexed then CHUNK_INDEX else 4) <= |img.bytes|
       && forall i :: 0 <= i < n ==> PlacedChunk(img, ino, i).Ok?
  }

  /** Chunks 0 to n follow one another on one device, in no more blocks than one run counts. */
  ghost predicate ChunksJoin(img: Image, ino: Inode, n: nat)
    requires img.bs > 0 && ino.layout.ChunkBased?
  {
    var bpc := Pow2(ino.layout.bits);
    && n * bpc <= MAX_COUNT && PlacedChunk(img, ino, 0).Ok? && PlacedChunk(img, ino, 0).value.At?
    && forall i :: 0 <= i < n ==> PlacedChunk(img, ino, i) == Ok(Shift(PlacedChunk(img, ino, 0).value, i * bpc))
  }

  /** The runs of chunks that join are one. */
  ghost predicate Joined(img: Image, ino: Inode, cs: seq<Chunk>, i: nat)
    requires img.bs > 0 && ino.layout.ChunkBased? && PlacedChunk(img, ino, 0).Ok? && PlacedChunk(img, ino, 0).value.At?
  {
    var t := PlacedChunk(img, ino, 0).value;
    cs == [Chunk(t.blk, i * Pow2(ino.layout.bits), t.dev)]
  }

  lemma JoinStep(img: Image, ino: Inode, cs: seq<Chunk>, i: nat, n: nat)
    requires img.bs > 0 && ino.layout.ChunkBased? && ChunksJoin(img, ino, n) && i < n && PlacedChunk(img, ino, i).Ok? && PlacedChunk(img, ino, i).value.At?
    requires PlacedChunk(img, ino, 0).value.blk + n * Pow2(ino.layout.bits) < NULL_BLOCK
    requires if i == 0 then cs == [] else Joined(img, ino, cs, i)
    ensures var t := PlacedChunk(img, ino, i).value; Joined(img, ino, Extend(cs, Chunk(t.blk, Pow2(ino.layout.bits), t.dev)), i + 1)
  {
    hide PlacedChunk, Pow2;
    var bpc := Pow2(ino.layout.bits);
    assert (i + 1) * bpc == i * bpc + bpc;
    MulMono(i + 1, n, bpc);
  }

  /** One data run spread over chunks is chunks that join. */
  lemma OneRunJoins(img: Image, ino: Inode, cs: seq<Chunk>, n: nat)
    requires img.bs > 0 && ino.layout.ChunkBased? && Spreads(img, ino, cs, n) && n > 0 && |cs| == 1 && cs[0].phys != NULL_BLOCK
    ensures ChunksJoin(img, ino, n)
  {
    hide PlacedChunk, Pow2, TargetOf, Total;
    var bpc := Pow2(ino.layout.bits);
    assert cs == [cs[0]];
    TargetSingle(cs[0], 0);
    forall i | 0 <= i < n ensures PlacedChunk(img, ino, i) == Ok(RunTarget(cs[0], i * bpc)) {
      MulMono(i + 1, n, bpc);
      assert (i + 1) * bpc == i * bpc + bpc;
      assert SpreadAt(img, ino, cs, i * bpc);
      DivUnique(i * bpc, bpc, i, 0);
      TargetSingle(cs[0], i * bpc);
    }
    assert PlacedChunk(img, ino, 0) == Ok(RunTarget(cs[0], 0 * bpc));
    assert 0 * bpc == 0;
  }

  /** parseChunks: an index map read into runs, a chunk at a time, each joined to the last where it continues it. */
  method ParseChunks(img: Image, ino: Inode) returns (r: Result<seq<Chunk>>)
    requires img.bs > 0 && ino.size > 0 && ino.layout.ChunkBased? && ino.layout.indexed
    ensures r.Ok? <==> MapParses(img, ino)
    ensures r.Ok? ==> !ino.layout.wide && Counted(r.value)
    ensures r.Ok? ==> img.bs * Pow2(ino.layout.bits) > 0 && Spreads(img, ino, r.value, CeilDiv(ino.size, img.bs * Pow2(ino.layout.bits)))
    ensures r.Ok? ==> (OneData(r.value) <==> ChunksJoin(img, ino, CeilDiv(ino.size, img.bs * Pow2(ino.layout.bits))))
  {
    hide PlacedChunk, TargetOf, Total, Pow2, CeilDiv, SpreadAt, ChunksJoin, Joined;
    if ino.layout.wide {
      return Err(NotImplemented);
    }
    var bpc := Pow2(ino.layout.bits);
    var nchunks := CeilDiv(ino.size, img.bs * bpc);
    if bpc > MAX_COUNT || nchunks * CHUNK_INDEX > MAX_CHUNK_INDEX_BYTES {
      return Err(Invalid);
    }
    if MapBase(ino) + nchunks * CHUNK_INDEX > |img.bytes| {
      return Err(Corrupt);
    }
    var cs: seq<Chunk> := [];
    NothingSpread(img, ino);
    for i := 0 to nchunks
      invariant ChunksJoin(img, ino, nchunks) ==> if i == 0 then cs == [] else JoinedTo(img, ino, cs, i)
      invariant Spreads(img, ino, cs, i) && forall k :: 0 <= k < i ==> PlacedChunk(img, ino, k).Ok?
    {
      var t := PlacedChunk(img, ino, i);
      if t.Err? {
        return Err(t.error);
      }
      if t.value.At? {
        PlacedIsBlock(img, ino, i);
      }
      var c := if t.value.Hole? then Chunk(NULL_BLOCK, bpc, 0) else Chunk(t.value.blk, bpc, t.value.dev);
      ghost var was := cs;
      if ChunksJoin(img, ino, nchunks) {
        JoinNext(img, ino, cs, i, nchunks);
      }
      cs := Extend(cs, c);
      forall b ensures 0 <= b < Total(was) ==> TargetOf(cs, b) == TargetOf(was, b)
               ensures Total(was) <= b < Total(was) + bpc ==> TargetOf(cs, b) == Shift(t.value, b - Total(was))
      {
        if b >= 0 {
          ExtendTarget(was, c, b);
        }
      }
      ExtendTarget(was, c, 0);
      SpreadStep(img, ino, was, i, cs);
    }
    CeilIndex(ino.size, img.bs * bpc, 0);
    OneOrMore(img, ino, cs, nchunks);
    return Ok(cs);
  }

  /** The runs are one, and data. */
  predicate OneData(cs: seq<Chunk>) {
    |cs| == 1 && cs[0].phys != NULL_BLOCK
  }

  ghost predicate JoinedTo(img: Image, ino: Inode, cs: seq<Chunk>, i: nat)
    requires img.bs > 0 && ino.layout.ChunkBased?
  {
    PlacedChunk(img, ino, 0).Ok? && PlacedChunk(img, ino, 0).value.At? && Joined(img, ino, cs, i)
  }

  lemma JoinNext(img: Image, ino: Inode, cs: seq<Chunk>, i: nat, n: nat)
    requires img.bs > 0 && ino.layout.ChunkBased? && ChunksJoin(img, ino, n) && i < n && PlacedChunk(img, ino, i).Ok?
    requires if i == 0 then cs == [] else JoinedTo(img, ino, cs, i)
    ensures var t := PlacedChunk(img, ino, i).value; t.At? && JoinedTo(img, ino, Extend(cs, Chunk(t.blk, Pow2(ino.layout.bits), t.dev)), i + 1)
  {
    hide PlacedChunk, Pow2, Joined, Extend;
    PlacedIsBlock(img, ino, 0);
    JoinStep(img, ino, cs, i, n);
  }

  lemma OneOrMore(img: Image, ino: Inode, cs: seq<Chunk>, n: nat)
    requires img.bs > 0 && ino.layout.ChunkBased? && Spreads(img, ino, cs, n) && n > 0
    requires ChunksJoin(img, ino, n) ==> JoinedTo(img, ino, cs, n)
    ensures OneData(cs) <==> ChunksJoin(img, ino, n)
  {
    hide PlacedChunk, Pow2, Spreads, ChunksJoin;
    if ChunksJoin(img, ino, n) {
      PlacedIsBlock(img, ino, 0);
    } else if OneData(cs) {
      OneRunJoins(img, ino, cs, n);
    }
  }


  lemma NothingSpread(img: Image, ino: Inode)
    requires img.bs > 0 && ino.layout.ChunkBased?
    ensures Spreads(img, ino, [], 0)
  {
    hide SpreadAt, PlacedChunk;
    assert 0 * Pow2(ino.layout.bits) == 0;
  }

  /** A placed block is never the null block: its address fits a signed 64-bit offset. */
  lemma PlacedIsBlock(img: Image, ino: Inode, i: nat)
    requires img.bs > 0 && ino.layout.ChunkBased? && PlacedChunk(img, ino, i).Ok? && PlacedChunk(img, ino, i).value.At?
    ensures PlacedChunk(img, ino, i).value.blk <= MAX_INT64
  {
    hide ChunkEntry, MappedDevice;
    var c := ChunkEntry(img, ino, i).value;
    AddrFits(img, c.blk);
    var l := MapDev(img, c.dev, c.blk * img.bs);
    DivMod(l.off, img.bs);
    MulMono(1, img.bs, Div(l.off, img.bs));
  }

  lemma Pow2Is31()
    ensures Pow2(31) == 0x8000_0000 && Pow2(16) == 0x1_0000 && Pow2(15) == 0x8000
  {
    assert Pow2(8) == 256;
    assert Pow2(15) == 32768;
    assert Pow2(24) == 0x100_0000;
  }

  lemma {:induction false} Pow2Bound(n: nat)
    requires n <= 31
    ensures Pow2(n) <= 0x8000_0000
  {
    Pow2Mono(n, 31);
    Pow2Is31();
  }

  lemma {:induction false} Pow2Mono(n: nat, m: nat)
    requires n <= m
    ensures Pow2(n) <= Pow2(m)
  {
    if n < m {
      Pow2Mono(n, m - 1);
    }
  }

  /** parseBlockMap: a map of 4-byte addresses, each chunk's blocks split where a count cannot hold them. */
  method ParseBlockMap(img: Image, ino: Inode) returns (r: Result<seq<Chunk>>)
    requires img.bs > 0 && ino.size > 0 && ino.layout.ChunkBased? && !ino.layout.indexed
    requires ino.layout.bits <= 31
    ensures r.Ok? <==> MapParses(img, ino)
    ensures r.Ok? ==> !ino.layout.wide && Counted(r.value)
    ensures r.Ok? ==> img.bs * Pow2(ino.layout.bits) > 0 && Spreads(img, ino, r.value, CeilDiv(ino.size, img.bs * Pow2(ino.layout.bits)))
    ensures r.Ok? ==> var n := CeilDiv(ino.size, img.bs * Pow2(ino.layout.bits)); OneData(r.value) <==> n == 1 && ChunksJoin(img, ino, n)
  {
    hide PlacedChunk, TargetOf, Total, Pow2, CeilDiv, SpreadAt, ChunksJoin;
    if ino.layout.wide {
      return Err(NotImplemented);
    }
    var bpc := Pow2(ino.layout.bits);
    Pow2Bound(ino.layout.bits);
    var nchunks := CeilDiv(ino.size, img.bs * bpc);
    if MapBase(ino) + nchunks * 4 > |img.bytes| {
      return Err(Corrupt);
    }
    var cs: seq<Chunk> := [];
    NothingSpread(img, ino);
    for i := 0 to nchunks
      invariant Spreads(img, ino, cs, i) && forall k :: 0 <= k < i ==> PlacedChunk(img, ino, k).Ok?
      invariant (i == 0 ==> cs == []) && |cs| >= i && (i == 1 ==> (OneData(cs) <==> bpc <= MAX_COUNT && PlacedChunk(img, ino, 0).value.At?))
    {
      var t := PlacedChunk(img, ino, i);
      if t.Err? {
        return Err(t.error);
      }
      if t.value.At? {
        PlacedIsBlock(img, ino, i);
      }
      var start, dev := if t.value.Hole? then NULL_BLOCK else t.value.blk, if t.value.Hole? then 0 else t.value.dev;
      var more := DeviceChunks(start, bpc, dev);
      forall b ensures 0 <= b < Total(cs) ==> TargetOf(cs + more, b) == TargetOf(cs, b)
               ensures Total(cs) <= b < Total(cs) + bpc ==> TargetOf(cs + more, b) == Shift(t.value, b - Total(cs))
      {
        if b >= 0 {
          TargetConcat(cs, more, b);
        }
      }
      SomeRun(more);
      if i == 0 {
        assert cs + more == more;
      }
      TotalConcat(cs, more);
      SpreadStep(img, ino, cs, i, cs + more);
      cs := cs + more;
    }
    CeilIndex(ino.size, img.bs * bpc, 0);
    if nchunks == 1 {
      OneChunk(img, ino);
    }
    return Ok(cs);
  }

  lemma SomeRun(cs: seq<Chunk>)
    requires Total(cs) > 0
    ensures |cs| > 0
  {
  }

  lemma OneChunk(img: Image, ino: Inode)
    requires img.bs > 0 && ino.layout.ChunkBased? && PlacedChunk(img, ino, 0).Ok?
    ensures ChunksJoin(img, ino, 1) <==> Pow2(ino.layout.bits) <= MAX_COUNT && PlacedChunk(img, ino, 0).value.At?
  {
    hide PlacedChunk, Pow2;
    assert 0 * Pow2(ino.layout.bits) == 0;
  }

  // ---- Flat files ----

  /** Where erofs_map_dev lands a block of the primary device. */
  function MappedBlock(img: Image, blk: nat): Target
    requires img.bs > 0
  {
    var l := MapDev(img, 0, blk * img.bs);
    At(l.dev, Div(l.off, img.bs))
  }

  predicate InRange(d: Device, blk: nat) {
    d.mapped != 0 && d.mapped <= blk < d.mapped + d.blocks
  }

  lemma MappedBlockIs(img: Image, blk: nat, i: nat)
    requires WellFormed(img) && i < |img.devices| && InRange(img.devices[i], blk)
    ensures MappedBlock(img, blk) == At(i + 1, blk - img.devices[i].mapped)
  {
    var d := img.devices[i];
    BlockInRange(d.mapped, d.blocks, blk, 0, img.bs);
    OneDevice(img, blk * img.bs, i);
    assert blk * img.bs - d.mapped * img.bs == (blk - d.mapped) * img.bs;
    DivUnique((blk - d.mapped) * img.bs, img.bs, blk - d.mapped, 0);
  }

  lemma UnmappedBlockIs(img: Image, blk: nat)
    requires img.bs > 0 && forall i :: 0 <= i < |img.devices| ==> !InRange(img.devices[i], blk)
    ensures MappedBlock(img, blk) == At(0, blk)
  {
    hide MappedDevice;
    var m := MappedDevice(img, blk * img.bs, 0);
    if m.Some? {
      BlockInRange(img.devices[m.value].mapped, img.devices[m.value].blocks, blk, 0, img.bs);
      assert false;
    }
    DivUnique(blk * img.bs, img.bs, blk, 0);
  }

  /** flatRun: the longest run from start, at most blocks long, that lies on one device. */
  method FlatRun(img: Image, start: nat, blocks: nat) returns (run: nat, dev: nat, phys: nat)
    requires img.bs > 0 && blocks > 0
    ensures 0 < run <= blocks && phys <= start
    ensures WellFormed(img) ==> forall b :: start <= b < start + run ==> MappedBlock(img, b) == At(dev, phys + (b - start))
    ensures WellFormed(img) && run < blocks ==> MappedBlock(img, start + run) != At(dev, phys + run)
  {
    hide MappedBlock, WellFormed;
    var next := blocks;
    for i := 0 to |img.devices|
      invariant 0 < next <= blocks
      invariant next < blocks ==> exists j :: 0 <= j < i && img.devices[j].mapped == start + next > start
      invariant forall j, b :: 0 <= j < i && start <= b < start + next ==> !InRange(img.devices[j], b)
    {
      var d := img.devices[i];
      if d.mapped == 0 {
        continue;
      }
      if d.mapped <= start < d.mapped + d.blocks {
        run, dev, phys := Min(blocks, d.mapped + d.blocks - start), i + 1, start - d.mapped;
        if WellFormed(img) {
          forall b | start <= b < start + run ensures MappedBlock(img, b) == At(dev, phys + (b - start)) {
            MappedBlockIs(img, b, i);
          }
          if run < blocks {
            PastDevice(img, start + run, i);
          }
        }
        return;
      }
      if d.mapped > start {
        next := Min(next, d.mapped - start);
      }
    }
    forall b | start <= b < start + next ensures MappedBlock(img, b) == At(0, start + (b - start)) {
      UnmappedBlockIs(img, b);
    }
    if WellFormed(img) && next < blocks {
      var j :| 0 <= j < |img.devices| && img.devices[j].mapped == start + next > start;
      HasBlock(img, j);
      MappedBlockIs(img, start + next, j);
    }
    return next, 0, start;
  }

  /** A block past a device's range is not on the device. */
  lemma PastDevice(img: Image, blk: nat, i: nat)
    requires img.bs > 0 && WellFormed(img) && i < |img.devices| && img.devices[i].mapped + img.devices[i].blocks == blk
    ensures MappedBlock(img, blk).At? && MappedBlock(img, blk).dev != i + 1
  {
    hide MappedDevice;
    BlockInRange(img.devices[i].mapped, img.devices[i].blocks, blk, 0, img.bs);
    assert !MapsTo(img, blk * img.bs, i);
  }

  lemma HasBlock(img: Image, j: nat)
    requires WellFormed(img) && j < |img.devices|
    ensures img.devices[j].blocks > 0
  {
    var d := img.devices[j];
    assert 0 < |d.bytes| == d.blocks * img.bs;
  }

  /** The blocks from start on follow one another on one device. */
  ghost predicate Stretch(img: Image, start: nat, blocks: nat)
    requires img.bs > 0
  {
    forall b :: start <= b < start + blocks ==> MappedBlock(img, b) == Shift(MappedBlock(img, start), b - start)
  }

  /** flatChunks: the blocks from start as runs on the devices erofs_map_dev lands them on. */
  method FlatChunks(img: Image, start: nat, blocks: nat) returns (cs: seq<Chunk>)
    requires img.bs > 0 && start + blocks < NULL_BLOCK
    ensures Counted(cs) && Total(cs) == blocks
    ensures WellFormed(img) ==> forall b :: 0 <= b < blocks ==> TargetOf(cs, b) == MappedBlock(img, start + b)
    ensures WellFormed(img) && 0 < blocks ==> (|cs| == 1 <==> blocks <= MAX_COUNT && Stretch(img, start, blocks))
  {
    hide MappedBlock, WellFormed, TargetOf, Total, Stretch;
    EmptyTotal([]);
    cs := [];
    var at: nat, left: nat := start, blocks;
    while left > 0
      invariant left <= blocks && at == start + (blocks - left) && Counted(cs) && Total(cs) == blocks - left
      invariant WellFormed(img) && blocks <= MAX_COUNT && Stretch(img, start, blocks) && left < blocks ==> left == 0 && |cs| == 1
      invariant WellFormed(img) ==> forall b :: 0 <= b < blocks - left ==> TargetOf(cs, b) == MappedBlock(img, start + b)
    {
      var run, dev, phys := FlatRun(img, at, left);
      var more := DeviceChunks(phys, run, dev);
      TotalConcat(cs, more);
      if WellFormed(img) && Stretch(img, start, blocks) && left == blocks {
        OneStretch(img, start, blocks, run, dev, phys);
        EmptyRuns(cs);
        assert cs + more == more;
      }
      if WellFormed(img) {
        forall b | 0 <= b < blocks - left + run ensures TargetOf(cs + more, b) == MappedBlock(img, start + b) {
          TargetConcat(cs, more, b);
          if b >= Total(cs) {
            assert MappedBlock(img, start + b) == At(dev, phys + (start + b - at));
          }
        }
      }
      cs := cs + more;
      at, left := at + run, left - run;
    }
    if WellFormed(img) && |cs| == 1 {
      OneRunStretch(img, start, blocks, cs);
    }
  }

  lemma EmptyRuns(cs: seq<Chunk>)
    requires Counted(cs) && Total(cs) == 0
    ensures cs == []
  {
  }

  /** A run that stops short of a stretch's end would not be the longest. */
  lemma OneStretch(img: Image, start: nat, blocks: nat, run: nat, dev: nat, phys: nat)
    requires img.bs > 0 && Stretch(img, start, blocks) && 0 < run <= blocks
    requires MappedBlock(img, start) == At(dev, phys)
    requires run < blocks ==> MappedBlock(img, start + run) != At(dev, phys + run)
    ensures run == blocks
  {
    hide MappedBlock;
  }

  lemma OneRunStretch(img: Image, start: nat, blocks: nat, cs: seq<Chunk>)
    requires img.bs > 0 && |cs| == 1 && Counted(cs) && Total(cs) == blocks
    requires forall b :: 0 <= b < blocks ==> TargetOf(cs, b) == MappedBlock(img, start + b)
    ensures blocks <= MAX_COUNT && Stretch(img, start, blocks)
  {
    hide MappedBlock, TargetOf, Total;
    assert cs == [cs[0]];
    TargetSingle(cs[0], 0);
    forall b | start <= b < start + blocks ensures MappedBlock(img, b) == Shift(MappedBlock(img, start), b - start) {
      TargetSingle(cs[0], b - start);
      assert TargetOf(cs, b - start) == MappedBlock(img, start + (b - start));
      assert TargetOf(cs, 0) == MappedBlock(img, start + 0);
      MappedIsBlock(img, b);
    }
  }

  lemma FirstIsData(cs: seq<Chunk>)
    requires TargetOf(cs, 0).At? && Counted(cs)
    ensures OneData(cs) <==> |cs| == 1
  {
  }

  lemma MappedIsBlock(img: Image, blk: nat)
    requires img.bs > 0
    ensures MappedBlock(img, blk).At?
  {
  }

  // ---- The whole file ----

  /** What the copy keeps of a file: its runs, whether they are one, and the inline end no run can name. */
  datatype Copied = Copied(chunks: seq<Chunk>, contiguous: bool, tail: seq<byte>)

  /** The copy stands for the file: its runs carry every byte before the tail, and the tail follows them on a block boundary. */
  ghost predicate Stands(img: Image, ino: Inode, c: Copied)
    requires img.bs > 0
  {
    && |c.tail| <= Min(img.bs, ino.size) && Counted(c.chunks)
    && Carries(img, ino, c.chunks, ino.size - |c.tail|)
    && Denotes(img, ino, ino.size - |c.tail|, c.tail)
    && (c.tail != [] ==> Total(c.chunks) * img.bs == ino.size - |c.tail|)
    && (c.contiguous ==> c.tail == [] && |c.chunks| == 1 && c.chunks[0].phys != NULL_BLOCK)
    && Total(c.chunks) * img.bs + |c.tail| >= ino.size
  }

  /** A block of a flat file, through its mapped place. */
  lemma FlatCarries(img: Image, ino: Inode, cs: seq<Chunk>, n: nat)
    requires img.bs > 0 && WellFormed(img) && !ino.layout.ChunkBased? && !(ino.layout.FlatPlain? && NullStart(ino.start, ino.addr48))
    requires 0 < n == Mapped(img, ino) <= ino.size && LocateRange(img, ino.start * img.bs, n).Ok?
    requires forall b :: 0 <= b < CeilDiv(n, img.bs) ==> TargetOf(cs, b) == MappedBlock(img, ino.start + b)
    ensures Carries(img, ino, cs, n)
  {
    hide TargetOf, FileByte, Mapped, WellFormed, LocateRange, TargetGives, MappedBlock, NullStart, CeilDiv;
    forall p | 0 <= p < n ensures TargetGives(img, ino, p, TargetOf(cs, Div(p, img.bs))) {
      var bn := Div(p, img.bs);
      DivMod(p, img.bs);
      CeilIndex(n, img.bs, bn);
      FlatGives(img, ino, n, p);
    }
  }

  lemma FlatGives(img: Image, ino: Inode, n: nat, p: nat)
    requires img.bs > 0 && WellFormed(img) && !ino.layout.ChunkBased? && !(ino.layout.FlatPlain? && NullStart(ino.start, ino.addr48))
    requires p < n == Mapped(img, ino) <= ino.size && LocateRange(img, ino.start * img.bs, n).Ok?
    ensures TargetGives(img, ino, p, MappedBlock(img, ino.start + Div(p, img.bs)))
  {
    hide FileByte, Mapped, WellFormed, LocateRange, ByteAt, MapDev, NullStart;
    var bn, off := Div(p, img.bs), Mod(p, img.bs);
    DivMod(p, img.bs);
    FlatBlockByte(img, ino, p);
    MappedBlockByte(img, ino.start + bn, off);
    assert (ino.start + bn) * img.bs == ino.start * img.bs + bn * img.bs;
    RangeFound(img, ino.start * img.bs, n, p);
  }

  lemma MappedBlockByte(img: Image, blk: nat, off: nat)
    requires img.bs > 0 && off < img.bs
    ensures var t := MappedBlock(img, blk);
            t.dev <= |img.devices| && ByteAt(img, 0, blk * img.bs + off) == RawByte(img, t.dev, t.blk * img.bs + off)
  {
    BlockMaps(img, 0, blk, off);
    WholeBlocks(img, 0, blk);
  }

  lemma RangeFound(img: Image, pa: nat, n: nat, k: nat)
    requires WellFormed(img) && LocateRange(img, pa, n).Ok? && k < n
    ensures ByteAt(img, 0, pa + k).Some?
  {
    hide MappedDevice;
    var m := MappedDevice(img, pa, 0);
    if m.Some? {
      assert |img.devices[m.value].bytes| == img.devices[m.value].blocks * img.bs;
    }
    RangeReads(img, 0, pa, n, k);
  }

  /** What the copy takes of n bytes of a flat file's blocks: none, holes, or one range some device holds. */
  predicate BlocksAccepted(img: Image, ino: Inode, n: nat)
    requires img.bs > 0
  {
    || CeilDiv(n, img.bs) == 0
    || (ino.layout.FlatPlain? && NullStart(ino.start, ino.addr48))
    || (BlockAddr(img, ino.start).Ok? && LocateRange(img, BlockAddr(img, ino.start).value, n).Ok?)
  }

  /** Block b of a file on the source's own devices, as the copy places it. */
  function PlacedBlock(img: Image, ino: Inode, b: nat): Target
    requires img.bs > 0
  {
    if ino.layout.ChunkBased? then
      var t := PlacedChunk(img, ino, Div(b, Pow2(ino.layout.bits)));
      if t.Err? then Hole else Shift(t.value, Mod(b, Pow2(ino.layout.bits)))
    else if ino.layout.FlatPlain? && NullStart(ino.start, ino.addr48) then Hole
    else MappedBlock(img, ino.start + b)
  }

  /** The blocks the copy's runs count: every chunk's, or a flat file's whole ones. */
  function PlacedBlocks(img: Image, ino: Inode): nat
    requires img.bs > 0
  {
    if ino.layout.ChunkBased? then
      PositiveChunk(img.bs, ino.layout.bits);
      CeilDiv(ino.size, img.bs * Pow2(ino.layout.bits)) * Pow2(ino.layout.bits)
    else CeilDiv(Mapped(img, ino), img.bs)
  }

  /** The runs are the file's blocks, one for one. */
  ghost predicate Follows(img: Image, ino: Inode, cs: seq<Chunk>)
    requires img.bs > 0
  {
    Total(cs) == PlacedBlocks(img, ino) && forall b :: 0 <= b < PlacedBlocks(img, ino) ==> TargetOf(cs, b) == PlacedBlock(img, ino, b)
  }

  lemma SpreadsFollow(img: Image, ino: Inode, cs: seq<Chunk>)
    requires img.bs > 0 && ino.layout.ChunkBased? && img.bs * Pow2(ino.layout.bits) > 0
    requires Spreads(img, ino, cs, CeilDiv(ino.size, img.bs * Pow2(ino.layout.bits)))
    ensures Follows(img, ino, cs)
  {
    hide PlacedChunk, Pow2, CeilDiv, TargetOf, Total;
    forall b | 0 <= b < PlacedBlocks(img, ino) ensures TargetOf(cs, b) == PlacedBlock(img, ino, b) {
      assert SpreadAt(img, ino, cs, b);
    }
  }

  /** A flat file's blocks follow one another on one device, no more of them than one run counts. */
  ghost predicate BlocksJoin(img: Image, ino: Inode, blocks: nat)
    requires img.bs > 0
  {
    && 0 < blocks <= MAX_COUNT && !(ino.layout.FlatPlain? && NullStart(ino.start, ino.addr48))
    && Stretch(img, ino.start, blocks)
  }

  /** The file is one run of one device: what is copied as contiguous, under a chunk as large as itself. */
  ghost predicate SingleRun(img: Image, ino: Inode)
    requires img.bs > 0
  {
    if ino.layout.ChunkBased? then
      PositiveChunk(img.bs, ino.layout.bits);
      var n := CeilDiv(ino.size, img.bs * Pow2(ino.layout.bits));
      ChunksJoin(img, ino, n) && (ino.layout.indexed || n == 1)
    else ino.layout.FlatPlain? && BlocksJoin(img, ino, CeilDiv(ino.size, img.bs))
  }

  /** The copy of a flat file's whole blocks: holes for the null address, else runs where its blocks are mapped. */
  method CopyBlocks(img: Image, ino: Inode, n: nat) returns (r: Result<seq<Chunk>>)
    requires img.bs > 0 && !ino.layout.ChunkBased? && n == Mapped(img, ino) <= ino.size <= MAX_INT64
    ensures r.Ok? <==> BlocksAccepted(img, ino, n)
    ensures r.Ok? ==> Counted(r.value) && Total(r.value) == CeilDiv(n, img.bs)
    ensures r.Ok? && WellFormed(img) ==> Carries(img, ino, r.value, n)
    ensures r.Ok? && WellFormed(img) ==> forall b :: 0 <= b < CeilDiv(n, img.bs) ==> TargetOf(r.value, b) == PlacedBlock(img, ino, b)
    ensures r.Ok? && WellFormed(img) ==> (OneData(r.value) <==> BlocksJoin(img, ino, CeilDiv(n, img.bs)))
  {
    hide TargetOf, Total, FileByte, WellFormed, LocateRange, NullStart, MappedBlock, Mapped, Stretch;
    var whole := CeilDiv(n, img.bs);
    CeilBounds(n, img.bs);
    if whole == 0 {
      EmptyTotal([]);
      return Ok([]);
    }
    WholeFits(n, whole, img.bs);
    if ino.layout.FlatPlain? && NullStart(ino.start, ino.addr48) {
      var holes := DeviceChunks(NULL_BLOCK, whole, 0);
      NullCarries(img, ino, holes, n);
      return Ok(holes);
    }
    var pa := BlockAddr(img, ino.start);
    if pa.Err? {
      return Err(pa.error);
    }
    var l := LocateRange(img, pa.value, n);
    if l.Err? {
      return Err(l.error);
    }
    AddrFits(img, ino.start);
    MulMono(1, img.bs, ino.start);
    var cs := FlatChunks(img, ino.start, whole);
    if WellFormed(img) {
      FlatCarries(img, ino, cs, n);
      MappedIsBlock(img, ino.start);
      assert TargetOf(cs, 0) == MappedBlock(img, ino.start + 0);
      FirstIsData(cs);
    }
    return Ok(cs);
  }

  lemma WholeFits(n: nat, whole: nat, bs: nat)
    requires bs > 0 && whole * bs < n + bs && whole > 0
    ensures 0 < n && whole <= n
  {
    assert (whole - 1) * bs == whole * bs - bs;
    MulMono(1, bs, whole - 1);
    assert 1 * (whole - 1) <= bs * (whole - 1);
  }

  lemma NullCarries(img: Image, ino: Inode, cs: seq<Chunk>, n: nat)
    requires img.bs > 0 && ino.layout.FlatPlain? && NullStart(ino.start, ino.addr48) && n <= ino.size
    requires forall b :: 0 <= b < CeilDiv(n, img.bs) ==> TargetOf(cs, b) == RunTarget(Chunk(NULL_BLOCK, 0, 0), b)
    ensures Carries(img, ino, cs, n)
  {
    hide TargetOf, FileByte;
    forall p | 0 <= p < n ensures TargetGives(img, ino, p, TargetOf(cs, Div(p, img.bs))) {
      DivMod(p, img.bs);
      CeilIndex(n, img.bs, Div(p, img.bs));
      NullByte(img, ino, p);
    }
  }

  /** What the copy takes: a chunk map, or blocks and a tail that lies beside the inode, in its block and in the image. */
  predicate CopyAccepted(img: Image, ino: Inode)
    requires img.bs > 0
  {
    if ino.layout.ChunkBased? then MapAccepted(img, ino)
    else
      var t := if ino.layout.FlatInline? then TailLen(img, ino) else 0;
      Mod(ino.head, img.bs) + t <= img.bs && BlocksAccepted(img, ino, Mapped(img, ino)) && (t > 0 ==> ino.head + t <= |img.bytes|)
  }

  /** The regular-file arm of copyFromImage. */
  method CopyRegular(img: Image, ino: Inode) returns (r: Result<Copied>)
    requires img.bs > 0 && 0 < ino.size <= MAX_INT64 && (ino.layout.ChunkBased? ==> ino.layout.bits <= 31)
    ensures r.Ok? <==> CopyAccepted(img, ino)
    ensures r.Ok? ==> Counted(r.value.chunks) && |r.value.tail| <= img.bs
    ensures r.Ok? && WellFormed(img) ==> Stands(img, ino, r.value)
    ensures r.Ok? && (WellFormed(img) || ino.layout.ChunkBased?) ==>
              Follows(img, ino, r.value.chunks) && (r.value.contiguous <==> SingleRun(img, ino))
  {
    hide BlocksJoin, ChunksJoin, TargetOf, Total, FileByte, WellFormed, Spreads, Carries, CeilDiv, Mapped, MapParses, MapFits, BlocksAccepted, PlacedBlock, Pow2;
    if ino.layout.ChunkBased? {
      PositiveChunk(img.bs, ino.layout.bits);
      if !MapFits(img, ino, CeilDiv(ino.size, img.bs * Pow2(ino.layout.bits))) {
        return Err(Corrupt);
      }
      var cs;
      if ino.layout.indexed {
        cs := ParseChunks(img, ino);
      } else {
        cs := ParseBlockMap(img, ino);
      }
      if cs.Err? {
        return Err(cs.error);
      }
      SpreadsFollow(img, ino, cs.value);
      if WellFormed(img) {
        SpreadsCarry(img, ino, cs.value);
        SpreadsCover(img, ino, cs.value);
      }
      return Ok(Copied(cs.value, OneData(cs.value), []));
    }
    var n := Mapped(img, ino);
    var tailLen := if ino.layout.FlatInline? then TailLen(img, ino) else 0;
    TailSplit(img, ino);
    if Mod(ino.head, img.bs) + tailLen > img.bs {
      return Err(Corrupt);
    }
    var cs := CopyBlocks(img, ino, n);
    if cs.Err? {
      return Err(cs.error);
    }
    if ino.head + tailLen > |img.bytes| && tailLen > 0 {
      return Err(Corrupt);
    }
    var tail := if tailLen > 0 then img.bytes[ino.head..ino.head + tailLen] else [];
    CeilBounds(n, img.bs);
    if WellFormed(img) && tailLen > 0 {
      TailDenotes(img, ino, tailLen);
    }
    var c := Copied(cs.value, tailLen == 0 && OneData(cs.value), tail);
    return Ok(c);
  }

  lemma SpreadsCover(img: Image, ino: Inode, cs: seq<Chunk>)
    requires img.bs > 0 && ino.layout.ChunkBased? && img.bs * Pow2(ino.layout.bits) > 0
    requires Spreads(img, ino, cs, CeilDiv(ino.size, img.bs * Pow2(ino.layout.bits)))
    ensures Total(cs) * img.bs >= ino.size
  {
    hide SpreadAt, PlacedChunk, Pow2, CeilDiv;
    var n, bpc := CeilDiv(ino.size, img.bs * Pow2(ino.layout.bits)), Pow2(ino.layout.bits);
    CeilBounds(ino.size, img.bs * bpc);
    assert n * (img.bs * bpc) == (n * bpc) * img.bs;
  }

  /** The whole blocks of a flat file and its tail make up its size, and the tail starts on a block. */
  lemma TailSplit(img: Image, ino: Inode)
    requires img.bs > 0 && ino.size > 0 && !ino.layout.ChunkBased?
    ensures var t := if ino.layout.FlatInline? then TailLen(img, ino) else 0;
            && t <= Min(img.bs, ino.size) && Mapped(img, ino) == ino.size - t
            && (t > 0 ==> CeilDiv(Mapped(img, ino), img.bs) * img.bs == Mapped(img, ino))
  {
    if ino.layout.FlatInline? {
      MappedBlocks(img, ino, ino.size - 1);
      DivMod(ino.size - 1, img.bs);
      CeilUnique(Mapped(img, ino), img.bs, Div(ino.size - 1, img.bs));
    }
  }

  lemma TailDenotes(img: Image, ino: Inode, t: nat)
    requires img.bs > 0 && WellFormed(img) && ino.size > 0 && ino.layout.FlatInline?
    requires 0 < t == TailLen(img, ino) <= ino.size && Mod(ino.head, img.bs) + t <= img.bs && ino.head + t <= |img.bytes|
    ensures Denotes(img, ino, ino.size - t, img.bytes[ino.head..ino.head + t])
  {
    hide FileByte, ByteAt, WellFormed, Mapped;
    TailSplit(img, ino);
    NotMapped(img, ino.head);
    var tail := img.bytes[ino.head..ino.head + t];
    forall p | ino.size - t <= p < ino.size ensures FileByte(img, ino, p) == Some(tail[p - (ino.size - t)]) {
      FlatTailByte(img, ino, p);
      ImageByte(img, ino.head + (p - Mapped(img, ino)));
    }
  }
}
