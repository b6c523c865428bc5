/** The reader's data path: the block loader, the contiguous fast path and Read (erofs.go). */
module DataReader {
  import opened Arith
  import opened Bytes
  import opened BlockMap

  // ---- Positions ----

  /** How many bytes one block load serves from pos on. */
  function Serves(img: Image, ino: Inode, pos: nat): nat
    requires img.bs > 0 && pos < ino.size
  {
    Min(img.bs - Mod(pos, img.bs), ino.size - pos)
  }

  lemma SameBlock(pos: nat, k: nat, bs: nat)
    requires bs > 0 && Mod(pos, bs) + k < bs
    ensures Div(pos + k, bs) == Div(pos, bs) && Mod(pos + k, bs) == Mod(pos, bs) + k
  {
    DivMod(pos, bs);
    DivUnique(pos + k, bs, Div(pos, bs), Mod(pos, bs) + k);
  }

  /** The length of block bn of a file, in terms of the position asked for. */
  lemma BlockEnd(size: nat, pos: nat, bs: nat)
    requires bs > 0 && pos < size
    ensures var bn, off := Div(pos, bs), Mod(pos, bs);
            && bn < CeilDiv(size, bs)
            && bn * bs + off == pos
            && (bn + 1 == CeilDiv(size, bs) ==> bn * bs < size <= bn * bs + bs && size - bn * bs == Mod(size - 1, bs) + 1)
            && (bn + 1 < CeilDiv(size, bs) ==> bn * bs + bs < size)
  {
    var bn, q := Div(pos, bs), CeilDiv(size, bs);
    DivMod(pos, bs);
    CeilIndex(size, bs, bn);
    CeilIndex(size, bs, bn + 1);
    CeilBounds(size, bs);
    assert (bn + 1) * bs == bn * bs + bs;
    if bn + 1 == q {
      DivUnique(size - 1, bs, bn, size - 1 - bn * bs);
    }
  }

  // ---- loadBlock ----

  /** The block's bytes from pos to its end, or to the end of the file. */
  function LoadBlock(img: Image, ino: Inode, pos: nat): Result<seq<byte>>
    requires img.bs > 0
  {
    var bn, off, nblocks := Div(pos, img.bs), Mod(pos, img.bs), CeilDiv(ino.size, img.bs);
    if bn >= nblocks then Err(Eof)
    else
      var end := if bn + 1 == nblocks then ino.size - bn * img.bs else img.bs;
      if ino.layout.FlatInline? && bn + 1 == nblocks then
        if Mod(ino.head, img.bs) + end > img.bs || off >= end || !InImage(img, ino.head + off, end - off) then Err(Corrupt)
        else ReadFull(img, Loc(0, ino.head + off), end - off)
      else if ino.layout.ChunkBased? then LoadChunkBlock(img, ino, pos, bn, off, end)
      else if off >= end then Err(Corrupt)
      else if ino.layout.FlatPlain? && NullStart(ino.start, ino.addr48) then Ok(Zeros(end - off))
      else
        var pa :- BlockAddr(img, ino.start + bn);
        var l :- LocateRange(img, pa + off, end - off);
        ReadFull(img, l, end - off)
  }

  /** How far into its chunk block bn starts, for a position in it. */
  function IntoChunk(bs: nat, bpc: nat, pos: nat, bn: nat): (n: nat)
    requires bs > 0 && bpc > 0 && bs * bpc > 0 && bn * bs <= pos < bn * bs + bs
    ensures n == Mod(bn, bpc) * bs
  {
    ChunkOffset(pos, bn, bs, bpc);
    bn * bs - Div(pos, bs * bpc) * (bs * bpc)
  }

  function LoadChunkBlock(img: Image, ino: Inode, pos: nat, bn: nat, off: nat, end: int): Result<seq<byte>>
    requires img.bs > 0 && ino.layout.ChunkBased? && off < img.bs && pos == bn * img.bs + off
  {
    if ino.layout.wide then Err(NotImplemented)
    else
      PositiveChunk(img.bs, ino.layout.bits);
      var c :- ChunkEntry(img, ino, Div(pos, img.bs * Pow2(ino.layout.bits)));
      if off >= end then Err(Corrupt)
      else if c.Hole? then Ok(Zeros(end - off))
      else
        var addr :- BlockAddr(img, c.blk);
        var l :- Locate(img, c.dev, addr + IntoChunk(img.bs, Pow2(ino.layout.bits), pos, bn));
        if !BoundOnDevice(img, Loc(l.dev, l.off + off), end - off) then Err(Corrupt)
        else ReadFull(img, Loc(l.dev, l.off + off), end - off)
  }

  /** A position's chunk is its block's, and its block lies Mod(bn, bpc) blocks into the chunk. */
  lemma ChunkOffset(pos: nat, bn: nat, bs: nat, bpc: nat)
    requires bs > 0 && bpc > 0 && bn * bs <= pos < bn * bs + bs
    ensures bs * bpc > 0
    ensures Div(pos, bs * bpc) == Div(bn, bpc)
    ensures bn * bs - Div(bn, bpc) * (bs * bpc) == Mod(bn, bpc) * bs
  {
    var q, r := Div(bn, bpc), Mod(bn, bpc);
    DivMod(bn, bpc);
    assert bn * bs == q * (bs * bpc) + r * bs by {
      assert bn * bs == (q * bpc + r) * bs == q * bpc * bs + r * bs;
      assert q * bpc * bs == q * (bs * bpc);
    }
    assert r * bs + (pos - bn * bs) < bs * bpc by {
      MulMono(r + 1, bpc, bs);
      assert (r + 1) * bs == r * bs + bs && bpc * bs == bs * bpc;
    }
    DivUnique(pos, bs * bpc, q, r * bs + (pos - bn * bs));
  }

  // ---- What a block load means ----

  /** n bytes from off on of block blk as a device holds them. */
  function BlockBytes(img: Image, dev: nat, blk: nat, off: nat, n: nat): Result<seq<byte>> {
    var l := MapDev(img, dev, blk * img.bs);
    ReadFull(img, Loc(l.dev, l.off + off), n)
  }

  lemma BlockBytesMean(img: Image, dev: nat, blk: nat, off: nat, n: nat, k: nat)
    requires k < n && off + n <= img.bs
    ensures var r := BlockBytes(img, dev, blk, off, n);
            && (r.Ok? ==> ByteAt(img, dev, blk * img.bs + off + k) == Some(r.value[k]))
            && (!r.Ok? ==> ByteAt(img, dev, blk * img.bs + off + (n - 1)) == None)
  {
    hide MapDev;
    BlockMaps(img, dev, blk, off + k);
    BlockMaps(img, dev, blk, off + (n - 1));
  }

  /** The flat path's placement agrees with the block's own, whichever way it is bounded. */
  lemma FlatPlacement(img: Image, blk: nat, off: nat, n: nat)
    requires WellFormed(img) && 0 < n && off + n <= img.bs && blk * img.bs <= MAX_INT64
    ensures var l := LocateRange(img, blk * img.bs + off, n);
            (if l.Ok? then ReadFull(img, l.value, n) else Err(Corrupt)) == BlockBytes(img, 0, blk, off, n)
  {
    hide MappedDevice;
    BlockMaps(img, 0, blk, off);
    BlockScan(img, blk, off, 0);
    var m := MappedDevice(img, blk * img.bs, 0);
    if m.Some? {
      assert |img.devices[m.value].bytes| == img.devices[m.value].blocks * img.bs;
      assert MapsTo(img, blk * img.bs, m.value);
    }
  }

  lemma ChunkPlacement(img: Image, dev: nat, blk: nat, off: nat, n: nat)
    requires WellFormed(img) && 0 < n && off + n <= img.bs && blk * img.bs <= MAX_INT64
    ensures var l := Locate(img, dev, blk * img.bs);
            (if l.Ok? && BoundOnDevice(img, Loc(l.value.dev, l.value.off + off), n)
             then ReadFull(img, Loc(l.value.dev, l.value.off + off), n) else Err(Corrupt))
            == BlockBytes(img, dev, blk, off, n)
  {
    hide MappedDevice;
    var l := MapDev(img, dev, blk * img.bs);
    if 0 < l.dev <= |img.devices| {
      assert |img.devices[l.dev - 1].bytes| == img.devices[l.dev - 1].blocks * img.bs;
    }
  }

  lemma FarBlock(img: Image, dev: nat, blk: nat, off: nat, n: nat)
    requires WellFormed(img) && 0 < n && blk * img.bs > MAX_INT64
    ensures BlockBytes(img, dev, blk, off, n) == Err(Corrupt)
  {
    hide MappedDevice;
    var l := MapDev(img, dev, blk * img.bs);
    if 0 < dev <= |img.devices| {
      assert |img.devices[dev - 1].bytes| <= MAX_INT64;
    }
  }

  /** Two loads that succeed on the same requests with the same bytes. */
  predicate Same(a: Result<seq<byte>>, b: Result<seq<byte>>) {
    a.Ok? == b.Ok? && (a.Ok? ==> a.value == b.value)
  }

  function TargetBytes(img: Image, t: Result<Target>, off: nat, n: nat): Result<seq<byte>> {
    if t.Err? then Err(t.error)
    else if t.value.Hole? then Ok(Zeros(n))
    else BlockBytes(img, t.value.dev, t.value.blk, off, n)
  }

  lemma FlatLoad(img: Image, ino: Inode, pos: nat)
    requires img.bs > 0 && WellFormed(img) && pos < ino.size && !ino.layout.ChunkBased? && !IsTail(img, ino, Div(pos, img.bs))
    ensures Same(LoadBlock(img, ino, pos),
                 TargetBytes(img, BlockTarget(img, ino, Div(pos, img.bs)), Mod(pos, img.bs), Serves(img, ino, pos)))
  {
    hide WellFormed, BlockBytes, LocateRange, ReadFull, CeilDiv, Mod;
    var bn, off, n := Div(pos, img.bs), Mod(pos, img.bs), Serves(img, ino, pos);
    BlockEnd(ino.size, pos, img.bs);
    if ino.layout.FlatPlain? && NullStart(ino.start, ino.addr48) {
      return;
    }
    var blk := ino.start + bn;
    AddrFits(img, blk);
    if BlockAddr(img, blk).Ok? {
      FlatPlacement(img, blk, off, n);
    } else {
      FarBlock(img, 0, blk, off, n);
    }
  }

  lemma AddrFits(img: Image, blk: nat)
    requires img.bs > 0
    ensures BlockAddr(img, blk).Ok? <==> blk * img.bs <= MAX_INT64
  {
    var q := MAX_INT64 / img.bs;
    DivMod(MAX_INT64, img.bs);
    if blk <= q {
      MulMono(blk, q, img.bs);
    } else {
      MulMono(q + 1, blk, img.bs);
      assert (q + 1) * img.bs == q * img.bs + img.bs;
    }
  }

  lemma ChunkLoad(img: Image, ino: Inode, pos: nat)
    requires img.bs > 0 && WellFormed(img) && pos < ino.size && ino.layout.ChunkBased?
    ensures Same(LoadBlock(img, ino, pos),
                 TargetBytes(img, BlockTarget(img, ino, Div(pos, img.bs)), Mod(pos, img.bs), Serves(img, ino, pos)))
  {
    hide WellFormed, BlockBytes, Locate, BoundOnDevice, ReadFull, CeilDiv, Mod, ChunkEntry, BlockAddr, Pow2;
    var bn, off, n := Div(pos, img.bs), Mod(pos, img.bs), Serves(img, ino, pos);
    BlockEnd(ino.size, pos, img.bs);
    ChunkOffset(pos, bn, img.bs, Pow2(ino.layout.bits));
    var c := ChunkEntry(img, ino, Div(bn, Pow2(ino.layout.bits)));
    if !ino.layout.wide && c.Ok? && c.value.At? {
      ChunkBlockPlaced(img, c.value.dev, c.value.blk, Mod(bn, Pow2(ino.layout.bits)), off, n);
    }
  }

  /** A chunk's block placed by the reader: the chunk's own address checked, then the block's. */
  lemma ChunkBlockPlaced(img: Image, dev: nat, blk: nat, into: nat, off: nat, n: nat)
    requires WellFormed(img) && 0 < n && off + n <= img.bs
    ensures var addr := BlockAddr(img, blk);
            Same(if addr.Err? then Err(Corrupt)
                 else
                   var l := Locate(img, dev, addr.value + into * img.bs);
                   if l.Ok? && BoundOnDevice(img, Loc(l.value.dev, l.value.off + off), n)
                   then ReadFull(img, Loc(l.value.dev, l.value.off + off), n) else Err(Corrupt),
                 BlockBytes(img, dev, blk + into, off, n))
  {
    hide BlockBytes, ReadFull, MapDev;
    AddrFits(img, blk);
    assert (blk + into) * img.bs == blk * img.bs + into * img.bs;
    if blk * img.bs + into * img.bs <= MAX_INT64 {
      ChunkPlacement(img, dev, blk + into, off, n);
    } else {
      FarBlock(img, dev, blk + into, off, n);
      FarLocate(img, dev, (blk + into) * img.bs, off, n);
    }
  }

  lemma FarLocate(img: Image, dev: nat, pa: nat, off: nat, n: nat)
    requires WellFormed(img) && pa > MAX_INT64
    ensures var l := Locate(img, dev, pa); l.Err? || !BoundOnDevice(img, Loc(l.value.dev, l.value.off + off), n)
  {
    hide MappedDevice;
  }

  lemma TailLoad(img: Image, ino: Inode, pos: nat)
    requires WellFormed(img) && pos < ino.size && IsTail(img, ino, Div(pos, img.bs))
    ensures var off, n := Mod(pos, img.bs), Serves(img, ino, pos);
            Same(LoadBlock(img, ino, pos),
                 if TailCrosses(img, ino) then Err(Corrupt) else ReadFull(img, Loc(0, ino.head + off), n))
    ensures Mod(pos, img.bs) + Serves(img, ino, pos) == TailLen(img, ino)
  {
    BlockEnd(ino.size, pos, img.bs);
  }

  /** All bytes of the block from pos on denote something. */
  ghost predicate Readable(img: Image, ino: Inode, pos: nat)
    requires img.bs > 0 && pos < ino.size
  {
    forall p :: pos <= p < pos + Serves(img, ino, pos) ==> FileByte(img, ino, p).Some?
  }

  lemma ByteOfBlock(img: Image, ino: Inode, pos: nat, k: nat)
    requires img.bs > 0 && pos < ino.size && k < Serves(img, ino, pos)
    ensures var bn, off := Div(pos, img.bs), Mod(pos, img.bs);
            FileByte(img, ino, pos + k) ==
            if IsTail(img, ino, bn) then
              if TailCrosses(img, ino) || ino.head + off + k >= |img.bytes| then None else Some(img.bytes[ino.head + off + k])
            else
              var t := BlockTarget(img, ino, bn);
              if t.Err? then None
              else if t.value.Hole? then Some(0)
              else ByteAt(img, t.value.dev, Addr(t.value.blk, img.bs, off + k))
  {
    hide BlockTarget, TailCrosses, ByteAt, Div, Mod;
    SameBlock(pos, k, img.bs);
  }

  lemma TargetMeans(img: Image, ino: Inode, pos: nat, k: nat)
    requires img.bs > 0 && WellFormed(img) && pos < ino.size && !IsTail(img, ino, Div(pos, img.bs)) && k < Serves(img, ino, pos)
    ensures var n := Serves(img, ino, pos);
            var r := TargetBytes(img, BlockTarget(img, ino, Div(pos, img.bs)), Mod(pos, img.bs), n);
            && (r.Ok? ==> |r.value| == n && FileByte(img, ino, pos + k) == Some(r.value[k]))
            && (r.Err? ==> FileByte(img, ino, pos + (n - 1)).None?)
  {
    hide BlockTarget, FileByte, ByteAt, Div, Mod, IsTail, WellFormed;
    var n, t := Serves(img, ino, pos), BlockTarget(img, ino, Div(pos, img.bs));
    ByteOfBlock(img, ino, pos, k);
    ByteOfBlock(img, ino, pos, n - 1);
    if t.Ok? && t.value.At? {
      BlockBytesMean(img, t.value.dev, t.value.blk, Mod(pos, img.bs), n, k);
    }
  }

  lemma TailMeans(img: Image, ino: Inode, pos: nat, k: nat)
    requires img.bs > 0 && WellFormed(img) && pos < ino.size && IsTail(img, ino, Div(pos, img.bs)) && k < Serves(img, ino, pos)
    ensures var off, n := Mod(pos, img.bs), Serves(img, ino, pos);
            var r := if TailCrosses(img, ino) then Err(Corrupt) else ReadFull(img, Loc(0, ino.head + off), n);
            && (r.Ok? ==> |r.value| == n && FileByte(img, ino, pos + k) == Some(r.value[k]))
            && (r.Err? ==> FileByte(img, ino, pos + (n - 1)).None?)
  {
    hide FileByte, Div, Mod, IsTail, WellFormed, TailCrosses;
    ByteOfBlock(img, ino, pos, k);
    ByteOfBlock(img, ino, pos, Serves(img, ino, pos) - 1);
  }

  lemma LoadByte(img: Image, ino: Inode, pos: nat, k: nat)
    requires WellFormed(img) && pos < ino.size && k < Serves(img, ino, pos)
    ensures var n, r := Serves(img, ino, pos), LoadBlock(img, ino, pos);
            && (r.Ok? ==> |r.value| == n && FileByte(img, ino, pos + k) == Some(r.value[k]))
            && (r.Err? ==> FileByte(img, ino, pos + (n - 1)).None?)
  {
    hide FileByte, Div, Mod, IsTail, TailCrosses, LoadBlock, TargetBytes, BlockTarget, ReadFull;
    if IsTail(img, ino, Div(pos, img.bs)) {
      TailLoad(img, ino, pos);
      TailMeans(img, ino, pos, k);
    } else {
      if ino.layout.ChunkBased? {
        ChunkLoad(img, ino, pos);
      } else {
        FlatLoad(img, ino, pos);
      }
      TargetMeans(img, ino, pos, k);
    }
  }

  /** data is the file's bytes from pos on. */
  ghost predicate Denotes(img: Image, ino: Inode, pos: nat, data: seq<byte>)
    requires img.bs > 0
  {
    forall p :: pos <= p < pos + |data| ==> FileByte(img, ino, p) == Some(data[p - pos])
  }

  lemma ServesSome(img: Image, ino: Inode, pos: nat)
    requires img.bs > 0 && pos < ino.size
    ensures Serves(img, ino, pos) > 0
  {
  }

  /** A block load succeeds exactly when every byte it covers denotes something, and then it is those bytes. */
  lemma LoadBlockMeans(img: Image, ino: Inode, pos: nat)
    requires WellFormed(img) && pos < ino.size
    ensures LoadBlock(img, ino, pos).Ok? <==> Readable(img, ino, pos)
    ensures var r := LoadBlock(img, ino, pos);
            r.Ok? ==> |r.value| == Serves(img, ino, pos) > 0 && Denotes(img, ino, pos, r.value)
  {
    assert img.bs > 0;
    hide *;
    ServesSome(img, ino, pos);
    if LoadBlock(img, ino, pos).Ok? {
      LoadOk(img, ino, pos);
    } else {
      LoadErr(img, ino, pos);
    }
  }

  lemma LoadOk(img: Image, ino: Inode, pos: nat)
    requires WellFormed(img) && img.bs > 0 && pos < ino.size && LoadBlock(img, ino, pos).Ok?
    ensures |LoadBlock(img, ino, pos).value| == Serves(img, ino, pos) && Denotes(img, ino, pos, LoadBlock(img, ino, pos).value)
    ensures Readable(img, ino, pos)
  {
    hide FileByte, LoadBlock, WellFormed, Serves;
    var n, data := Serves(img, ino, pos), LoadBlock(img, ino, pos).value;
    ServesSome(img, ino, pos);
    LoadByte(img, ino, pos, 0);
    forall p | pos <= p < pos + n ensures FileByte(img, ino, p) == Some(data[p - pos]) {
      LoadByte(img, ino, pos, p - pos);
    }
  }

  lemma LoadErr(img: Image, ino: Inode, pos: nat)
    requires WellFormed(img) && img.bs > 0 && pos < ino.size && LoadBlock(img, ino, pos).Err?
    ensures !Readable(img, ino, pos)
  {
    hide FileByte, LoadBlock, WellFormed, Serves;
    ServesSome(img, ino, pos);
    LoadByte(img, ino, pos, Serves(img, ino, pos) - 1);
  }
}
