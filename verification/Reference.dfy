/** The reference reader of a file's content, extent by extent (internal/erofsspec/data.go). */
module Reference {
  import opened Arith
  import opened Bytes
  import opened BlockMap
  import opened DataReader

  /** length bytes at logical, read from physical on device, or zeros. */
  datatype Extent = Extent(logical: nat, length: nat, device: nat, physical: nat, hole: bool)

  /** deviceBytes: placed by its first byte, on that device alone. */
  function RefBytes(img: Image, dev: nat, off: nat, n: nat): Result<seq<byte>> {
    if dev > |img.devices| then Err(Corrupt) else ReadFull(img, MapDev(img, dev, off), n)
  }

  /** The bytes before a flat file's inline tail, or the whole of a flat-plain file. */
  function Mapped(img: Image, ino: Inode): nat
    requires img.bs > 0
  {
    if ino.layout.FlatInline? then ino.size - Min(ino.size, TailLen(img, ino)) else ino.size
  }

  /** flatExtents: the blocks at the start block, then the tail beside the inode. */
  function FlatExtents(img: Image, ino: Inode): Result<seq<Extent>>
    requires img.bs > 0 && ino.size > 0 && !ino.layout.ChunkBased?
  {
    if ino.layout.FlatPlain? && NullStart(ino.start, ino.addr48) then Ok([Extent(0, ino.size, 0, 0, true)])
    else
      var mapped := Mapped(img, ino);
      var blocks := if mapped > 0 then [Extent(0, mapped, 0, ino.start * img.bs, false)] else [];
      if ino.layout.FlatPlain? then Ok(blocks)
      else if TailCrosses(img, ino) then Err(Corrupt)
      else Ok(blocks + [Extent(mapped, ino.size - mapped, 0, ino.head, false)])
  }

  function FindExtent(es: seq<Extent>, pos: nat): Option<Extent> {
    if es == [] then None
    else if es[0].logical <= pos < es[0].logical + es[0].length then Some(es[0])
    else FindExtent(es[1..], pos)
  }

  /** chunkExtent: one extent per chunk, from its own index entry. */
  function ChunkExtent(img: Image, ino: Inode, i: nat): Result<Extent>
    requires img.bs > 0 && ino.layout.ChunkBased? && i * (img.bs * Pow2(ino.layout.bits)) < ino.size
  {
    PositiveChunk(img.bs, ino.layout.bits);
    var chunk: nat := img.bs * Pow2(ino.layout.bits);
    var at: nat := i * chunk;
    var length := Min(chunk, ino.size - at);
    var c :- ChunkEntry(img, ino, i);
    Ok(if c.Hole? then Extent(at, length, 0, 0, true) else Extent(at, length, c.dev, Addr(c.blk, img.bs, 0), false))
  }

  /** ExtentAt: the extent that holds a position, with 48-bit chunk addresses left aside as the reader leaves them. */
  function ExtentAt(img: Image, ino: Inode, pos: nat): (r: Result<Extent>)
    requires img.bs > 0 && pos < ino.size
  {
    if ino.layout.ChunkBased? then
      if ino.layout.wide then Err(NotImplemented)
      else
        DivMod(pos, img.bs * Pow2(ino.layout.bits));
        ChunkExtent(img, ino, Div(pos, img.bs * Pow2(ino.layout.bits)))
    else
      var es :- FlatExtents(img, ino);
      var e := FindExtent(es, pos);
      if e.None? then Err(Corrupt) else Ok(e.value)
  }

  // ---- Extents mean what the block map means ----

  /** The byte an extent gives for a position inside it. */
  function ExtentByte(img: Image, e: Extent, pos: nat): Option<byte>
    requires e.logical <= pos
  {
    if e.hole then Some(0) else ByteAt(img, e.device, e.physical + (pos - e.logical))
  }

  lemma ImageByte(img: Image, pa: nat)
    requires WellFormed(img) && pa < |img.bytes|
    ensures ByteAt(img, 0, pa) == Some(img.bytes[pa])
  {
    NotMapped(img, pa);
  }

  /** Where the mapped blocks end and the tail begins. */
  lemma MappedBlocks(img: Image, ino: Inode, pos: nat)
    requires img.bs > 0 && pos < ino.size && ino.layout.FlatInline?
    ensures Mapped(img, ino) + TailLen(img, ino) == ino.size
    ensures IsTail(img, ino, Div(pos, img.bs)) <==> Mapped(img, ino) <= pos
    ensures Mapped(img, ino) <= pos ==> pos == Mapped(img, ino) + Mod(pos, img.bs)
  {
    hide Div, Mod, CeilDiv;
    TailSplit(ino.size, pos, img.bs);
  }

  lemma TailSplit(size: nat, pos: nat, bs: nat)
    requires bs > 0 && pos < size
    ensures var tail := Mod(size - 1, bs) + 1;
            && tail <= size
            && (Div(pos, bs) + 1 == CeilDiv(size, bs) <==> size - tail <= pos)
            && (size - tail <= pos ==> pos == size - tail + Mod(pos, bs))
  {
    hide Div, Mod, CeilDiv;
    BlockEnd(size, pos, bs);
    BlockEnd(size, size - 1, bs);
    var bn, last := Div(pos, bs), Div(size - 1, bs);
    if bn < last {
      MulMono(bn + 1, last, bs);
      assert (bn + 1) * bs == bn * bs + bs;
    }
  }

  /** No mapped range covers a tail beside the inode, as none does where the inode's block starts inside the image. */
  predicate TailUnmapped(img: Image, ino: Inode) {
    ino.layout.FlatInline? ==> MappedDevice(img, ino.head, 0).None?
  }

  lemma TailNotMapped(img: Image, ino: Inode, j: nat)
    requires WellFormed(img) && TailUnmapped(img, ino) && ino.layout.FlatInline? && Mod(ino.head, img.bs) + j < img.bs
    ensures ByteAt(img, 0, ino.head + j) ==
            if ino.head + j < |img.bytes| then Some(img.bytes[ino.head + j]) else None
  {
    hide MappedDevice;
    var blk, o := Div(ino.head, img.bs), Mod(ino.head, img.bs);
    DivMod(ino.head, img.bs);
    BlockMaps(img, 0, blk, o);
    BlockMaps(img, 0, blk, o + j);
  }

  /** What an extent's range must be, and the byte it gives at a later position inside it. */
  ghost predicate Means(img: Image, ino: Inode, e: Extent, pos: nat, p: nat)
    requires img.bs > 0
  {
    && e.logical <= pos <= p < e.logical + e.length <= ino.size
    && ExtentByte(img, e, p) == FileByte(img, ino, p)
  }

  /** The extent a flat file's position falls in. */
  lemma FlatExtentAt(img: Image, ino: Inode, pos: nat)
    requires img.bs > 0 && pos < ino.size && !ino.layout.ChunkBased? && ExtentAt(img, ino, pos).Ok?
    ensures ExtentAt(img, ino, pos).value ==
            if ino.layout.FlatPlain? && NullStart(ino.start, ino.addr48) then Extent(0, ino.size, 0, 0, true)
            else if pos < Mapped(img, ino) then Extent(0, Mapped(img, ino), 0, ino.start * img.bs, false)
            else Extent(Mapped(img, ino), ino.size - Mapped(img, ino), 0, ino.head, false)
    ensures pos >= Mapped(img, ino) ==> ino.layout.FlatInline? && !TailCrosses(img, ino)
  {
    hide TailLen, TailCrosses, NullStart;
    var es := FlatExtents(img, ino).value;
    if |es| == 2 {
      assert es[1..] == [es[1]] && es[1..][1..] == [];
      assert FindExtent(es[1..], pos).Some? ==> FindExtent(es[1..], pos).value == es[1];
    }
  }

  /** A position before the tail of a flat file with data is a block's. */
  lemma FlatBlockByte(img: Image, ino: Inode, p: nat)
    requires img.bs > 0 && p < ino.size && !ino.layout.ChunkBased? && p < Mapped(img, ino)
    requires !(ino.layout.FlatPlain? && NullStart(ino.start, ino.addr48))
    ensures FileByte(img, ino, p) == ByteAt(img, 0, ino.start * img.bs + p)
  {
    hide ByteAt, Mapped, NullStart;
    DivMod(p, img.bs);
    if ino.layout.FlatInline? {
      MappedBlocks(img, ino, p);
    }
    assert (ino.start + Div(p, img.bs)) * img.bs == ino.start * img.bs + Div(p, img.bs) * img.bs;
  }

  lemma FlatTailByte(img: Image, ino: Inode, p: nat)
    requires WellFormed(img) && TailUnmapped(img, ino) && ino.layout.FlatInline? && !TailCrosses(img, ino)
    requires Mapped(img, ino) <= p < ino.size
    ensures FileByte(img, ino, p) == ByteAt(img, 0, ino.head + (p - Mapped(img, ino)))
  {
    MappedBlocks(img, ino, p);
    hide ByteAt, Mapped, TailCrosses;
    TailFits(img, ino, Mod(p, img.bs));
    TailNotMapped(img, ino, Mod(p, img.bs));
  }

  lemma FlatMeans(img: Image, ino: Inode, pos: nat, p: nat)
    requires img.bs > 0 && WellFormed(img) && TailUnmapped(img, ino) && pos < ino.size && !ino.layout.ChunkBased?
    requires var e := ExtentAt(img, ino, pos); e.Ok? && pos <= p < e.value.logical + e.value.length
    ensures Means(img, ino, ExtentAt(img, ino, pos).value, pos, p)
  {
    hide ByteAt, TailCrosses, ExtentAt, WellFormed, FileByte;
    FlatExtentAt(img, ino, pos);
    if ino.layout.FlatPlain? && NullStart(ino.start, ino.addr48) {
      NullByte(img, ino, p);
    } else if pos < Mapped(img, ino) {
      FlatBlockByte(img, ino, p);
    } else {
      FlatTailByte(img, ino, p);
    }
  }

  lemma NullByte(img: Image, ino: Inode, p: nat)
    requires img.bs > 0 && p < ino.size && ino.layout.FlatPlain? && NullStart(ino.start, ino.addr48)
    ensures FileByte(img, ino, p) == Some(0)
  {
  }

  lemma TailFits(img: Image, ino: Inode, off: nat)
    requires img.bs > 0 && !TailCrosses(img, ino) && off < TailLen(img, ino)
    ensures Mod(ino.head, img.bs) + off < img.bs
  {
  }

  lemma ChunkMeans(img: Image, ino: Inode, pos: nat, p: nat)
    requires img.bs > 0 && pos < ino.size && ino.layout.ChunkBased?
    requires var e := ExtentAt(img, ino, pos); e.Ok? && pos <= p < e.value.logical + e.value.length
    ensures Means(img, ino, ExtentAt(img, ino, pos).value, pos, p)
  {
    hide ByteAt, ChunkEntry, Pow2;
    var bs, bpc := img.bs, Pow2(ino.layout.bits);
    var chunk := bs * bpc;
    var i := Div(pos, chunk);
    DivMod(pos, chunk);
    DivUnique(p, chunk, i, p - i * chunk);
    var bn, off := Div(p, bs), Mod(p, bs);
    DivMod(p, bs);
    ChunkOffset(p, bn, bs, bpc);
    var c := ChunkEntry(img, ino, i).value;
    if c.At? {
      assert (c.blk + Mod(bn, bpc)) * bs == c.blk * bs + Mod(bn, bpc) * bs;
    }
  }

  /** The extent at pos cannot be found, or its device does not hold its bytes from pos up to its end or the range's. */
  predicate PieceFails(img: Image, ino: Inode, off: nat, n: nat, pos: nat)
    requires img.bs > 0 && pos < ino.size
  {
    var limit := off + n;
    var e := ExtentAt(img, ino, pos);
    e.Err? ||
    (!e.value.hole && e.value.logical <= pos < e.value.logical + e.value.length && pos <= limit &&
     RefBytes(img, e.value.device, e.value.physical + (pos - e.value.logical), Min(e.value.logical + e.value.length, limit) - pos).Err?)
  }

  /** The device a position of an extent lies on. */
  function ExtentDev(img: Image, e: Extent, p: nat): nat
    requires e.logical <= p
  {
    MapDev(img, e.device, e.physical + (p - e.logical)).dev
  }

  /** p and the next position lie in one extent, on two devices. */
  predicate Splits(img: Image, ino: Inode, p: nat)
    requires img.bs > 0 && p < ino.size
  {
    var e := ExtentAt(img, ino, p);
    && e.Ok? && !e.value.hole && e.value.logical <= p && p + 1 < e.value.logical + e.value.length
    && ExtentDev(img, e.value, p) != ExtentDev(img, e.value, p + 1)
  }

  /** Every byte of the range denotes something, no extent splits inside it, and no tail runs past the inode's block. */
  ghost predicate Whole(img: Image, ino: Inode, off: nat, n: nat)
    requires img.bs > 0
  {
    && off + n <= ino.size && (n > 0 && ino.layout.FlatInline? ==> !TailCrosses(img, ino))
    && (forall p :: off <= p < off + n ==> FileByte(img, ino, p).Some?)
    && (forall p :: off <= p && p + 1 < off + n ==> !Splits(img, ino, p))
  }

  /** ReadAt: n bytes from off, every extent the range touches mapped and read on its device. */
  method ReadAt(img: Image, ino: Inode, off: nat, n: nat) returns (r: Result<seq<byte>>)
    requires img.bs > 0
    ensures r.Ok? ==> |r.value| == n && off + n <= ino.size
    ensures r.Err? ==> off + n > ino.size || exists p: nat :: off <= p < off + n <= ino.size && PieceFails(img, ino, off, n, p)
    ensures r.Ok? && WellFormed(img) && TailUnmapped(img, ino) ==> Denotes(img, ino, off, r.value)
    ensures WellFormed(img) && TailUnmapped(img, ino) ==> (r.Ok? <==> Whole(img, ino, off, n))
  {
    hide ExtentAt, RefBytes, FileByte, Means, WellFormed, Splits, TailCrosses, TailUnmapped;
    if off > ino.size || n > ino.size - off {
      return Err(Eof);
    }
    var out := [];
    var pos := off;
    ghost var good := WellFormed(img) && TailUnmapped(img, ino);
    while pos < off + n
      invariant off <= pos <= off + n && |out| == pos - off
      invariant good ==> Denotes(img, ino, off, out)
      invariant good && pos > off ==> (ino.layout.FlatInline? ==> !TailCrosses(img, ino))
      invariant good ==> forall p :: off <= p < pos && p + 1 < off + n ==> !Splits(img, ino, p)
    {
      var e := ExtentAt(img, ino, pos);
      NoExtent(img, ino, pos);
      if e.Err? {
        assert PieceFails(img, ino, off, n, pos);
        return Err(e.error);
      }
      ExtentHolds(img, ino, pos);
      var hi := Min(e.value.logical + e.value.length, off + n);
      var piece := Zeros(hi - pos);
      if !e.value.hole {
        var b := RefBytes(img, e.value.device, e.value.physical + (pos - e.value.logical), hi - pos);
        RefLength(img, e.value.device, e.value.physical + (pos - e.value.logical), hi - pos);
        if b.Err? {
          if good {
            PieceMissing(img, ino, pos, hi - pos);
          }
          assert PieceFails(img, ino, off, n, pos);
          return Err(b.error);
        }
        piece := b.value;
      }
      if good {
        PieceDenotes(img, ino, pos, hi - pos, piece);
        PieceWhole(img, ino, pos, hi - pos);
        DenotesConcat(img, ino, off, out, piece);
      }
      out, pos := out + piece, hi;
    }
    return Ok(out);
  }

  /** Where no extent is found, the byte denotes nothing or the tail crosses. */
  lemma NoExtent(img: Image, ino: Inode, pos: nat)
    requires img.bs > 0 && pos < ino.size
    ensures ExtentAt(img, ino, pos).Err? ==> FileByte(img, ino, pos).None? || (ino.layout.FlatInline? && TailCrosses(img, ino))
    ensures ExtentAt(img, ino, pos).Ok? && ino.layout.FlatInline? ==> !TailCrosses(img, ino)
  {
    hide ByteAt, ChunkEntry, Pow2, NullStart, TailCrosses;
    if ino.layout.ChunkBased? {
      DivMod(pos, img.bs);
      ChunkOffset(pos, Div(pos, img.bs), img.bs, Pow2(ino.layout.bits));
    } else {
      FlatFound(img, ino, pos);
    }
  }

  /** A flat file's every position falls in one of its extents. */
  lemma FlatFound(img: Image, ino: Inode, pos: nat)
    requires img.bs > 0 && pos < ino.size && !ino.layout.ChunkBased?
    ensures ExtentAt(img, ino, pos).Ok? <==> !(ino.layout.FlatInline? && TailCrosses(img, ino))
  {
    hide NullStart, TailCrosses, TailLen;
    var es := FlatExtents(img, ino);
    if es.Ok? && |es.value| == 2 {
      assert es.value[1..] == [es.value[1]];
      assert pos >= Mapped(img, ino) ==> FindExtent(es.value[1..], pos).Some?;
    }
  }

  /** The extent at a position is the extent at every later position inside it. */
  lemma SameExtent(img: Image, ino: Inode, pos: nat, p: nat)
    requires img.bs > 0 && pos < ino.size && ExtentAt(img, ino, pos).Ok?
    requires var e := ExtentAt(img, ino, pos).value; pos <= p < e.logical + e.length
    ensures p < ino.size && ExtentAt(img, ino, p) == ExtentAt(img, ino, pos)
  {
    hide ChunkEntry, Pow2, NullStart, TailCrosses;
    if ino.layout.ChunkBased? {
      var chunk := img.bs * Pow2(ino.layout.bits);
      DivMod(pos, chunk);
      DivUnique(p, chunk, Div(pos, chunk), p - Div(pos, chunk) * chunk);
    } else {
      FlatExtentAt(img, ino, pos);
      FlatFound(img, ino, pos);
      FlatFound(img, ino, p);
      FlatExtentAt(img, ino, p);
    }
  }

  /** A piece read whole splits nowhere, nor at the position that ends it. */
  lemma PieceWhole(img: Image, ino: Inode, pos: nat, n: nat)
    requires img.bs > 0 && WellFormed(img) && pos < ino.size && ExtentAt(img, ino, pos).Ok?
    requires var e := ExtentAt(img, ino, pos).value;
             && e.logical <= pos && pos + n <= e.logical + e.length
             && (e.hole || RefBytes(img, e.device, e.physical + (pos - e.logical), n).Ok?)
    ensures forall p :: pos <= p < pos + n && p < ino.size && (p + 1 < pos + n || pos + n == ExtentAt(img, ino, pos).value.logical + ExtentAt(img, ino, pos).value.length) ==>
              !Splits(img, ino, p)
  {
    hide ExtentAt, WellFormed, MapDev;
    var e := ExtentAt(img, ino, pos).value;
    forall p | pos <= p < pos + n && p < ino.size && (p + 1 < pos + n || pos + n == e.logical + e.length) ensures !Splits(img, ino, p) {
      SameExtent(img, ino, pos, p);
      if p + 1 < pos + n && !e.hole {
        RangeReads(img, e.device, e.physical + (pos - e.logical), n, p - pos);
        RangeReads(img, e.device, e.physical + (pos - e.logical), n, p + 1 - pos);
      }
    }
  }

  /** A piece that cannot be read has a byte that denotes nothing, or splits. */
  lemma PieceMissing(img: Image, ino: Inode, pos: nat, n: nat)
    requires img.bs > 0 && WellFormed(img) && TailUnmapped(img, ino) && pos < ino.size && ExtentAt(img, ino, pos).Ok? && n > 0
    requires var e := ExtentAt(img, ino, pos).value;
             && e.logical <= pos && pos + n <= e.logical + e.length && !e.hole
             && RefBytes(img, e.device, e.physical + (pos - e.logical), n).Err?
    ensures (exists p :: pos <= p < pos + n && FileByte(img, ino, p).None?) ||
            (exists p :: pos <= p && p + 1 < pos + n && p < ino.size && Splits(img, ino, p))
  {
    hide ExtentAt, WellFormed, MapDev, FileByte, TailUnmapped, RefBytes;
    var e := ExtentAt(img, ino, pos).value;
    if (forall p :: pos <= p < pos + n ==> FileByte(img, ino, p).Some?) && (forall p :: pos <= p && p + 1 < pos + n && p < ino.size ==> !Splits(img, ino, p)) {
      OneDeviceRun(img, ino, pos, n - 1);
      ExtentMeans(img, ino, pos, pos + n - 1);
      LastThere(img, e.device, e.physical + (pos - e.logical), n);
      assert false;
    }
  }

  /** Where nothing splits, every position lies on the first one's device. */
  lemma {:induction false} OneDeviceRun(img: Image, ino: Inode, pos: nat, k: nat)
    requires img.bs > 0 && pos < ino.size && ExtentAt(img, ino, pos).Ok?
    requires var e := ExtentAt(img, ino, pos).value; e.logical <= pos && pos + k < e.logical + e.length && !e.hole
    requires forall p :: pos <= p < pos + k && p < ino.size ==> !Splits(img, ino, p)
    ensures var e := ExtentAt(img, ino, pos).value; ExtentDev(img, e, pos + k) == ExtentDev(img, e, pos)
    decreases k
  {
    hide ExtentAt, ExtentDev;
    if k > 0 {
      OneDeviceRun(img, ino, pos, k - 1);
      SameExtent(img, ino, pos, pos + k - 1);
      assert !Splits(img, ino, pos + k - 1);
    }
  }

  /** A range whose last byte is there, on the first one's device, can be read. */
  lemma LastThere(img: Image, dev: nat, pa: nat, n: nat)
    requires n > 0 && MapDev(img, dev, pa + n - 1).dev == MapDev(img, dev, pa).dev && ByteAt(img, dev, pa + n - 1).Some?
    ensures RefBytes(img, dev, pa, n).Ok?
  {
    hide MappedDevice;
  }

  lemma RefLength(img: Image, dev: nat, off: nat, n: nat)
    ensures RefBytes(img, dev, off, n).Ok? ==> |RefBytes(img, dev, off, n).value| == n
  {
  }

  lemma ExtentHolds(img: Image, ino: Inode, pos: nat)
    requires img.bs > 0 && pos < ino.size && ExtentAt(img, ino, pos).Ok?
    ensures var e := ExtentAt(img, ino, pos).value; e.logical <= pos < e.logical + e.length
  {
    if ino.layout.ChunkBased? {
      DivMod(pos, img.bs * Pow2(ino.layout.bits));
    } else {
      FoundHolds(FlatExtents(img, ino).value, pos);
    }
  }

  lemma {:induction false} FoundHolds(es: seq<Extent>, pos: nat)
    ensures var e := FindExtent(es, pos); e.Some? ==> e.value.logical <= pos < e.value.logical + e.value.length
  {
    if es != [] {
      FoundHolds(es[1..], pos);
    }
  }

  /** One piece of the loop: zeros for a hole, or the device's bytes from the piece's start. */
  lemma PieceDenotes(img: Image, ino: Inode, pos: nat, n: nat, piece: seq<byte>)
    requires img.bs > 0 && WellFormed(img) && TailUnmapped(img, ino) && pos < ino.size && |piece| == n
    requires ExtentAt(img, ino, pos).Ok?
    requires var e := ExtentAt(img, ino, pos).value;
             && e.logical <= pos && pos + n <= e.logical + e.length
             && if e.hole then piece == Zeros(n)
                else RefBytes(img, e.device, e.physical + (pos - e.logical), n) == Ok(piece)
    ensures Denotes(img, ino, pos, piece)
  {
    hide ExtentAt, FileByte, RefBytes, WellFormed, Min;
    forall p | pos <= p < pos + n ensures FileByte(img, ino, p) == Some(piece[p - pos]) {
      ExtentMeans(img, ino, pos, p);
      PieceByte(img, ExtentAt(img, ino, pos).value, pos, n, piece, p);
    }
  }

  lemma ExtentMeans(img: Image, ino: Inode, pos: nat, p: nat)
    requires img.bs > 0 && WellFormed(img) && TailUnmapped(img, ino) && pos < ino.size
    requires var e := ExtentAt(img, ino, pos); e.Ok? && pos <= p < e.value.logical + e.value.length
    ensures Means(img, ino, ExtentAt(img, ino, pos).value, pos, p)
  {
    hide ExtentAt, FileByte, Means, WellFormed;
    if ino.layout.ChunkBased? {
      ChunkMeans(img, ino, pos, p);
    } else {
      FlatMeans(img, ino, pos, p);
    }
  }

  lemma PieceByte(img: Image, e: Extent, pos: nat, n: nat, piece: seq<byte>, p: nat)
    requires WellFormed(img) && e.logical <= pos <= p < pos + n && |piece| == n
    requires if e.hole then piece == Zeros(n) else RefBytes(img, e.device, e.physical + (pos - e.logical), n) == Ok(piece)
    ensures ExtentByte(img, e, p) == Some(piece[p - pos])
  {
    hide MapDev, WellFormed, ByteAt;
    if !e.hole {
      RangeReads(img, e.device, e.physical + (pos - e.logical), n, p - pos);
    }
  }

  lemma DenotesConcat(img: Image, ino: Inode, off: nat, a: seq<byte>, b: seq<byte>)
    requires img.bs > 0 && Denotes(img, ino, off, a) && Denotes(img, ino, off + |a|, b)
    ensures Denotes(img, ino, off, a + b)
  {
    hide FileByte;
  }

  // ---- Where the reader and the reference part ----

  /** On the tail beside an inode the reader and the reference agree exactly when the inode's block starts inside the image or no mapped range covers it. */
  lemma TailAgrees(img: Image, ino: Inode, pos: nat)
    requires WellFormed(img) && pos < ino.size && IsTail(img, ino, Div(pos, img.bs)) && !TailCrosses(img, ino)
    ensures Same(LoadBlock(img, ino, pos), RefBytes(img, 0, ino.head + Mod(pos, img.bs), Serves(img, ino, pos))) <==>
            ino.head < |img.bytes| || MappedDevice(img, ino.head, 0).None?
  {
    hide MappedDevice, LoadBlock, TailCrosses, Serves, Mod, IsTail;
    var off, n := Mod(pos, img.bs), Serves(img, ino, pos);
    TailLoad(img, ino, pos);
    ServesSome(img, ino, pos);
    TailFits(img, ino, off + n - 1);
    if ino.head < |img.bytes| {
      NotMapped(img, ino.head);
    }
    TailPlaced(img, ino.head, off, n);
  }

  /** A piece of one block lies where the block does, and a mapped block is on its device whole. */
  lemma TailPlaced(img: Image, head: nat, off: nat, n: nat)
    requires WellFormed(img) && 0 < n && Mod(head, img.bs) + off + n <= img.bs
    ensures var m := MappedDevice(img, head, 0);
            if m.None? then RefBytes(img, 0, head + off, n) == ReadFull(img, Loc(0, head + off), n)
            else RefBytes(img, 0, head + off, n).Ok? && head >= |img.bytes|
  {
    hide MappedDevice;
    var blk, o, m := Div(head, img.bs), Mod(head, img.bs), MappedDevice(img, head, 0);
    DivMod(head, img.bs);
    BlockMaps(img, 0, blk, o);
    BlockMaps(img, 0, blk, o + off);
    BlockScan(img, blk, o, 0);
    if m.Some? {
      var d := img.devices[m.value];
      assert MapsTo(img, blk * img.bs, m.value);
      BlockInRange(d.mapped, d.blocks, blk, 0, img.bs);
      BlockInRange(d.mapped, d.blocks, blk, img.bs - 1, img.bs);
      assert |d.bytes| == d.blocks * img.bs;
    }
  }

  /** An inode at the end of its image, its tail where a device is mapped: the reference reads the device, the reader nothing. */
  lemma TailOnDevice()
    ensures var img, ino := Image(1, [7], [Device([9], 1, 1)]), Inode(FlatInline, 1, 0, false, 1);
            && WellFormed(img) && ExtentAt(img, ino, 0) == Ok(Extent(0, 1, 0, 1, false))
            && RefBytes(img, 0, 1, 1) == Ok([9]) && LoadBlock(img, ino, 0).Err?
  {
    var img, ino := Image(1, [7], [Device([9], 1, 1)]), Inode(FlatInline, 1, 0, false, 1);
    assert ExtentAt(img, ino, 0) == Ok(Extent(0, 1, 0, 1, false)) by {
      FlatFound(img, ino, 0);
      FlatExtentAt(img, ino, 0);
    }
    assert MappedDevice(img, 1, 0) == Some(0);
    assert img.devices[0].bytes[0..1] == [9];
  }

  /** A device longer than its slot says: the reference reads on past the mapped range, the block loader does not. */
  lemma LongDevice()
    ensures var img, ino := Image(1, [7], [Device([1, 2], 1, 1)]), Inode(FlatPlain, 2, 1, false, 0);
            && !WellFormed(img) && ExtentAt(img, ino, 0) == Ok(Extent(0, 2, 0, 1, false))
            && RefBytes(img, 0, 1, 2) == Ok([1, 2]) && LoadBlock(img, ino, 1).Err?
  {
    var img, ino := Image(1, [7], [Device([1, 2], 1, 1)]), Inode(FlatPlain, 2, 1, false, 0);
    assert ExtentAt(img, ino, 0) == Ok(Extent(0, 2, 0, 1, false)) by {
      FlatFound(img, ino, 0);
      FlatExtentAt(img, ino, 0);
    }
    assert MappedDevice(img, 1, 0) == Some(0);
    assert img.devices[0].bytes[0..2] == [1, 2];
    assert MappedDevice(img, 2, 0) == None;
    assert !WellFormed(img) by { assert |img.devices[0].bytes| != img.devices[0].blocks * img.bs; }
  }

  const TWO: Image := Image(1, [7], [Device([1], 1, 1), Device([2], 2, 1)])
  const SPAN: Inode := Inode(FlatPlain, 2, 1, false, 0)

  /** A file that crosses from one mapped range into the next: the block loader reads it, the reference does not. */
  lemma SplitFile()
    ensures WellFormed(TWO) && ExtentAt(TWO, SPAN, 0) == Ok(Extent(0, 2, 0, 1, false))
    ensures RefBytes(TWO, 0, 1, 2).Err? && LoadBlock(TWO, SPAN, 0) == Ok([1]) && LoadBlock(TWO, SPAN, 1) == Ok([2])
  {
    hide *;
    SpanShape();
    SpanExtent();
    SpanLoads(0, 1);
    SpanLoads(1, 2);
  }

  lemma SpanShape()
    ensures WellFormed(TWO) && RefBytes(TWO, 0, 1, 2).Err?
  {
    assert MappedEnd(TWO, 0) <= MappedStart(TWO, 1);
    assert MappedDevice(TWO, 1, 0) == Some(0);
  }

  lemma SpanExtent()
    ensures ExtentAt(TWO, SPAN, 0) == Ok(Extent(0, 2, 0, 1, false))
  {
    hide ExtentAt;
    FlatFound(TWO, SPAN, 0);
    FlatExtentAt(TWO, SPAN, 0);
  }

  lemma SpanByte(pos: nat, value: byte)
    requires pos <= 1 && value == pos + 1
    ensures FileByte(TWO, SPAN, pos) == Some(value)
  {
    hide MappedDevice, CeilDiv;
    assert !IsTail(TWO, SPAN, pos) && Div(pos, 1) == pos && Mod(pos, 1) == 0;
    SpanMapped();
    assert BlockTarget(TWO, SPAN, pos) == Ok(At(0, 1 + pos));
  }

  lemma SpanMapped()
    ensures MappedDevice(TWO, 1, 0) == Some(0) && MappedDevice(TWO, 2, 0) == Some(1)
  {
  }

  lemma SpanLoads(pos: nat, value: byte)
    requires pos <= 1 && value == pos + 1 && WellFormed(TWO)
    ensures LoadBlock(TWO, SPAN, pos) == Ok([value])
  {
    hide LoadBlock, WellFormed, FileByte;
    SpanByte(pos, value);
    assert Serves(TWO, SPAN, pos) == 1;
    assert Readable(TWO, SPAN, pos);
    LoadBlockMeans(TWO, SPAN, pos);
    var data := LoadBlock(TWO, SPAN, pos).value;
    assert FileByte(TWO, SPAN, pos) == Some(data[pos - pos]);
    assert data == [value];
  }

}
