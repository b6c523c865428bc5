/** A flat file's layout as ranges (erofs.go: buildDataRanges, flatPlainRange). */
module FlatRanges {
  import opened Arith
  import opened Bytes
  import opened BlockMap
  import opened DataReader
  import opened Reference
  import opened FileReader
  import opened CopyFile
  import opened Ranges

  /** locateStart: n bytes from the start block on, bounded on the device they start on. */
  function LocateStart(img: Image, ino: Inode, n: nat): Result<Loc>
    requires img.bs > 0
  {
    var pa :- BlockAddr(img, ino.start);
    LocateRange(img, pa, n)
  }

  /** The bytes before the last block. */
  function HeadSize(img: Image, ino: Inode): nat
    requires img.bs > 0 && ino.size > 0
  {
    Addr(Div(ino.size - 1, img.bs), img.bs, 0)
  }

  /** buildDataRanges for the flat layouts: a hole, one range, or the blocks and the tail. */
  function BuildDataRanges(img: Image, ino: Inode): Result<seq<DataRange>>
    requires img.bs > 0 && ino.size > 0 && !ino.layout.ChunkBased?
  {
    if ino.layout.FlatPlain? then
      if NullStart(ino.start, ino.addr48) then Ok([DataRange(0, HOLE_OFFSET, ino.size)])
      else
        var l :- LocateStart(img, ino, ino.size);
        Ok([DataRange(l.dev, l.off, ino.size)])
    else if ino.size <= img.bs then
      if InImage(img, ino.head, ino.size) then Ok([DataRange(0, ino.head, ino.size)]) else Err(Corrupt)
    else
      var head := HeadSize(img, ino);
      var l :- LocateStart(img, ino, head);
      var tail: int := ino.size - head;
      if tail >= 0 && InImage(img, ino.head, tail) then Ok([DataRange(l.dev, l.off, head), DataRange(0, ino.head, tail)]) else Err(Corrupt)
  }

  /** The byte the ranges give a position, on the devices themselves. */
  function RangeByte(img: Image, rs: seq<DataRange>, p: nat): Option<byte> {
    match SpotAt(rs, p)
    case Past => None
    case InHole => Some(0)
    case On(dev, off) => if off >= 0 then RawByte(img, dev, off) else None
  }

  /** The ranges are the file's content verbatim. */
  ghost predicate Verbatim(img: Image, ino: Inode, rs: seq<DataRange>)
    requires img.bs > 0
  {
    forall p :: 0 <= p < ino.size ==> RangeByte(img, rs, p) == FileByte(img, ino, p)
  }

  lemma HeadIs(img: Image, ino: Inode)
    requires img.bs > 0 && ino.size > 0 && ino.layout.FlatInline?
    ensures HeadSize(img, ino) == Mapped(img, ino) < ino.size && ino.size - Mapped(img, ino) == TailLen(img, ino)
    ensures ino.size <= img.bs ==> Mapped(img, ino) == 0
    ensures ino.size > img.bs ==> Mapped(img, ino) > 0
  {
    hide Mod;
    MappedBlocks(img, ino, ino.size - 1);
    DivMod(ino.size - 1, img.bs);
    if ino.size <= img.bs {
      SmallMod(ino.size - 1, img.bs);
    } else {
      MappedBlocks(img, ino, 0);
      FirstBlock(img, ino);
    }
  }

  lemma FirstBlock(img: Image, ino: Inode)
    requires img.bs > 0 && ino.size > img.bs
    ensures Div(ino.size - 1, img.bs) > 0 && HeadSize(img, ino) > 0
  {
    DivMod(ino.size - 1, img.bs);
    if Div(ino.size - 1, img.bs) > 0 {
      MulMono(1, Div(ino.size - 1, img.bs), img.bs);
    }
  }

  /** A located range of blocks holds the file's bytes before the tail. */
  lemma BlocksVerbatim(img: Image, ino: Inode, n: nat, p: nat)
    requires img.bs > 0 && WellFormed(img) && !ino.layout.ChunkBased? && !(ino.layout.FlatPlain? && NullStart(ino.start, ino.addr48))
    requires p < n == Mapped(img, ino) <= ino.size && LocateStart(img, ino, n).Ok?
    ensures var l := LocateStart(img, ino, n).value; RawByte(img, l.dev, l.off + p) == FileByte(img, ino, p) && FileByte(img, ino, p).Some?
  {
    hide FileByte, Mapped, WellFormed, LocateRange, ByteAt, MapDev, NullStart;
    FlatBlockByte(img, ino, p);
    RangeHolds(img, ino.start * img.bs, n);
    RangeReads(img, 0, ino.start * img.bs, n, p);
  }

  /** What a tail's range gives is what the file has there exactly when the tail keeps to its block. */
  lemma TailVerbatim(img: Image, ino: Inode, p: nat)
    requires WellFormed(img) && ino.layout.FlatInline? && Mapped(img, ino) <= p < ino.size && InImage(img, ino.head, ino.size - Mapped(img, ino))
    ensures RawByte(img, 0, ino.head + (p - Mapped(img, ino))) == FileByte(img, ino, p) <==> !TailCrosses(img, ino)
  {
    hide Mapped, TailCrosses, Mod;
    MappedBlocks(img, ino, p);
  }

  /** The ranges cover the file, and give it verbatim exactly when no tail crosses its block. */
  lemma RangesMean(img: Image, ino: Inode)
    requires WellFormed(img) && img.bs > 0 && ino.size > 0 && !ino.layout.ChunkBased? && BuildDataRanges(img, ino).Ok?
    ensures var rs := BuildDataRanges(img, ino).value;
            && Proper(rs) && Sum(rs) == ino.size
            && (Verbatim(img, ino, rs) <==> !(ino.layout.FlatInline? && TailCrosses(img, ino)))
  {
    hide FileByte, WellFormed, LocateStart, TailCrosses, Mapped, HeadSize, SpotAt, RawByte, NullStart, InImage;
    var rs := BuildDataRanges(img, ino).value;
    if ino.layout.FlatPlain? {
      PlainMapped(img, ino);
      SpotSingle(rs[0], 0);
      forall p | 0 <= p < ino.size ensures RangeByte(img, rs, p) == FileByte(img, ino, p) {
        SpotSingle(rs[0], p);
        if NullStart(ino.start, ino.addr48) {
          NullByte(img, ino, p);
        } else {
          BlocksVerbatim(img, ino, ino.size, p);
        }
      }
    } else {
      HeadIs(img, ino);
      InlineMean(img, ino);
    }
  }

  lemma InlineMean(img: Image, ino: Inode)
    requires WellFormed(img) && img.bs > 0 && ino.size > 0 && ino.layout.FlatInline? && BuildDataRanges(img, ino).Ok?
    ensures var rs := BuildDataRanges(img, ino).value;
            Proper(rs) && Sum(rs) == ino.size && (Verbatim(img, ino, rs) <==> !TailCrosses(img, ino))
  {
    hide FileByte, WellFormed, LocateStart, TailCrosses, Mapped, HeadSize, SpotAt, RawByte, InImage, Sum;
    var rs := BuildDataRanges(img, ino).value;
    HeadIs(img, ino);
    RangesAre(img, ino);
    forall p | 0 <= p < ino.size ensures RangeByte(img, rs, p) == FileByte(img, ino, p) <==> (p < Mapped(img, ino) || !TailCrosses(img, ino)) {
      if p < Mapped(img, ino) {
        BlocksVerbatim(img, ino, Mapped(img, ino), p);
        InlineSpot(img, ino, p);
      } else {
        InlineSpot(img, ino, p);
        TailVerbatim(img, ino, p);
      }
    }
    assert Verbatim(img, ino, rs) ==> RangeByte(img, rs, ino.size - 1) == FileByte(img, ino, ino.size - 1);
  }

  lemma RangesAre(img: Image, ino: Inode)
    requires img.bs > 0 && ino.size > 0 && ino.layout.FlatInline? && BuildDataRanges(img, ino).Ok?
    ensures var rs := BuildDataRanges(img, ino).value; Proper(rs) && Sum(rs) == ino.size
    ensures InImage(img, ino.head, ino.size - Mapped(img, ino)) && Mapped(img, ino) <= ino.size
    ensures Mapped(img, ino) > 0 ==> LocateStart(img, ino, Mapped(img, ino)).Ok?
  {
    hide LocateStart, Mapped, HeadSize, InImage;
    HeadIs(img, ino);
    var rs := BuildDataRanges(img, ino).value;
    if |rs| == 2 {
      assert rs[1..] == [rs[1]];
      assert Sum(rs[1..]) == rs[1].size;
    }
  }

  /** Where a position of a flat-inline file falls among its ranges. */
  lemma InlineSpot(img: Image, ino: Inode, p: nat)
    requires img.bs > 0 && p < ino.size && ino.layout.FlatInline? && BuildDataRanges(img, ino).Ok?
    ensures Mapped(img, ino) > 0 ==> LocateStart(img, ino, Mapped(img, ino)).Ok?
    ensures SpotAt(BuildDataRanges(img, ino).value, p) ==
            if p < Mapped(img, ino) then
              var l := LocateStart(img, ino, Mapped(img, ino)).value; On(l.dev, l.off + p)
            else On(0, ino.head + (p - Mapped(img, ino)))
  {
    hide LocateStart, Mapped, HeadSize, InImage, SpotAt;
    HeadIs(img, ino);
    var rs := BuildDataRanges(img, ino).value;
    if |rs| == 2 {
      assert rs == [rs[0]] + [rs[1]];
      SpotConcat([rs[0]], [rs[1]], p);
      SpotSingle(rs[0], p);
      SpotSingle(rs[1], if p < rs[0].size then 0 else p - rs[0].size);
    } else {
      SpotSingle(rs[0], p);
    }
  }

  /** A tail of two bytes that starts in the middle of its two-byte block: Stat gives its range, and no read of it succeeds. */
  lemma CrossingTail()
    ensures var img, ino := Image(2, [1, 2, 3, 4], []), Inode(FlatInline, 2, 0, false, 1);
            && WellFormed(img) && TailCrosses(img, ino)
            && BuildDataRanges(img, ino) == Ok([DataRange(0, 1, 2)]) && LoadBlock(img, ino, 0).Err?
  {
  }
}
