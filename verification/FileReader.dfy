/** An open file: its contiguous fast path, its block loop, and any run of Read calls (erofs.go: openDirect, file.Read). */
module FileReader {
  import opened Arith
  import opened Bytes
  import opened BlockMap
  import opened DataReader
  import opened Reference

  /** The file's bytes are the n from l on of one device. */
  ghost predicate Contiguous(img: Image, ino: Inode, l: Loc)
    requires img.bs > 0
  {
    && l.off + ino.size <= |DeviceBytes(img, l.dev)|
    && Denotes(img, ino, 0, DeviceBytes(img, l.dev)[l.off..l.off + ino.size])
  }

  /** A file whose every position is one address run of a device is contiguous there. */
  lemma RunIsContiguous(img: Image, ino: Inode, dev: nat, pa: nat)
    requires img.bs > 0 && WellFormed(img) && ino.size > 0
    requires forall p :: 0 <= p < ino.size ==> FileByte(img, ino, p) == ByteAt(img, dev, pa + p)
    requires var l := MapDev(img, dev, pa); l.off + ino.size <= |DeviceBytes(img, l.dev)|
    ensures Contiguous(img, ino, MapDev(img, dev, pa))
  {
    hide FileByte, ByteAt, MapDev, WellFormed;
    var l := MapDev(img, dev, pa);
    var b := DeviceBytes(img, l.dev);
    forall p | 0 <= p < ino.size ensures FileByte(img, ino, p) == Some(b[l.off..l.off + ino.size][p]) {
      RangeReads(img, dev, pa, ino.size, p);
    }
  }

  /** Chunks 0 to n of an indexed map follow one another from start on one device. */
  ghost predicate ChunksFollow(img: Image, ino: Inode, n: nat, dev: nat, start: nat)
    requires ino.layout.ChunkBased?
  {
    forall i :: 0 <= i < n ==> ChunkEntry(img, ino, i) == Ok(At(dev, start + i * Pow2(ino.layout.bits)))
  }

  lemma ChunkRunByte(img: Image, ino: Inode, dev: nat, start: nat, p: nat)
    requires img.bs > 0 && p < ino.size && ino.layout.ChunkBased? && !ino.layout.wide
    requires img.bs * Pow2(ino.layout.bits) > 0
    requires ChunksFollow(img, ino, CeilDiv(ino.size, img.bs * Pow2(ino.layout.bits)), dev, start)
    ensures FileByte(img, ino, p) == ByteAt(img, dev, start * img.bs + p)
  {
    hide ChunkEntry, ByteAt, Pow2, CeilDiv;
    var bs, bpc := img.bs, Pow2(ino.layout.bits);
    var bn := Div(p, bs);
    DivMod(p, bs);
    DivMod(bn, bpc);
    ChunkOffset(p, bn, bs, bpc);
    var cn := Div(p, bs * bpc);
    DivMod(p, bs * bpc);
    CeilIndex(ino.size, bs * bpc, cn);
    assert BlockTarget(img, ino, bn) == Ok(At(dev, start + cn * bpc + Mod(bn, bpc)));
    assert start + cn * bpc + Mod(bn, bpc) == start + bn;
    assert (start + bn) * bs == start * bs + bn * bs;
  }

  /** When a chunked file is served directly: a readable index map, no hole, every chunk behind the last on one device that holds the whole size. */
  ghost predicate ChunksDirect(img: Image, ino: Inode)
    requires img.bs > 0 && ino.layout.ChunkBased?
  {
    var chunk := img.bs * Pow2(ino.layout.bits);
    && ino.layout.indexed && !ino.layout.wide && chunk > 0
    && var n := CeilDiv(ino.size, chunk);
       && n * 8 <= MAX_CHUNK_INDEX_BYTES && AlignUp(ino.head, 8) + n * 8 <= |img.bytes|
       && var c := ChunkEntry(img, ino, 0);
          && c.Ok? && c.value.At? && ChunksFollow(img, ino, n, c.value.dev, c.value.blk)
          && var pa := BlockAddr(img, c.value.blk);
             && pa.Ok?
             && var l := Locate(img, c.value.dev, pa.value);
                l.Ok? && BoundOnDevice(img, l.value, ino.size)
  }

  /** openDirect for a chunked file: its whole index read, accepted when every chunk follows the one before. */
  method OpenDirectChunks(img: Image, ino: Inode) returns (r: Option<Loc>)
    requires img.bs > 0 && ino.size > 0 && ino.layout.ChunkBased?
    ensures r.Some? <==> ChunksDirect(img, ino)
    ensures r.Some? && WellFormed(img) ==> Contiguous(img, ino, r.value)
  {
    hide ChunkEntry, ByteAt, Pow2, CeilDiv, WellFormed, FileByte, MapDev, Contiguous;
    if !ino.layout.indexed || ino.layout.wide {
      return None;
    }
    var chunk := img.bs * Pow2(ino.layout.bits);
    var nchunks := CeilDiv(ino.size, chunk);
    CeilIndex(ino.size, chunk, 0);
    var base := AlignUp(ino.head, 8);
    if nchunks * 8 > MAX_CHUNK_INDEX_BYTES || base + nchunks * 8 > |img.bytes| {
      return None;
    }
    var start: nat, dev: nat := 0, 0;
    for i := 0 to nchunks
      invariant ChunksFollow(img, ino, i, dev, start)
      invariant i > 0 ==> ChunkEntry(img, ino, 0) == Ok(At(dev, start))
    {
      var c := ChunkEntry(img, ino, i);
      if c.Err? || c.value.Hole? {
        return None;
      }
      if i == 0 {
        start, dev := c.value.blk, c.value.dev;
        assert 0 * Pow2(ino.layout.bits) == 0;
      } else if c.value.blk != start + i * Pow2(ino.layout.bits) || c.value.dev != dev {
        return None;
      }
    }
    var pa := BlockAddr(img, start);
    if pa.Err? {
      return None;
    }
    var l := Locate(img, dev, pa.value);
    if l.Err? || !BoundOnDevice(img, l.value, ino.size) {
      return None;
    }
    if WellFormed(img) {
      forall p | 0 <= p < ino.size ensures FileByte(img, ino, p) == ByteAt(img, dev, pa.value + p) {
        ChunkRunByte(img, ino, dev, start, p);
      }
      BoundHolds(img, l.value, ino.size);
      RunIsContiguous(img, ino, dev, pa.value);
    }
    return Some(l.value);
  }

  lemma BoundHolds(img: Image, l: Loc, n: nat)
    requires WellFormed(img) && BoundOnDevice(img, l, n) && n > 0
    ensures l.off + n <= |DeviceBytes(img, l.dev)|
  {
    if l.dev > 0 {
      assert |img.devices[l.dev - 1].bytes| == img.devices[l.dev - 1].blocks * img.bs;
    }
  }

  /** A device that reports no bytes and counts no blocks bounds nothing: the one place where an accepted range is not a range of the device. */
  lemma BoundIsExact(img: Image, l: Loc, n: nat)
    requires img.bs > 0 && 0 < l.dev <= |img.devices| && n > 0
    requires |img.devices[l.dev - 1].bytes| == img.devices[l.dev - 1].blocks * img.bs <= MAX_INT64
    ensures BoundOnDevice(img, l, n) <==>
              l.off + n <= |DeviceBytes(img, l.dev)| || (img.devices[l.dev - 1].blocks == 0 && l.off + n <= MAX_INT64)
  {
    if img.devices[l.dev - 1].blocks > 0 {
      MulMono(1, img.devices[l.dev - 1].blocks, img.bs);
    }
  }

  lemma RangeHolds(img: Image, pa: nat, n: nat)
    requires WellFormed(img) && LocateRange(img, pa, n).Ok? && n > 0
    ensures LocateRange(img, pa, n).value == MapDev(img, 0, pa)
    ensures var l := MapDev(img, 0, pa); l.off + n <= |DeviceBytes(img, l.dev)|
  {
    hide MappedDevice;
    var m := MappedDevice(img, pa, 0);
    if m.Some? {
      assert |img.devices[m.value].bytes| == img.devices[m.value].blocks * img.bs;
    }
  }

  /** When a file is served directly: one range of a device holds it whole. */
  ghost predicate Direct(img: Image, ino: Inode)
    requires img.bs > 0
  {
    && ino.size > 0
    && match ino.layout
       case FlatPlain =>
         !NullStart(ino.start, ino.addr48) && BlockAddr(img, ino.start).Ok? && LocateRange(img, BlockAddr(img, ino.start).value, ino.size).Ok?
       case FlatInline => ino.size <= img.bs && Mod(ino.head, img.bs) + ino.size <= img.bs && InImage(img, ino.head, ino.size)
       case ChunkBased(_, _, _) => ChunksDirect(img, ino)
  }

  /** openDirect: one device range holding the whole file, or None where the layout is not one. */
  method OpenDirect(img: Image, ino: Inode) returns (r: Option<Loc>)
    requires img.bs > 0
    ensures r.Some? <==> Direct(img, ino)
    ensures r.Some? && WellFormed(img) ==> Contiguous(img, ino, r.value)
  {
    hide FileByte, MapDev, WellFormed, Contiguous, ByteAt, LocateRange, Mapped, ChunksDirect;
    if ino.size == 0 {
      return None;
    }
    match ino.layout
    case FlatPlain =>
      if NullStart(ino.start, ino.addr48) {
        return None;
      }
      var pa := BlockAddr(img, ino.start);
      if pa.Err? {
        return None;
      }
      var l := LocateRange(img, pa.value, ino.size);
      if l.Err? {
        return None;
      }
      if WellFormed(img) {
        PlainMapped(img, ino);
        forall p | 0 <= p < ino.size ensures FileByte(img, ino, p) == ByteAt(img, 0, pa.value + p) {
          FlatBlockByte(img, ino, p);
        }
        RangeHolds(img, pa.value, ino.size);
        RunIsContiguous(img, ino, 0, pa.value);
      }
      return Some(l.value);
    case FlatInline =>
      if ino.size > img.bs || Mod(ino.head, img.bs) + ino.size > img.bs || !InImage(img, ino.head, ino.size) {
        return None;
      }
      if WellFormed(img) {
        InlineWhole(img, ino);
        forall p | 0 <= p < ino.size ensures FileByte(img, ino, p) == ByteAt(img, 0, ino.head + p) {
          FlatTailByte(img, ino, p);
        }
        RunIsContiguous(img, ino, 0, ino.head);
      }
      return Some(Loc(0, ino.head));
    case ChunkBased(_, _, _) =>
      r := OpenDirectChunks(img, ino);
  }

  lemma PlainMapped(img: Image, ino: Inode)
    requires img.bs > 0 && ino.layout.FlatPlain?
    ensures Mapped(img, ino) == ino.size
  {
  }

  /** A flat-inline file of at most a block is all tail, and its inode's block is the image's. */
  lemma InlineWhole(img: Image, ino: Inode)
    requires img.bs > 0 && WellFormed(img) && ino.layout.FlatInline?
    requires 0 < ino.size <= img.bs && Mod(ino.head, img.bs) + ino.size <= img.bs && InImage(img, ino.head, ino.size)
    ensures Mapped(img, ino) == 0 && !TailCrosses(img, ino) && TailUnmapped(img, ino)
    ensures MapDev(img, 0, ino.head) == Loc(0, ino.head) && ino.head + ino.size <= |img.bytes|
  {
    SmallMod(ino.size - 1, img.bs);
    NotMapped(img, ino.head);
  }

  // ---- Reading ----

  /** Every byte from pos to the file's end denotes something. */
  ghost predicate AllReadable(img: Image, ino: Inode, pos: nat)
    requires img.bs > 0
  {
    forall p :: pos <= p < ino.size ==> FileByte(img, ino, p).Some?
  }

  /** How many bytes reading from pos gives: whole blocks, up to the file's end or the first block with a byte no device holds. */
  ghost function Avail(img: Image, ino: Inode, pos: nat): nat
    requires img.bs > 0
    decreases if pos < ino.size then ino.size - pos else 0
  {
    if pos >= ino.size || !Readable(img, ino, pos) then 0
    else Serves(img, ino, pos) + Avail(img, ino, pos + Serves(img, ino, pos))
  }

  /** Reading on takes up where reading stopped. */
  lemma {:induction false} AvailRest(img: Image, ino: Inode, pos: nat, k: nat)
    requires img.bs > 0 && k <= Avail(img, ino, pos)
    ensures Avail(img, ino, pos + k) == Avail(img, ino, pos) - k
    ensures pos <= ino.size ==> pos + k <= ino.size
    decreases k
  {
    hide FileByte, Mod;
    if k > 0 {
      var n := Serves(img, ino, pos);
      if k < n {
        ServesRest(img, ino, pos, k);
      } else {
        AvailRest(img, ino, pos + n, k - n);
      }
    }
  }

  lemma ServesRest(img: Image, ino: Inode, pos: nat, k: nat)
    requires img.bs > 0 && pos < ino.size && k < Serves(img, ino, pos)
    ensures pos + k < ino.size && Serves(img, ino, pos + k) == Serves(img, ino, pos) - k
  {
    SameBlock(pos, k, img.bs);
  }

  /** All of the file's rest can be read exactly when every byte of it denotes something. */
  lemma {:induction false} AvailAll(img: Image, ino: Inode, pos: nat)
    requires img.bs > 0 && pos <= ino.size
    ensures Avail(img, ino, pos) <= ino.size - pos
    ensures Avail(img, ino, pos) == ino.size - pos <==> AllReadable(img, ino, pos)
    decreases ino.size - pos
  {
    hide FileByte, Mod;
    if pos < ino.size {
      var n := Serves(img, ino, pos);
      AvailAll(img, ino, pos + n);
      if Readable(img, ino, pos) {
        assert AllReadable(img, ino, pos) <==> AllReadable(img, ino, pos + n);
      }
    }
  }

  class File {
    const img: Image
    const ino: Inode
    var offset: nat
    var direct: Option<Loc>
    var directChecked: bool

    /** The image is one the reader's placement rules agree on. */
    ghost predicate Sound() {
      WellFormed(img)
    }

    ghost predicate Valid()
      reads this
    {
      img.bs > 0 && (Sound() && directChecked && direct.Some? ==> Contiguous(img, ino, direct.value))
    }

    constructor (img: Image, ino: Inode)
      requires img.bs > 0
      ensures Valid() && this.img == img && this.ino == ino && offset == 0
    {
      this.img, this.ino := img, ino;
      offset, direct, directChecked := 0, None, false;
    }

    method DirectReader() returns (r: Option<Loc>)
      requires Valid()
      modifies this`direct, this`directChecked
      ensures Valid() && (r.Some? && Sound() ==> Contiguous(img, ino, r.value))
    {
      if !directChecked {
        var d := OpenDirect(img, ino);
        direct, directChecked := d, true;
      }
      r := direct;
    }

    /** Read into a buffer of len bytes: the file's next bytes, all of them where they can be read. */
    method Read(len: nat) returns (data: seq<byte>, err: Option<Error>)
      requires Valid()
      modifies this
      ensures Valid() && |data| <= len && offset == old(offset) + |data|
      ensures Sound() ==> Denotes(img, ino, old(offset), data) && |data| == Min(len, Avail(img, ino, old(offset)))
      ensures Sound() && old(offset) <= ino.size && AllReadable(img, ino, old(offset)) ==>
                |data| == Min(len, ino.size - old(offset)) && (err == None || err == Some(Eof))
    {
      hide FileByte, WellFormed, LoadBlock, Contiguous, Denotes, Serves, Readable, AllReadable, Avail;
      if Sound() {
        DenotesPrefix(img, ino, offset, [], 0);
        AvailAt(img, ino, offset);
      }
      data, err := [], None;
      var d := DirectReader();
      if d.Some? {
        if offset >= ino.size {
          return [], Some(Eof);
        }
        var n := Min(len, ino.size - offset);
        var b := ReadFull(img, Loc(d.value.dev, d.value.off + offset), n);
        if b.Err? {
          return [], Some(b.error);
        }
        if Sound() {
          DirectSlice(img, ino, d.value, offset, n);
          DirectAll(img, ino, d.value, offset);
        }
        data := b.value;
        offset := offset + n;
        return;
      }
      while |data| < len
        invariant Valid() && |data| <= len && offset == old(offset) + |data|
        invariant old(offset) <= ino.size ==> offset <= ino.size
        invariant Sound() ==> Denotes(img, ino, old(offset), data) && |data| <= Avail(img, ino, old(offset))
        decreases len - |data|
      {
        if Sound() {
          AvailRest(img, ino, old(offset), |data|);
          AvailAt(img, ino, offset);
        }
        if offset >= ino.size {
          return data, Some(Eof);
        }
        var blk := LoadBlock(img, ino, offset);
        ghost var sound := Sound();
        if sound {
          LoadBlockMeans(img, ino, offset);
        }
        LoadLength(img, ino, offset);
        if blk.Err? {
          if sound {
            UnreadableRest(img, ino, old(offset), offset);
          }
          return data, Some(blk.error);
        }
        var copied := blk.value[..Min(len - |data|, |blk.value|)];
        if sound {
          DenotesPrefix(img, ino, offset, blk.value, |copied|);
          DenotesConcat(img, ino, old(offset), data, copied);
        }
        data := data + copied;
        offset := offset + |copied|;
      }
    }

    /** However the reads are sized, together they are the file's bytes from where they began. */
    method ReadMany(lens: seq<nat>) returns (data: seq<byte>)
      requires Valid()
      modifies this
      ensures Valid() && offset == old(offset) + |data|
      ensures Sound() ==> Denotes(img, ino, old(offset), data) && |data| == Min(SumOf(lens), Avail(img, ino, old(offset)))
      ensures Sound() && old(offset) <= ino.size && AllReadable(img, ino, old(offset)) ==>
                |data| == Min(SumOf(lens), ino.size - old(offset))
    {
      hide FileByte, WellFormed, Avail, AllReadable;
      if offset <= ino.size {
        AvailAll(img, ino, offset);
      }
      data := [];
      for i := 0 to |lens|
        invariant Valid() && offset == old(offset) + |data|
        invariant Sound() ==> Denotes(img, ino, old(offset), data) && |data| == Min(SumOf(lens[..i]), Avail(img, ino, old(offset)))
      {
        assert lens[..i + 1][..i] == lens[..i];
        if Sound() {
          AvailRest(img, ino, old(offset), |data|);
        }
        var d, _ := Read(lens[i]);
        if Sound() {
          DenotesConcat(img, ino, old(offset), data, d);
        }
        data := data + d;
      }
      assert lens[..|lens|] == lens;
    }
  }

  lemma SameContent(img: Image, ino: Inode, pos: nat, a: seq<byte>, b: seq<byte>)
    requires img.bs > 0 && Denotes(img, ino, pos, a) && Denotes(img, ino, pos, b)
    ensures a <= b || b <= a
  {
    hide FileByte;
    var n := Min(|a|, |b|);
    forall k | 0 <= k < n ensures a[k] == b[k] {
      assert FileByte(img, ino, pos + k) == Some(a[pos + k - pos]);
    }
  }

  /** Any reads from the start return the reference's content as far as they ask for it, and one read of the whole size returns it all; the reference errs exactly where a byte is missing or an extent splits. */
  method ReadLikeReference(img: Image, ino: Inode, lens: seq<nat>) returns (pieces: seq<byte>, whole: seq<byte>, content: Result<seq<byte>>)
    requires img.bs > 0
    ensures WellFormed(img) ==> Denotes(img, ino, 0, pieces) && |pieces| == Min(SumOf(lens), Avail(img, ino, 0))
    ensures WellFormed(img) && TailUnmapped(img, ino) ==> (content.Ok? <==> Whole(img, ino, 0, ino.size))
    ensures content.Ok? && WellFormed(img) && TailUnmapped(img, ino) ==>
              |content.value| == ino.size && pieces == content.value[..Min(SumOf(lens), ino.size)] && whole == content.value
  {
    hide FileByte, WellFormed, Denotes, Avail, AllReadable, Whole, TailUnmapped;
    content := ReadAt(img, ino, 0, ino.size);
    var f := new File(img, ino);
    pieces := f.ReadMany(lens);
    var g := new File(img, ino);
    var e;
    whole, e := g.Read(ino.size);
    if content.Ok? && WellFormed(img) && TailUnmapped(img, ino) {
      ContentReadable(img, ino, content.value);
      AvailAll(img, ino, 0);
      SameContent(img, ino, 0, pieces, content.value);
      SameContent(img, ino, 0, whole, content.value);
      WithinFile(img, ino, pieces);
    }
  }

  lemma ContentReadable(img: Image, ino: Inode, c: seq<byte>)
    requires img.bs > 0 && Denotes(img, ino, 0, c) && |c| == ino.size
    ensures AllReadable(img, ino, 0)
  {
    hide FileByte;
  }

  lemma WithinFile(img: Image, ino: Inode, data: seq<byte>)
    requires img.bs > 0 && Denotes(img, ino, 0, data)
    ensures |data| <= ino.size
  {
    assert FileByte(img, ino, ino.size) == None;
  }

  lemma DenotesPrefix(img: Image, ino: Inode, pos: nat, data: seq<byte>, n: nat)
    requires img.bs > 0 && n <= |data| && (data == [] || Denotes(img, ino, pos, data))
    ensures Denotes(img, ino, pos, data[..n])
  {
    hide FileByte;
  }

  lemma DirectSlice(img: Image, ino: Inode, l: Loc, off: nat, n: nat)
    requires img.bs > 0 && Contiguous(img, ino, l) && off + n <= ino.size
    ensures l.off + off + n <= |DeviceBytes(img, l.dev)|
    ensures Denotes(img, ino, off, DeviceBytes(img, l.dev)[l.off + off..l.off + off + n])
  {
    hide FileByte;
    var b := DeviceBytes(img, l.dev);
    var s := b[l.off..l.off + ino.size];
    forall p | off <= p < off + n ensures FileByte(img, ino, p) == Some(b[l.off + off..l.off + off + n][p - off]) {
      assert s[p] == b[l.off + p];
    }
  }

  /** A loaded block holds at least a byte and none past the file's end. */
  lemma LoadLength(img: Image, ino: Inode, pos: nat)
    requires img.bs > 0 && pos < ino.size
    ensures LoadBlock(img, ino, pos).Ok? ==> 0 < |LoadBlock(img, ino, pos).value| <= ino.size - pos
  {
    hide BlockTarget, LocateRange, Locate, BoundOnDevice, ChunkEntry, BlockAddr, NullStart;
    BlockEnd(ino.size, pos, img.bs);
  }

  lemma UnreadableRest(img: Image, ino: Inode, from: nat, pos: nat)
    requires img.bs > 0 && WellFormed(img) && from <= pos < ino.size && LoadBlock(img, ino, pos).Err?
    ensures !AllReadable(img, ino, from)
  {
    hide FileByte, LoadBlock, WellFormed;
    LoadBlockMeans(img, ino, pos);
  }

  /** The first block decides whether reading can start. */
  lemma AvailAt(img: Image, ino: Inode, pos: nat)
    requires img.bs > 0
    ensures pos >= ino.size || !Readable(img, ino, pos) ==> Avail(img, ino, pos) == 0
    ensures pos < ino.size && Readable(img, ino, pos) ==> Avail(img, ino, pos) >= Serves(img, ino, pos)
  {
    hide FileByte, Serves;
  }

  lemma DirectAll(img: Image, ino: Inode, l: Loc, pos: nat)
    requires img.bs > 0 && Contiguous(img, ino, l) && pos <= ino.size
    ensures Avail(img, ino, pos) == ino.size - pos
  {
    hide FileByte, Avail;
    AvailAll(img, ino, pos);
  }

  /** A device that reports nothing and counts nothing passes the bound with nothing to read. */
  lemma EmptyDevice()
    ensures var img, l := Image(1, [7], [Device([], 0, 0)]), Loc(1, 0); BoundOnDevice(img, l, 1) && ReadFull(img, l, 1).Err?
  {
  }
}
