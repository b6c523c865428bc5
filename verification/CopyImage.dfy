/** A file copied by its block map into an image, the image written, and the copy read through it over the source's devices (mkfs_image.go, writer.go, erofs.go). */
module CopyImage {
  import opened Arith
  import opened Bytes
  import opened BlockMap
  import opened DataReader
  import opened FileReader
  import opened Chunks
  import opened CopyFile
  import opened CopyBack
  import opened Reference
  import opened RangeMap
  import RangeBack
  import W = ImageWriter
  import L = Layout
  import S = Serialise

  /** The item a copied file becomes: its runs on the destination's devices and its tail, under a chunk size that suits them. */
  ghost predicate Copies(src: Image, ino: Inode, copyId: nat, devices: nat, it: W.Item, c: Copied)
    requires src.bs > 0
  {
    && it.body.Runs? && it.body.size == ino.size && it.body.tail == c.tail && it.body.bits <= 31
    && MovedRuns(c.chunks, it.body.runs, copyId) && (it.body.bits == 0 || c.contiguous)
    && (forall i :: 0 <= i < |it.body.runs| && !IsHole(it.body.runs[i]) ==> it.body.runs[i].dev <= devices)
    && (WellFormed(src) ==> Stands(src, ino, c) && (c.contiguous <==> SingleRun(src, ino)))
    && (it.body.bits <= 15 <==> !(c.contiguous && Blocks(src, ino) > LARGE_RUN))
  }

  /** The most blocks of a run whose chunk a run can count again. */
  const LARGE_RUN: nat := 0x8000

  function Blocks(src: Image, ino: Inode): nat
    requires src.bs > 0
  {
    CeilDiv(ino.size, src.bs)
  }

  /** A chunk as large as a file of up to 2^15 blocks has up to 2^15 blocks, and one for a larger file has more. */
  lemma ChunkOfRun(bs: nat, size: nat, bits: nat)
    requires bs > 0 && size > 0 && bits <= 31 && (bits < 31 ==> bs * Pow2(bits) >= size) && (bits > 0 ==> bs * Pow2(bits - 1) < size)
    ensures bits <= 15 <==> CeilDiv(size, bs) <= LARGE_RUN
  {
    hide CeilDiv, Pow2;
    Pow2Is31();
    CeilIndex(size, bs, LARGE_RUN);
    if bits <= 15 {
      Pow2Mono(bits, 15);
      MulMono(Pow2(bits), LARGE_RUN, bs);
      assert Pow2(bits) * bs == bs * Pow2(bits);
    } else {
      Pow2Mono(15, bits - 1);
      MulMono(LARGE_RUN, Pow2(bits - 1), bs);
      assert Pow2(bits - 1) * bs == bs * Pow2(bits - 1);
    }
  }

  /** The copy of one file as an item of the destination, with the metadata given. */
  method CopyItem(src: Image, ino: Inode, copyId: nat, devices: nat, meta: W.Item) returns (r: Result<W.Item>, ghost c: Copied)
    requires src.bs > 0 && 0 < ino.size <= MAX_INT64 && (ino.layout.ChunkBased? ==> ino.layout.bits <= 31) && 0 < copyId
    ensures r.Ok? ==> CopyAccepted(src, ino) && Copies(src, ino, copyId, devices, r.value, c)
    ensures r.Ok? ==> r.value.body.Runs? && r.value.attr == meta.attr && r.value.attrs == meta.attrs && |r.value.body.tail| <= src.bs
    ensures WellFormed(src) || ino.layout.ChunkBased? ==>
              (CopyAccepted(src, ino) && Writable(src, ino, copyId, devices) <==> r.Ok? && W.Near(r.value.body.runs))
  {
    hide Stands, WellFormed, Pow2, Counted, CopyAccepted, Writable, Follows, TailLen, SingleRun;
    var file := CopyRegular(src, ino);
    c := Copied([], false, []);
    if file.Err? {
      return Err(file.error), c;
    }
    c := file.value;
    if WellFormed(src) || ino.layout.ChunkBased? {
      FollowsFit(src, ino, c.chunks, copyId, devices);
    }
    var out := RemapChunkDevices(file.value.chunks, copyId, true, devices);
    if out.Err? {
      assert !RunsFit(c.chunks, copyId, devices);
      return Err(out.error), c;
    }
    assert MovedRuns(c.chunks, out.value, copyId);
    EndsStay(c.chunks, out.value, [], 0, copyId);
    assert WithTail(out.value, [], 0) == out.value;
    assert RunsFit(c.chunks, copyId, devices) <==> W.Near(out.value);
    var bits := 0;
    if file.value.contiguous {
      bits := MinChunkBits(src.bs, ino.size);
      ChunkOfRun(src.bs, ino.size, bits);
    }
    return Ok(W.Item(meta.attr, meta.attrs, W.Runs(ino.size, bits, out.value, file.value.tail))), c;
  }

  /** The inode a reader of the written image decodes for item i. */
  function InodeAt(c: W.Config, items: seq<W.Item>, w: W.Finished, i: nat): Inode
    requires c.bs > 0 && i < |items| == |w.plan| == |w.places|
  {
    W.InodeOf(items[i], c, w.plan[i].how, w.places[i], W.SlotAddr(c, w.metaBlk, w.plan[i]))
  }

  /** The image written for the copied item is one the copy theorem speaks of, over any devices that hold the source. */
  lemma Written(src: Image, ino: Inode, copyId: nat, c: W.Config, items: seq<W.Item>, w: W.Finished, i: nat, copy: Copied, dst: Image)
    requires src.bs > 0 && c.bs > 0 && 0 < ino.size && i < |items| == |w.plan| == |w.places|
    requires W.ItemBack(c, items, w, i) && W.Addressed(w.places[i]) && W.Writable(items[i], c) && c.devices <= 0xFFFF
    requires Copies(src, ino, copyId, c.devices, items[i], copy)
    requires Registers(dst, src, copyId) && |dst.devices| == c.devices && dst.bs == c.bs && dst.bytes == w.image
    requires W.ItemOk(items[i], c)
    ensures WrittenCopy(src, ino, copy, dst, items[i].body.runs, w.places[i].tail, copyId, InodeAt(c, items, w, i))
  {
    hide Registers, MovedRuns, HoldsTail, Stands, IndexMap, CeilDiv, Pow2, W.ItemOk, W.Serves, W.AttrsBack, W.AreaOf, S.HoldsAt, W.XattrsOk, WithTail, HoldsMap;
    var b, tailBlk := items[i].body, w.places[i].tail;
    var full := WithTail(b.runs, b.tail, tailBlk);
    W.HeadOf(items[i], c, w.plan[i].how, w.places[i], W.SlotAddr(c, w.metaBlk, w.plan[i]));
    PositiveChunk(c.bs, b.bits);
    CeilIndex(ino.size, c.bs * Pow2(b.bits), 0);
    SizeIs(items[i], c);
    Limits(b.runs, b.tail, tailBlk, c.devices);
  }

  lemma SizeIs(it: W.Item, c: W.Config)
    requires c.bs > 0 && it.body.Runs? && it.body.size > 0 && c.bs * Pow2(it.body.bits) > 0
    ensures W.MapSize(it, c.bs) == CeilDiv(it.body.size, c.bs * Pow2(it.body.bits)) && W.SizeOf(it, c.bs) == it.body.size
  {
  }

  lemma Limits(runs: seq<Chunk>, tail: seq<byte>, tailBlk: nat, devices: nat)
    requires W.Near(runs) && devices <= 0xFFFF && tailBlk < NULL_ADDR
    requires forall i :: 0 <= i < |runs| && !IsHole(runs[i]) ==> runs[i].dev <= devices
    ensures WithinLimits(WithTail(runs, tail, tailBlk), devices)
  {
  }

  /** The devices a destination reads over: as many as it declares, each whole blocks and unmapped, the source image and its devices from id copyId on. */
  predicate Hosts(src: Image, copyId: nat, devices: seq<Device>, bs: nat) {
    && bs == src.bs > 0 && 0 < copyId && copyId + |src.devices| <= |devices| <= 0xFFFF
    && (forall i :: 0 <= i < |devices| ==> devices[i].mapped == 0 && 0 < |devices[i].bytes| == devices[i].blocks * bs <= MAX_INT64)
    && devices[copyId - 1].bytes == src.bytes
    && forall d :: 0 <= d < |src.devices| ==> devices[copyId + d].bytes == src.devices[d].bytes
  }

  lemma HostRegisters(src: Image, copyId: nat, devices: seq<Device>, image: seq<byte>)
    requires Hosts(src, copyId, devices, src.bs) && 0 < |image| <= MAX_INT64
    ensures var dst := Image(src.bs, image, devices); Registers(dst, src, copyId) && WellFormed(dst)
  {
    var dst := Image(src.bs, image, devices);
    forall d | 0 <= d <= |src.devices| ensures DeviceBytes(dst, copyId + d) == DeviceBytes(src, d) {
      if d > 0 {
        assert devices[copyId + (d - 1)].bytes == src.devices[d - 1].bytes;
      }
    }
  }

  /** A file copied into a new image among other items, and the image written. */
  method WriteCopy(src: Image, ino: Inode, copyId: nat, c: W.Config, items: seq<W.Item>, i: nat, super: seq<byte>)
    returns (item: Result<W.Item>, w: Result<W.Finished>)
    requires 0 < ino.size <= MAX_INT64 && (ino.layout.ChunkBased? ==> ino.layout.bits <= 31) && 0 < copyId && c.devices <= 0xFFFF
    requires W.ConfigOk(c) && src.bs == c.bs && W.SuperSized(c, super) && i < |items|
    requires forall k :: 0 <= k < |items| ==> W.ItemOk(items[k], c)
    ensures item.Ok? ==> item.value.body.Runs?
    ensures WellFormed(src) || ino.layout.ChunkBased? ==>
              (CopyAccepted(src, ino) && Writable(src, ino, copyId, c.devices) <==> item.Ok? && W.Near(item.value.body.runs))
    ensures item.Ok? ==> (w.Ok? <==> W.Accepted(c, items[i := item.value]))
    ensures w.Ok? ==> item.Ok? && |w.value.plan| == |items| == |w.value.places| && |w.value.image| > 0
    ensures w.Ok? && WellFormed(src) ==> Served(src, ino, copyId, c, w.value.image, InodeAt(c, items[i := item.value], w.value, i))
    ensures w.Ok? && WellFormed(src) ==> TakenAgain(src, ino, copyId, c, w.value.image, InodeAt(c, items[i := item.value], w.value, i))
  {
    hide WellFormed, CopyAccepted, Writable, Copies, W.ItemOk, W.Writable, W.TooBig, W.ItemBack, W.Addressed, L.Planned,
         S.SuperBlocks, Registers, InodeAt, W.Near, SameContent, Again, W.SuperSized, W.Accepted, W.Shapes;
    ghost var copied;
    item, copied := CopyItem(src, ino, copyId, c.devices, items[i]);
    if item.Err? {
      return item, Err(item.error);
    }
    var all := items[i := item.value];
    CopiedOk(items[i], item.value, c, ino, src, copyId, copied);
    w := W.WriteItems(c, all, super);
    if w.Ok? {
      W.ImageSome(c, all, w.value, i);
      W.AcceptedAt(c, all, i);
      if WellFormed(src) {
        forall dst | Registers(dst, src, copyId) && |dst.devices| == c.devices && dst.bytes == w.value.image && dst.bs > 0
          ensures SameContent(src, ino, dst, InodeAt(c, all, w.value, i))
        {
          SameBlockSize(dst, src, copyId);
          CopyServed(src, ino, copyId, c, all, w.value, i, copied, dst);
        }
        forall dst | Registers(dst, src, copyId) && |dst.devices| == c.devices && dst.bytes == w.value.image && WellFormed(dst)
          ensures Again(src, ino, dst, InodeAt(c, all, w.value, i))
        {
          SameBlockSize(dst, src, copyId);
          CopyAgain(src, ino, copyId, c, all, w.value, i, copied, dst);
        }
      }
    }
  }

  /** The copy is as long as the source's file and has its byte at every position. */
  ghost predicate SameContent(src: Image, ino: Inode, dst: Image, copy: Inode)
    requires src.bs > 0 && dst.bs > 0
  {
    copy.size == ino.size && forall p :: 0 <= p < ino.size ==> FileByte(src, ino, p).Some? && FileByte(dst, copy, p) == FileByte(src, ino, p)
  }

  /** Over any devices that hold the source from copyId on, the image's inode has the source file's content. */
  ghost predicate Served(src: Image, ino: Inode, copyId: nat, c: W.Config, image: seq<byte>, copy: Inode)
    requires src.bs > 0
  {
    forall dst :: Registers(dst, src, copyId) && |dst.devices| == c.devices && dst.bytes == image && dst.bs > 0 ==> SameContent(src, ino, dst, copy)
  }

  lemma CopyServed(src: Image, ino: Inode, copyId: nat, c: W.Config, items: seq<W.Item>, w: W.Finished, i: nat, copy: Copied, dst: Image)
    requires src.bs > 0 && c.bs > 0 && 0 < ino.size && i < |items| == |w.plan| == |w.places|
    requires W.ItemBack(c, items, w, i) && W.Addressed(w.places[i]) && W.Writable(items[i], c) && c.devices <= 0xFFFF
    requires WellFormed(src) && Copies(src, ino, copyId, c.devices, items[i], copy)
    requires Registers(dst, src, copyId) && |dst.devices| == c.devices && dst.bs == c.bs && dst.bytes == w.image
    requires W.ItemOk(items[i], c)
    ensures SameContent(src, ino, dst, InodeAt(c, items, w, i))
  {
    hide WellFormed, Copies, W.ItemOk, W.Writable, W.ItemBack, W.Addressed, FileByte, Registers, InodeAt, WrittenCopy, Stands;
    StandsIs(src, ino, copyId, c.devices, items[i], copy);
    var ino2, runs, tailBlk := InodeAt(c, items, w, i), items[i].body.runs, w.places[i].tail;
    Written(src, ino, copyId, c, items, w, i, copy, dst);
    SizeSame(src, ino, copy, dst, runs, tailBlk, copyId, ino2);
    forall p | 0 <= p < ino.size ensures FileByte(src, ino, p).Some? && FileByte(dst, ino2, p) == FileByte(src, ino, p) {
      CopyPreservesContent(src, ino, copy, dst, runs, tailBlk, copyId, ino2, p);
    }
  }

  /** The copy opened in the image, over devices that hold the source, and read in pieces of any sizes: the source's bytes, as many as asked for. */
  method ReadCopy(src: Image, ino: Inode, copyId: nat, c: W.Config, image: seq<byte>, copy: Inode, devices: seq<Device>, lens: seq<nat>)
    returns (data: seq<byte>)
    requires Hosts(src, copyId, devices, c.bs) && |devices| == c.devices && 0 < |image| <= MAX_INT64 && Served(src, ino, copyId, c, image, copy)
    ensures |data| == Min(SumOf(lens), ino.size) && Denotes(src, ino, 0, data)
  {
    hide WellFormed, FileByte, Avail, Registers, Denotes, AllReadable, SameContent;
    HostRegisters(src, copyId, devices, image);
    var f := new File(Image(c.bs, image, devices), copy);
    data := f.ReadMany(lens);
    SameFile(src, ino, f.img, copy, data);
  }

  /** Every byte of the copy is there, and is the source's. */
  lemma SameFile(src: Image, ino: Inode, dst: Image, copy: Inode, data: seq<byte>)
    requires src.bs > 0 && dst.bs > 0 && SameContent(src, ino, dst, copy)
    ensures AllReadable(dst, copy, 0) && copy.size == ino.size
    ensures Denotes(dst, copy, 0, data) && |data| <= ino.size ==> Denotes(src, ino, 0, data)
  {
    hide FileByte;
  }

  lemma CopiedOk(meta: W.Item, it: W.Item, c: W.Config, ino: Inode, src: Image, copyId: nat, copied: Copied)
    requires c.bs > 0 && W.ItemOk(meta, c) && src.bs == c.bs && Copies(src, ino, copyId, c.devices, it, copied)
    requires it.attr == meta.attr && it.attrs == meta.attrs && |it.body.tail| <= c.bs && ino.size <= MAX_INT64
    ensures W.ItemOk(it, c)
  {
    hide Stands, WellFormed, MovedRuns;
  }

  lemma StandsIs(src: Image, ino: Inode, copyId: nat, devices: nat, it: W.Item, copied: Copied)
    requires WellFormed(src) && src.bs > 0 && Copies(src, ino, copyId, devices, it, copied)
    ensures Stands(src, ino, copied) && it.body.Runs?
  {
    hide Stands;
  }

  lemma SizeSame(src: Image, ino: Inode, c: Copied, dst: Image, out: seq<Chunk>, tailBlk: nat, copyId: nat, copy: Inode)
    requires WrittenCopy(src, ino, c, dst, out, tailBlk, copyId, copy)
    ensures copy.size == ino.size && dst.bs > 0
  {
  }

  // ---- The copy as a source ----

  /** A map of an index for each of the file's blocks is no larger than Stat and the copy read. */
  predicate SmallCopy(src: Image, ino: Inode)
    requires src.bs > 0
  {
    Blocks(src, ino) * CHUNK_INDEX <= MAX_CHUNK_INDEX_BYTES
  }

  /** Stat takes the copy exactly when its map is small; it can be copied again exactly when, besides, it is not one run of more than 2^15 blocks. */
  ghost predicate Again(src: Image, ino: Inode, dst: Image, copy: Inode)
    requires src.bs > 0
  {
    && dst.bs > 0 && copy.layout.ChunkBased? && dst.bs * Pow2(copy.layout.bits) > 0
    && (Statable(dst, copy) <==> SmallCopy(src, ino))
    && (CopyAccepted(dst, copy) <==> SmallCopy(src, ino) && !(SingleRun(src, ino) && Blocks(src, ino) > LARGE_RUN))
  }

  ghost predicate TakenAgain(src: Image, ino: Inode, copyId: nat, c: W.Config, image: seq<byte>, copy: Inode)
    requires src.bs > 0
  {
    forall dst :: Registers(dst, src, copyId) && |dst.devices| == c.devices && dst.bytes == image && WellFormed(dst) ==> Again(src, ino, dst, copy)
  }

  /** A chunk whose last byte is there is there whole, on an image that maps no device. */
  lemma ChunkThere(img: Image, ino: Inode, i: nat)
    requires WellFormed(img) && img.bs > 0 && ino.layout.ChunkBased? && !ino.layout.wide && img.bs * Pow2(ino.layout.bits) > 0
    requires i * (img.bs * Pow2(ino.layout.bits)) < ino.size && forall j :: 0 <= j < |img.devices| ==> img.devices[j].mapped == 0
    requires forall p :: 0 <= p < ino.size ==> FileByte(img, ino, p).Some?
    ensures ChunkRange(img, ino, i).Ok? && PlacedChunk(img, ino, i).Ok?
  {
    hide *;
    var bs, bpc := img.bs, Pow2(ino.layout.bits);
    PositiveChunk(bs, ino.layout.bits);
    RangeBack.LastByte(i, ino.size, bs, bpc);
    var n := ChunkLen(ino.size, bs * bpc, i);
    var p := i * (bs * bpc) + n - 1;
    assert FileByte(img, ino, p).Some?;
    EntryThere(img, ino, p);
    ChunkFileByte(img, ino, p);
    var e := ChunkEntry(img, ino, i).value;
    if e.At? {
      AddrInto(e.blk, Mod(Div(p, bs), bpc), bs, Mod(p, bs));
      OnDevice(img, e.dev, e.blk * bs + (n - 1));
    }
    EntryPlaced(img, ino, i, n);
  }

  lemma EntryThere(img: Image, ino: Inode, p: nat)
    requires img.bs > 0 && p < ino.size && ino.layout.ChunkBased? && !ino.layout.wide && FileByte(img, ino, p).Some?
    ensures Pow2(ino.layout.bits) > 0 && ChunkEntry(img, ino, Div(Div(p, img.bs), Pow2(ino.layout.bits))).Ok?
  {
    hide ByteAt, ChunkEntry, Pow2, Div, Mod;
  }

  lemma OnDevice(img: Image, dev: nat, pa: nat)
    requires WellFormed(img) && (forall j :: 0 <= j < |img.devices| ==> img.devices[j].mapped == 0) && ByteAt(img, dev, pa).Some?
    ensures dev <= |img.devices| && pa < |DeviceBytes(img, dev)| <= MAX_INT64
  {
    NothingMapped(img, pa, 0);
  }

  lemma EntryPlaced(img: Image, ino: Inode, i: nat, n: nat)
    requires img.bs > 0 && ino.layout.ChunkBased? && ChunkEntry(img, ino, i).Ok? && n == ChunkLen(ino.size, img.bs * Pow2(ino.layout.bits), i) > 0
    requires forall j :: 0 <= j < |img.devices| ==> img.devices[j].mapped == 0
    requires var e := ChunkEntry(img, ino, i).value;
             e.At? ==> e.dev <= |img.devices| && e.blk * img.bs + (n - 1) < |DeviceBytes(img, e.dev)| <= MAX_INT64
    ensures ChunkRange(img, ino, i).Ok? && PlacedChunk(img, ino, i).Ok?
  {
    hide ChunkEntry, Pow2, MappedDevice, ChunkLen, BlockAddr;
    var e := ChunkEntry(img, ino, i).value;
    if e.At? {
      RangeBack.AddrOk(img, e.blk);
      NothingMapped(img, e.blk * img.bs, 0);
    }
  }

  lemma CopyAgain(src: Image, ino: Inode, copyId: nat, c: W.Config, items: seq<W.Item>, w: W.Finished, i: nat, copied: Copied, dst: Image)
    requires src.bs > 0 && c.bs > 0 && 0 < ino.size && i < |items| == |w.plan| == |w.places|
    requires W.ItemBack(c, items, w, i) && W.Addressed(w.places[i]) && W.Writable(items[i], c) && c.devices <= 0xFFFF
    requires WellFormed(src) && Copies(src, ino, copyId, c.devices, items[i], copied)
    requires Registers(dst, src, copyId) && |dst.devices| == c.devices && dst.bs == c.bs && dst.bytes == w.image && WellFormed(dst)
    requires W.ItemOk(items[i], c)
    ensures Again(src, ino, dst, InodeAt(c, items, w, i))
  {
    hide WellFormed, Copies, W.ItemOk, W.Writable, W.ItemBack, W.Addressed, Registers, InodeAt, Stands, WrittenCopy, SingleRun, SmallCopy, SameContent;
    StandsIs(src, ino, copyId, c.devices, items[i], copied);
    var copy, runs, tailBlk := InodeAt(c, items, w, i), items[i].body.runs, w.places[i].tail;
    Written(src, ino, copyId, c, items, w, i, copied, dst);
    BitsAre(c, items, w, i);
    BitsMean(src, ino, copyId, c.devices, items[i], copied);
    CopyServed(src, ino, copyId, c, items, w, i, copied, dst);
    AgainIs(src, ino, copied, dst, runs, tailBlk, copyId, copy);
  }

  lemma BitsAre(c: W.Config, items: seq<W.Item>, w: W.Finished, i: nat)
    requires c.bs > 0 && i < |items| == |w.plan| == |w.places| && items[i].body.Runs? && W.ItemBack(c, items, w, i)
    ensures InodeAt(c, items, w, i).layout == ChunkBased(items[i].body.bits, true, false)
  {
    hide W.Serves, W.ServesMap, W.AttrsBack, W.InodeOf, W.CoreOf, W.Payload;
  }

  lemma BitsMean(src: Image, ino: Inode, copyId: nat, devices: nat, it: W.Item, c: Copied)
    requires src.bs > 0 && WellFormed(src) && Copies(src, ino, copyId, devices, it, c)
    ensures it.body.Runs? && it.body.bits <= 31 && (it.body.bits <= 15 <==> !(SingleRun(src, ino) && Blocks(src, ino) > LARGE_RUN))
  {
    hide Stands, WellFormed, SingleRun, MovedRuns;
  }

  lemma AgainIs(src: Image, ino: Inode, c: Copied, dst: Image, out: seq<Chunk>, tailBlk: nat, copyId: nat, copy: Inode)
    requires src.bs > 0 && 0 < ino.size && WellFormed(src) && WellFormed(dst) && Stands(src, ino, c)
    requires WrittenCopy(src, ino, c, dst, out, tailBlk, copyId, copy) && dst.bs > 0 && SameContent(src, ino, dst, copy)
    requires copy.layout.bits <= 31 && (copy.layout.bits <= 15 <==> !(SingleRun(src, ino) && Blocks(src, ino) > LARGE_RUN))
    ensures Again(src, ino, dst, copy)
  {
    hide WellFormed, Stands, SingleRun, MovedRuns, HoldsTail, WithinLimits, WithTail, IndexMap, CeilDiv, Pow2, FileByte, ChunkRange, PlacedChunk, MapBase;
    var n := CeilDiv(copy.size, dst.bs * Pow2(copy.layout.bits));
    Unmapped(dst, src, copyId);
    forall i | 0 <= i < n ensures ChunkRange(dst, copy, i).Ok? && PlacedChunk(dst, copy, i).Ok? {
      CeilIndex(copy.size, dst.bs * Pow2(copy.layout.bits), i);
      ChunkThere(dst, copy, i);
    }
    SameLimit(src, ino, c, copy);
    BitsCount(copy.layout.bits);
  }

  lemma Unmapped(dst: Image, src: Image, copyId: nat)
    requires Registers(dst, src, copyId)
    ensures dst.bs == src.bs && forall i :: 0 <= i < |dst.devices| ==> dst.devices[i].mapped == 0
  {
  }

  lemma BitsCount(bits: nat)
    ensures Pow2(bits) <= MAX_COUNT <==> bits <= 15
  {
    hide Pow2;
    Pow2Is31();
    if bits <= 15 {
      Pow2Mono(bits, 15);
    } else {
      Pow2Mono(16, bits);
    }
  }

  /** One run is short enough for a map of an index a block; otherwise that is the map it gets. */
  lemma SameLimit(src: Image, ino: Inode, c: Copied, copy: Inode)
    requires src.bs > 0 && 0 < ino.size == copy.size && Stands(src, ino, c) && copy.layout.ChunkBased? && (copy.layout.bits == 0 || c.contiguous)
    requires src.bs * Pow2(copy.layout.bits) > 0
    ensures CeilDiv(copy.size, src.bs * Pow2(copy.layout.bits)) * CHUNK_INDEX <= MAX_CHUNK_INDEX_BYTES <==> SmallCopy(src, ino)
  {
    hide Carries, Denotes, CeilDiv, Pow2;
    PowZero();
    if copy.layout.bits != 0 {
      assert c.chunks == [c.chunks[0]];
      TargetSingle(c.chunks[0], 0);
      CeilIndex(ino.size, src.bs, MAX_COUNT);
      MulMono(c.chunks[0].count, MAX_COUNT, src.bs);
      FewerChunks(ino.size, src.bs, Pow2(copy.layout.bits));
    }
  }

  lemma FewerChunks(size: nat, bs: nat, bpc: nat)
    requires bs > 0 && bpc > 0 && bs * bpc > 0
    ensures CeilDiv(size, bs * bpc) <= CeilDiv(size, bs)
  {
    hide CeilDiv;
    var n := CeilDiv(size, bs);
    CeilBounds(size, bs);
    assert n * (bs * bpc) == (n * bs) * bpc;
    MulMono(1, bpc, n * bs);
    CeilIndex(size, bs * bpc, n);
  }

  /** A file of 2^23 blocks and one more that is all a hole: it can be copied, and Stat refuses the copy's map of more than 64 MiB. */
  lemma LongHole()
    ensures var src, ino := Image(4096, [7], []), Inode(FlatPlain, 0x80_0001 * 4096, 0xFFFF_FFFF, false, 0);
            WellFormed(src) && CopyAccepted(src, ino) && Writable(src, ino, 1, 1) && !SmallCopy(src, ino)
  {
  }

  /** A file of 2^15 blocks and one more in one run: its copy cannot be copied again. */
  lemma LargeRun()
    ensures var src, ino := Image(512, Zeros(0x8001 * 512), []), Inode(FlatPlain, 0x8001 * 512, 0, false, 0);
            && WellFormed(src) && CopyAccepted(src, ino) && Writable(src, ino, 1, 1)
            && SmallCopy(src, ino) && SingleRun(src, ino) && Blocks(src, ino) > LARGE_RUN
  {
    var src, ino := Image(512, Zeros(0x8001 * 512), []), Inode(FlatPlain, 0x8001 * 512, 0, false, 0);
    forall b: nat ensures MappedBlock(src, b) == At(0, b) {
      UnmappedBlockIs(src, b);
    }
  }
}
