/** A copied file read back: its runs remapped, serialised as chunk indexes and read over the source's devices (mkfs.go, writer.go, erofs.go). */
module CopyBack {
  import opened Arith
  import opened Bytes
  import opened BlockMap
  import opened DataReader
  import opened Reference
  import opened Chunks
  import opened CopyFile

  // ---- remapChunkDevices ----

  predicate IsHole(c: Chunk) {
    c.phys == NULL_BLOCK
  }

  function Moved(t: Target, delta: nat): Target {
    if t.Hole? then Hole else At(t.dev + delta, t.blk)
  }

  /** The offset source device ids move by: an image's own numbering starts at 0, a generic source's at 1. */
  function IdOffset(copyId: nat, isImage: bool): nat
    requires copyId > 0
  {
    if isImage then copyId else copyId - 1
  }

  /** Rewrites source-relative device ids to the destination's, refusing any the destination does not declare. */
  method RemapChunkDevices(cs: seq<Chunk>, copyId: nat, isImage: bool, devices: nat) returns (r: Result<seq<Chunk>>)
    requires copyId > 0
    ensures r.Ok? ==> |r.value| == |cs|
    ensures r.Ok? ==> forall i :: 0 <= i < |cs| ==>
              r.value[i] == if IsHole(cs[i]) then cs[i] else cs[i].(dev := cs[i].dev + IdOffset(copyId, isImage))
    ensures r.Ok? ==> forall i :: 0 <= i < |cs| && !IsHole(cs[i]) ==> 0 < r.value[i].dev <= devices
    ensures r.Err? <==> exists i :: 0 <= i < |cs| && !IsHole(cs[i]) &&
                          ((cs[i].dev == 0 && !isImage) || cs[i].dev + IdOffset(copyId, isImage) > devices)
  {
    var delta := IdOffset(copyId, isImage);
    var out := cs;
    for i := 0 to |cs|
      invariant |out| == |cs|
      invariant forall j :: 0 <= j < i ==> out[j] == if IsHole(cs[j]) then cs[j] else cs[j].(dev := cs[j].dev + delta)
      invariant forall j :: i <= j < |cs| ==> out[j] == cs[j]
      invariant forall j :: 0 <= j < i && !IsHole(cs[j]) ==> (cs[j].dev > 0 || isImage) && cs[j].dev + delta <= devices
    {
      if IsHole(out[i]) {
        continue;
      }
      if out[i].dev == 0 && !isImage {
        assert !IsHole(cs[i]);
        return Err(Invalid);
      }
      var id := out[i].dev + delta;
      if id > devices {
        assert !IsHole(cs[i]);
        return Err(Invalid);
      }
      out := out[i := out[i].(dev := id)];
    }
    return Ok(out);
  }

  /** out is cs with every data run's device moved by delta. */
  predicate MovedRuns(cs: seq<Chunk>, out: seq<Chunk>, delta: nat) {
    |out| == |cs| && forall i :: 0 <= i < |cs| ==> out[i] == if IsHole(cs[i]) then cs[i] else cs[i].(dev := cs[i].dev + delta)
  }

  /** Moving devices moves every block's target and nothing else. */
  lemma {:induction false} MovedTarget(cs: seq<Chunk>, out: seq<Chunk>, delta: nat, b: nat)
    requires MovedRuns(cs, out, delta)
    ensures TargetOf(out, b) == Moved(TargetOf(cs, b), delta) && Total(out) == Total(cs)
  {
    if cs != [] {
      assert MovedRuns(cs[1..], out[1..], delta);
      MovedTarget(cs[1..], out[1..], delta, if b < cs[0].count then 0 else b - cs[0].count);
    }
  }

  // ---- Reading an index map back ----

  /** What an index entry can hold: checkLimits and checkDeviceCount have seen to it. */
  predicate Representable(t: Target, devices: nat) {
    t.At? ==> t.dev <= devices <= 0xFFFF && t.blk < NULL_ADDR
  }

  /** Ids up to the table's size survive the mask. */
  lemma MaskKeeps(id: nat, devices: nat)
    requires id <= devices
    ensures MaskId(id, devices) == id
  {
    SmallMod(id, Pow2(MaskBits(devices, 0)));
  }

  lemma IndexFields(t: Target)
    requires t.At? ==> t.dev <= 0xFFFF && t.blk < NULL_ADDR
    ensures Field(IndexOf(t), 4, 4) == if t.Hole? then NULL_ADDR else t.blk
    ensures t.At? ==> Field(IndexOf(t), 2, 2) == t.dev
  {
    hide LE, Num, Width;
    Widths();
    var b := IndexOf(t);
    if t.Hole? {
      assert b[4..8] == LE(NULL_ADDR, 4);
      FieldOf(b, 4, NULL_ADDR, 4);
    } else {
      assert b[4..8] == LE(t.blk, 4);
      assert b[2..4] == LE(t.dev, 2);
      FieldOf(b, 4, t.blk, 4);
      FieldOf(b, 2, t.dev, 2);
    }
  }

  lemma {:induction false} IndexWithin(cs: seq<Chunk>, bpc: nat, n: nat, i: nat)
    requires i < n
    ensures IndexMap(cs, bpc, n)[CHUNK_INDEX * i..CHUNK_INDEX * (i + 1)] == IndexOf(TargetOf(cs, i * bpc))
  {
    hide IndexOf, TargetOf;
    if i + 1 < n {
      IndexWithin(cs, bpc, n - 1, i);
      assert IndexMap(cs, bpc, n)[..CHUNK_INDEX * (n - 1)] == IndexMap(cs, bpc, n - 1);
    }
  }

  /** The image holds an index map for the inode. */
  predicate HoldsMap(img: Image, ino: Inode, cs: seq<Chunk>, n: nat)
    requires ino.layout.ChunkBased?
  {
    && MapBase(ino) + CHUNK_INDEX * n <= |img.bytes|
    && img.bytes[MapBase(ino)..MapBase(ino) + CHUNK_INDEX * n] == IndexMap(cs, Pow2(ino.layout.bits), n)
  }

  lemma FieldInside(b: seq<byte>, o: nat, e: seq<byte>, off: nat, n: nat)
    requires o + |e| <= |b| && b[o..o + |e|] == e && off + n <= |e|
    ensures Field(b, o + off, n) == Field(e, off, n)
  {
    SubSlice(b, o, |e|, off, off + n);
  }

  /** An entry reads back as the target it was written from. */
  lemma EntryReadsBack(img: Image, ino: Inode, cs: seq<Chunk>, n: nat, i: nat)
    requires ino.layout.ChunkBased? && ino.layout.indexed && HoldsMap(img, ino, cs, n) && i < n
    requires Representable(TargetOf(cs, i * Pow2(ino.layout.bits)), |img.devices|)
    ensures ChunkEntry(img, ino, i) == Ok(TargetOf(cs, i * Pow2(ino.layout.bits)))
  {
    hide TargetOf, Field, IndexOf, MaskId, Pow2, IndexMap;
    var bpc, base := Pow2(ino.layout.bits), MapBase(ino);
    var t, o := TargetOf(cs, i * bpc), MapBase(ino) + CHUNK_INDEX * i;
    IndexWithin(cs, bpc, n, i);
    SubSlice(img.bytes, base, CHUNK_INDEX * n, CHUNK_INDEX * i, CHUNK_INDEX * (i + 1));
    assert img.bytes[o..o + CHUNK_INDEX] == IndexOf(t);
    FieldInside(img.bytes, o, IndexOf(t), 4, 4);
    FieldInside(img.bytes, o, IndexOf(t), 2, 2);
    IndexFields(t);
    if t.At? {
      MaskKeeps(t.dev, |img.devices|);
    }
  }

  // ---- Block by block ----

  /** The runs are one: every block follows the first on its device. */
  predicate OneRun(cs: seq<Chunk>, n: nat) {
    TargetOf(cs, 0).At? && forall b :: 0 <= b < n ==> TargetOf(cs, b) == Shift(TargetOf(cs, 0), b)
  }

  /** checkLimits and the device count: every data run ends at or below the last 32-bit address and names a declared device. */
  predicate WithinLimits(cs: seq<Chunk>, devices: nat) {
    devices <= 0xFFFF && forall i :: 0 <= i < |cs| && !IsHole(cs[i]) ==> cs[i].phys + cs[i].count <= NULL_ADDR && cs[i].dev <= devices
  }

  /** No data block within limits is written as the null address. */
  lemma {:induction false} LimitsRepresent(cs: seq<Chunk>, devices: nat, b: nat)
    requires WithinLimits(cs, devices)
    ensures Representable(TargetOf(cs, b), devices)
  {
    if cs != [] && b >= cs[0].count {
      LimitsRepresent(cs[1..], devices, b - cs[0].count);
    }
  }

  /** A chunk size larger than a block is harmless where the runs are one. */
  lemma TargetReadsBack(img: Image, ino: Inode, cs: seq<Chunk>, bn: nat)
    requires img.bs > 0 && ino.layout.ChunkBased? && ino.layout.indexed && !ino.layout.wide
    requires img.bs * Pow2(ino.layout.bits) > 0 && bn < CeilDiv(ino.size, img.bs)
    requires HoldsMap(img, ino, cs, CeilDiv(ino.size, img.bs * Pow2(ino.layout.bits))) && WithinLimits(cs, |img.devices|)
    requires ino.layout.bits == 0 || OneRun(cs, CeilDiv(ino.size, img.bs))
    ensures BlockTarget(img, ino, bn) == Ok(TargetOf(cs, bn))
  {
    hide TargetOf, HoldsMap, WithinLimits, ChunkEntry, CeilDiv, OneRun, Pow2, Div, Mod, Representable;
    var bs, bpc := img.bs, Pow2(ino.layout.bits);
    var cn := Div(bn, bpc);
    ChunkInMap(ino.size, bs, bpc, bn);
    LimitsRepresent(cs, |img.devices|, cn * bpc);
    EntryReadsBack(img, ino, cs, CeilDiv(ino.size, bs * bpc), cn);
    if ino.layout.bits == 0 {
      PowZero();
    }
    RunSteps(cs, CeilDiv(ino.size, bs), bpc, bn);
  }

  lemma PowZero()
    ensures Pow2(0) == 1
  {
  }

  lemma ChunkInMap(size: nat, bs: nat, bpc: nat, bn: nat)
    requires bs > 0 && bpc > 0 && bs * bpc > 0 && bn < CeilDiv(size, bs)
    ensures Div(bn, bpc) < CeilDiv(size, bs * bpc)
  {
    hide CeilDiv;
    var cn := Div(bn, bpc);
    DivMod(bn, bpc);
    CeilIndex(size, bs, bn);
    MulMono(cn * bpc, bn, bs);
    assert cn * (bs * bpc) == (cn * bpc) * bs;
    CeilIndex(size, bs * bpc, cn);
  }

  /** The chunk's first block, stepped into, is the block itself. */
  lemma RunSteps(cs: seq<Chunk>, n: nat, bpc: nat, bn: nat)
    requires bpc > 0 && bn < n && (bpc == 1 || OneRun(cs, n))
    ensures Shift(TargetOf(cs, Div(bn, bpc) * bpc), Mod(bn, bpc)) == TargetOf(cs, bn)
  {
    hide TargetOf;
    DivMod(bn, bpc);
    if bpc == 1 {
      assert Div(bn, bpc) * bpc == bn && Mod(bn, bpc) == 0;
    } else {
      assert TargetOf(cs, bn) == Shift(TargetOf(cs, 0), bn);
      assert TargetOf(cs, Div(bn, bpc) * bpc) == Shift(TargetOf(cs, 0), Div(bn, bpc) * bpc);
    }
  }

  // ---- The copy reads back ----

  /** The destination declares the source image and its devices, in order, from id copyId on, and maps none of its devices. */
  predicate Registers(dst: Image, src: Image, copyId: nat) {
    && dst.bs == src.bs && copyId > 0 && copyId + |src.devices| <= |dst.devices|
    && (forall d :: 0 <= d <= |src.devices| ==> DeviceBytes(dst, copyId + d) == DeviceBytes(src, d))
    && forall i :: 0 <= i < |dst.devices| ==> dst.devices[i].mapped == 0
  }

  /** The runs as written: the remapped ones, then the tail's one block of the destination itself. */
  function WithTail(out: seq<Chunk>, tail: seq<byte>, tailBlk: nat): seq<Chunk> {
    if tail == [] then out else out + [Chunk(tailBlk, 1, 0)]
  }

  predicate HoldsTail(dst: Image, tail: seq<byte>, tailBlk: nat) {
    tail != [] ==> tailBlk * dst.bs + |tail| <= |dst.bytes| && dst.bytes[tailBlk * dst.bs..tailBlk * dst.bs + |tail|] == tail
  }

  lemma {:induction false} NothingMapped(img: Image, pa: nat, i: nat)
    requires i <= |img.devices| && forall j :: 0 <= j < |img.devices| ==> img.devices[j].mapped == 0
    ensures MappedDevice(img, pa, i) == None
    decreases |img.devices| - i
  {
    if i < |img.devices| {
      NothingMapped(img, pa, i + 1);
    }
  }

  /** Before the tail, a block of the copy is its run's block on the source's device. */
  lemma BodyTarget(cs: seq<Chunk>, out: seq<Chunk>, copyId: nat, tail: seq<byte>, tailBlk: nat, b: nat)
    requires MovedRuns(cs, out, copyId) && (tail == [] || b < Total(cs))
    ensures TargetOf(WithTail(out, tail, tailBlk), b) == Moved(TargetOf(cs, b), copyId)
  {
    MovedTarget(cs, out, copyId, b);
    if tail != [] {
      TargetConcat(out, [Chunk(tailBlk, 1, 0)], b);
    }
  }

  /** After the runs, the one block more is the tail's. */
  lemma TailTarget(cs: seq<Chunk>, out: seq<Chunk>, copyId: nat, tail: seq<byte>, tailBlk: nat)
    requires MovedRuns(cs, out, copyId) && tail != [] && tailBlk != NULL_BLOCK
    ensures TargetOf(WithTail(out, tail, tailBlk), Total(cs)) == At(0, tailBlk)
  {
    MovedTarget(cs, out, copyId, 0);
    TargetConcat(out, [Chunk(tailBlk, 1, 0)], Total(cs));
    TargetSingle(Chunk(tailBlk, 1, 0), 0);
  }

  /** A block's target on the destination gives the byte the source's target gives on the source. */
  lemma MovedByte(dst: Image, src: Image, copyId: nat, t: Target, off: nat)
    requires Registers(dst, src, copyId) && t.At? && t.dev <= |src.devices|
    ensures ByteAt(dst, t.dev + copyId, t.blk * dst.bs + off) == RawByte(src, t.dev, t.blk * src.bs + off)
  {
  }

  lemma TailByte(dst: Image, tail: seq<byte>, tailBlk: nat, off: nat)
    requires HoldsTail(dst, tail, tailBlk) && off < |tail|
    requires forall j :: 0 <= j < |dst.devices| ==> dst.devices[j].mapped == 0
    ensures ByteAt(dst, 0, tailBlk * dst.bs + off) == Some(tail[off])
  {
    var o := tailBlk * dst.bs;
    NothingMapped(dst, o + off, 0);
    assert dst.bytes[o + off] == dst.bytes[o..o + |tail|][off];
  }

  // ---- The theorem ----

  /** The destination as Close writes it for one copied file: the runs remapped and indexed, the tail in a block of its own. */
  ghost predicate WrittenCopy(src: Image, ino: Inode, c: Copied, dst: Image, out: seq<Chunk>, tailBlk: nat, copyId: nat, copy: Inode) {
    var full := WithTail(out, c.tail, tailBlk);
    && Registers(dst, src, copyId) && MovedRuns(c.chunks, out, copyId) && tailBlk < NULL_ADDR
    && copy.layout.ChunkBased? && copy.layout.indexed && !copy.layout.wide && copy.size == ino.size
    && (copy.layout.bits == 0 || c.contiguous)
    && dst.bs > 0 && dst.bs * Pow2(copy.layout.bits) > 0
    && HoldsMap(dst, copy, full, CeilDiv(ino.size, dst.bs * Pow2(copy.layout.bits)))
    && WithinLimits(full, |dst.devices|) && HoldsTail(dst, c.tail, tailBlk)
  }

  lemma SingleIsOneRun(src: Image, ino: Inode, c: Copied, out: seq<Chunk>, copyId: nat, tailBlk: nat)
    requires src.bs > 0 && Stands(src, ino, c) && c.contiguous && MovedRuns(c.chunks, out, copyId) && ino.size > 0
    ensures OneRun(WithTail(out, c.tail, tailBlk), CeilDiv(ino.size, src.bs))
  {
    hide Carries, FileByte, CeilDiv, Denotes;
    var n := CeilDiv(ino.size, src.bs);
    assert out == [out[0]];
    TargetSingle(c.chunks[0], 0);
    assert c.chunks == [c.chunks[0]];
    forall b | 0 <= b < n ensures TargetOf(out, b) == Shift(TargetOf(out, 0), b) {
      CeilIndex(ino.size, src.bs, b);
      MulCancel(b, c.chunks[0].count, src.bs);
      TargetSingle(out[0], b);
      TargetSingle(out[0], 0);
    }
    CeilIndex(ino.size, src.bs, 0);
    MulCancel(0, c.chunks[0].count, src.bs);
    TargetSingle(out[0], 0);
  }

  /** The target read back for a position's block. */
  lemma CopyTarget(src: Image, ino: Inode, c: Copied, dst: Image, out: seq<Chunk>, tailBlk: nat, copyId: nat, copy: Inode, p: nat)
    requires src.bs > 0 && Stands(src, ino, c) && WrittenCopy(src, ino, c, dst, out, tailBlk, copyId, copy) && p < ino.size
    ensures BlockTarget(dst, copy, Div(p, dst.bs)) == Ok(TargetOf(WithTail(out, c.tail, tailBlk), Div(p, dst.bs)))
  {
    hide Stands, Registers, MovedRuns, HoldsMap, WithinLimits, HoldsTail, OneRun, CeilDiv, BlockTarget, TargetOf, Pow2;
    DivMod(p, dst.bs);
    CeilIndex(ino.size, dst.bs, Div(p, dst.bs));
    SameBlockSize(dst, src, copyId);
    if copy.layout.bits != 0 {
      SingleIsOneRun(src, ino, c, out, copyId, tailBlk);
    }
    TargetReadsBack(dst, copy, WithTail(out, c.tail, tailBlk), Div(p, dst.bs));
  }

  lemma SameBlockSize(dst: Image, src: Image, copyId: nat)
    requires Registers(dst, src, copyId)
    ensures dst.bs == src.bs
  {
  }

  /** A copied file's every byte, read back over the source's image and devices, is the source file's. */
  lemma CopyPreservesContent(src: Image, ino: Inode, c: Copied, dst: Image, out: seq<Chunk>, tailBlk: nat, copyId: nat, copy: Inode, p: nat)
    requires src.bs > 0 && Stands(src, ino, c) && WrittenCopy(src, ino, c, dst, out, tailBlk, copyId, copy) && p < ino.size
    ensures FileByte(src, ino, p).Some?
    ensures FileByte(dst, copy, p) == FileByte(src, ino, p)
  {
    hide Stands, Registers, MovedRuns, HoldsMap, WithinLimits, HoldsTail, CeilDiv, BlockTarget, TargetOf, Pow2, ByteAt, RawByte;
    CopyTarget(src, ino, c, dst, out, tailBlk, copyId, copy, p);
    SameBlockSize(dst, src, copyId);
    TailBounded(src, ino, c);
    if p < ino.size - |c.tail| {
      BodyByte(src, ino, c, dst, out, tailBlk, copyId, p);
    } else {
      TailByteOf(src, ino, c, dst, out, tailBlk, copyId, p);
    }
  }

  lemma TailBounded(src: Image, ino: Inode, c: Copied)
    requires src.bs > 0 && Stands(src, ino, c)
    ensures |c.tail| <= ino.size
  {
  }

  /** The byte a target gives on an image. */
  function TargetByte(img: Image, t: Target, off: nat): Option<byte> {
    if t.Hole? then Some(0) else ByteAt(img, t.dev, t.blk * img.bs + off)
  }

  lemma BodyByte(src: Image, ino: Inode, c: Copied, dst: Image, out: seq<Chunk>, tailBlk: nat, copyId: nat, p: nat)
    requires src.bs > 0 && Stands(src, ino, c) && Registers(dst, src, copyId) && MovedRuns(c.chunks, out, copyId)
    requires |c.tail| <= ino.size && p < ino.size - |c.tail|
    ensures FileByte(src, ino, p).Some?
    ensures TargetByte(dst, TargetOf(WithTail(out, c.tail, tailBlk), Div(p, src.bs)), Mod(p, src.bs)) == FileByte(src, ino, p)
  {
    hide FileByte, Registers, MovedRuns, TargetOf, ByteAt, RawByte, Total, Denotes, Counted;
    var bn := Div(p, src.bs);
    var t := TargetOf(c.chunks, bn);
    assert TargetGives(src, ino, p, t);
    DivMod(p, src.bs);
    if c.tail != [] {
      MulCancel(bn, Total(c.chunks), src.bs);
    }
    BodyTarget(c.chunks, out, copyId, c.tail, tailBlk, bn);
    SameBlockSize(dst, src, copyId);
    if t.At? {
      MovedByte(dst, src, copyId, t, Mod(p, src.bs));
    }
  }

  lemma TailByteOf(src: Image, ino: Inode, c: Copied, dst: Image, out: seq<Chunk>, tailBlk: nat, copyId: nat, p: nat)
    requires src.bs > 0 && Stands(src, ino, c) && Registers(dst, src, copyId) && MovedRuns(c.chunks, out, copyId)
    requires |c.tail| <= ino.size && ino.size - |c.tail| <= p < ino.size && HoldsTail(dst, c.tail, tailBlk) && tailBlk < NULL_ADDR
    ensures FileByte(src, ino, p).Some?
    ensures TargetByte(dst, TargetOf(WithTail(out, c.tail, tailBlk), Div(p, src.bs)), Mod(p, src.bs)) == FileByte(src, ino, p)
  {
    hide FileByte, MovedRuns, TargetOf, ByteAt, RawByte, Total, Carries, Counted, HoldsTail;
    var start := ino.size - |c.tail|;
    assert FileByte(src, ino, p) == Some(c.tail[p - start]);
    DivUnique(p, src.bs, Total(c.chunks), p - start);
    TailTarget(c.chunks, out, copyId, c.tail, tailBlk);
    TailByte(dst, c.tail, tailBlk, p - start);
  }

  // ---- The pipeline ----

  /** minChunkBits: the least chunk size of at least a block that holds size bytes, where 31 bits can say it. */
  method MinChunkBits(bs: nat, size: nat) returns (bits: nat)
    requires bs > 0
    ensures bits <= 31 && (bits < 31 ==> bs * Pow2(bits) >= size) && (bits > 0 ==> bs * Pow2(bits - 1) < size)
  {
    hide Pow2;
    bits := 0;
    while bs * Pow2(bits) < size && bits < 31
      invariant bits <= 31 && (bits > 0 ==> bs * Pow2(bits - 1) < size)
      decreases 31 - bits
    {
      bits := bits + 1;
    }
  }

  /** What the copy writes for a file: its runs on the destination's devices, the chunk size, and the index map's bytes. */
  datatype Written = Written(copied: Copied, runs: seq<Chunk>, bits: nat, indexes: seq<byte>)

  /** A destination that holds what was written: the source registered, the map past the inode, the tail in its block. */
  ghost predicate Holds(dst: Image, src: Image, copyId: nat, devices: nat, tailBlk: nat, w: Written, head: nat) {
    && Registers(dst, src, copyId) && |dst.devices| == devices && tailBlk < NULL_ADDR
    && AlignUp(head, 8) + |w.indexes| <= |dst.bytes|
    && dst.bytes[AlignUp(head, 8)..AlignUp(head, 8) + |w.indexes|] == w.indexes
    && HoldsTail(dst, w.copied.tail, tailBlk)
  }

  function CopyInode(ino: Inode, w: Written, head: nat): Inode {
    Inode(ChunkBased(w.bits, true, false), ino.size, 0, false, head)
  }

  /** checkLimits over the runs as written. */
  method CheckLimits(cs: seq<Chunk>) returns (ok: bool)
    ensures ok <==> forall i :: 0 <= i < |cs| && !IsHole(cs[i]) ==> cs[i].phys + cs[i].count <= NULL_ADDR
  {
    for i := 0 to |cs|
      invariant forall j :: 0 <= j < i && !IsHole(cs[j]) ==> cs[j].phys + cs[j].count <= NULL_ADDR
    {
      if !IsHole(cs[i]) && cs[i].phys + cs[i].count > NULL_ADDR {
        return false;
      }
    }
    return true;
  }

  /** Any destination that holds what was written is one the theorem speaks of. */
  lemma HoldsWritten(src: Image, ino: Inode, copyId: nat, devices: nat, tailBlk: nat, w: Written, dst: Image, head: nat)
    requires src.bs > 0 && dst.bs > 0 && Holds(dst, src, copyId, devices, tailBlk, w, head) && devices <= 0xFFFF
    requires MovedRuns(w.copied.chunks, w.runs, copyId) && (w.bits == 0 || w.copied.contiguous)
    requires src.bs * Pow2(w.bits) > 0
    requires w.indexes == IndexMap(WithTail(w.runs, w.copied.tail, tailBlk), Pow2(w.bits), CeilDiv(ino.size, src.bs * Pow2(w.bits)))
    requires WithinLimits(WithTail(w.runs, w.copied.tail, tailBlk), devices)
    ensures WrittenCopy(src, ino, w.copied, dst, w.runs, tailBlk, copyId, CopyInode(ino, w, head))
  {
    hide IndexMap, CeilDiv, Pow2, HoldsTail, MovedRuns, WithinLimits;
    SameBlockSize(dst, src, copyId);
  }

  lemma TailWithinLimits(runs: seq<Chunk>, tail: seq<byte>, tailBlk: nat, devices: nat)
    requires devices <= 0xFFFF && tailBlk < NULL_ADDR
    requires forall i :: 0 <= i < |runs| && !IsHole(runs[i]) ==> runs[i].dev <= devices
    requires var full := WithTail(runs, tail, tailBlk);
             forall i :: 0 <= i < |full| && !IsHole(full[i]) ==> full[i].phys + full[i].count <= NULL_ADDR
    ensures WithinLimits(WithTail(runs, tail, tailBlk), devices)
  {
  }

  /** The moved runs and the tail's block end within 32-bit addresses exactly when the runs do. */
  lemma EndsStay(cs: seq<Chunk>, out: seq<Chunk>, tail: seq<byte>, tailBlk: nat, copyId: nat)
    requires MovedRuns(cs, out, copyId) && tailBlk < NULL_ADDR
    ensures var full := WithTail(out, tail, tailBlk);
            (forall i :: 0 <= i < |full| && !IsHole(full[i]) ==> full[i].phys + full[i].count <= NULL_ADDR) <==>
            (forall i :: 0 <= i < |cs| && !IsHole(cs[i]) ==> cs[i].phys + cs[i].count <= NULL_ADDR)
  {
    var full := WithTail(out, tail, tailBlk);
    assert forall i :: 0 <= i < |cs| ==> full[i].phys == cs[i].phys && full[i].count == cs[i].count;
  }

  lemma CountedStays(cs: seq<Chunk>, out: seq<Chunk>, delta: nat, tail: seq<byte>, tailBlk: nat)
    requires Counted(cs) && MovedRuns(cs, out, delta)
    ensures Counted(WithTail(out, tail, tailBlk))
  {
  }

  /** A target an index entry can hold, count blocks of it, once its device is moved: a declared device, an end within 32-bit addresses. */
  predicate Fits(t: Target, count: nat, delta: nat, devices: nat) {
    t.At? ==> t.dev + delta <= devices && t.blk + count <= NULL_ADDR
  }

  predicate RunsFit(cs: seq<Chunk>, delta: nat, devices: nat) {
    forall i :: 0 <= i < |cs| ==> Fits(RunTarget(cs[i], 0), cs[i].count, delta, devices)
  }

  /** Runs fit exactly when each of their blocks does. */
  lemma {:induction false} RunsFitBlocks(cs: seq<Chunk>, delta: nat, devices: nat)
    requires Counted(cs)
    ensures RunsFit(cs, delta, devices) <==> BlocksFit(cs, delta, devices)
  {
    if cs != [] {
      var c, rest := cs[0], cs[1..];
      RunsFitBlocks(rest, delta, devices);
      assert RunsFit(cs, delta, devices) <==> Fits(RunTarget(c, 0), c.count, delta, devices) && RunsFit(rest, delta, devices) by {
        assert RunsFit(cs, delta, devices) ==> RunsFit(rest, delta, devices);
        assert forall i :: 0 < i < |cs| ==> cs[i] == rest[i - 1];
      }
      if BlocksFit(cs, delta, devices) {
        assert Fits(TargetOf(cs, c.count - 1), 1, delta, devices);
        forall b: nat | b < Total(rest) ensures Fits(TargetOf(rest, b), 1, delta, devices) {
          assert Fits(TargetOf(cs, c.count + b), 1, delta, devices);
        }
      }
      if RunsFit(cs, delta, devices) {
        forall b: nat | b < Total(cs) ensures Fits(TargetOf(cs, b), 1, delta, devices) {
          if b >= c.count {
            assert Fits(TargetOf(rest, b - c.count), 1, delta, devices);
          }
        }
      }
    }
  }

  predicate BlocksFit(cs: seq<Chunk>, delta: nat, devices: nat) {
    forall b: nat :: b < Total(cs) ==> Fits(TargetOf(cs, b), 1, delta, devices)
  }

  /** What the destination can name of a file: each placed chunk whole, or each mapped block, on a device it declares and within 32-bit addresses. */
  predicate Writable(img: Image, ino: Inode, copyId: nat, devices: nat)
    requires img.bs > 0
  {
    if ino.layout.ChunkBased? then
      PositiveChunk(img.bs, ino.layout.bits);
      forall i :: 0 <= i < CeilDiv(ino.size, img.bs * Pow2(ino.layout.bits)) ==>
        ChunkFits(PlacedChunk(img, ino, i), Pow2(ino.layout.bits), copyId, devices)
    else
      || (ino.layout.FlatPlain? && NullStart(ino.start, ino.addr48))
      || forall blk :: ino.start <= blk < ino.start + CeilDiv(Mapped(img, ino), img.bs) ==> Fits(MappedBlock(img, blk), 1, copyId, devices)
  }

  predicate ChunkFits(t: Result<Target>, count: nat, delta: nat, devices: nat) {
    t.Ok? ==> Fits(t.value, count, delta, devices)
  }

  /** The copy's runs fit exactly when the file's own chunks or blocks do. */
  lemma FollowsFit(img: Image, ino: Inode, cs: seq<Chunk>, copyId: nat, devices: nat)
    requires img.bs > 0 && Counted(cs) && Follows(img, ino, cs)
    ensures RunsFit(cs, copyId, devices) <==> Writable(img, ino, copyId, devices)
  {
    hide TargetOf, Total, RunsFit, PlacedChunk, MappedBlock, NullStart, Pow2, CeilDiv, Mapped, PlacedBlock, Fits;
    RunsFitBlocks(cs, copyId, devices);
    if RunsFit(cs, copyId, devices) {
      forall b: nat | b < PlacedBlocks(img, ino) ensures Fits(PlacedBlock(img, ino, b), 1, copyId, devices) {
        assert Fits(TargetOf(cs, b), 1, copyId, devices);
      }
      PlacedWritable(img, ino, copyId, devices);
    }
    if Writable(img, ino, copyId, devices) {
      forall b: nat | b < Total(cs) ensures Fits(TargetOf(cs, b), 1, copyId, devices) {
        WritablePlaced(img, ino, copyId, devices, b);
      }
    }
  }

  lemma PlacedWritable(img: Image, ino: Inode, copyId: nat, devices: nat)
    requires img.bs > 0 && forall b: nat :: b < PlacedBlocks(img, ino) ==> Fits(PlacedBlock(img, ino, b), 1, copyId, devices)
    ensures Writable(img, ino, copyId, devices)
  {
    hide PlacedChunk, MappedBlock, NullStart, Pow2, CeilDiv, Mapped;
    if ino.layout.ChunkBased? {
      PositiveChunk(img.bs, ino.layout.bits);
      var bpc, chunks := Pow2(ino.layout.bits), CeilDiv(ino.size, img.bs * Pow2(ino.layout.bits));
      forall i | 0 <= i < chunks ensures ChunkFits(PlacedChunk(img, ino, i), bpc, copyId, devices) {
        LastOfChunk(i, chunks, bpc);
        assert Fits(PlacedBlock(img, ino, i * bpc + (bpc - 1)), 1, copyId, devices);
      }
    } else if !(ino.layout.FlatPlain? && NullStart(ino.start, ino.addr48)) {
      forall blk | ino.start <= blk < ino.start + CeilDiv(Mapped(img, ino), img.bs) ensures Fits(MappedBlock(img, blk), 1, copyId, devices) {
        assert Fits(PlacedBlock(img, ino, blk - ino.start), 1, copyId, devices);
      }
    }
  }

  lemma WritablePlaced(img: Image, ino: Inode, copyId: nat, devices: nat, b: nat)
    requires img.bs > 0 && Writable(img, ino, copyId, devices) && b < PlacedBlocks(img, ino)
    ensures Fits(PlacedBlock(img, ino, b), 1, copyId, devices)
  {
    hide PlacedChunk, MappedBlock, NullStart, Pow2, CeilDiv, Mapped;
    if ino.layout.ChunkBased? {
      PositiveChunk(img.bs, ino.layout.bits);
      var bpc := Pow2(ino.layout.bits);
      DivMod(b, bpc);
      MulCancel(Div(b, bpc), CeilDiv(ino.size, img.bs * bpc), bpc);
      assert ChunkFits(PlacedChunk(img, ino, Div(b, bpc)), bpc, copyId, devices);
    }
  }

  lemma LastOfChunk(i: nat, n: nat, bpc: nat)
    requires i < n && bpc > 0
    ensures i * bpc + (bpc - 1) < n * bpc && Div(i * bpc + (bpc - 1), bpc) == i && Mod(i * bpc + (bpc - 1), bpc) == bpc - 1
  {
    MulMono(i + 1, n, bpc);
    assert (i + 1) * bpc == i * bpc + bpc;
    DivUnique(i * bpc + (bpc - 1), bpc, i, bpc - 1);
  }

  /** Copy, remap, check and serialise: refused exactly where the source cannot be copied or the destination cannot name it, else read back from any destination that holds the result, byte for byte. */
  method CopyToIndexes(src: Image, ino: Inode, copyId: nat, devices: nat, tailBlk: nat) returns (r: Result<Written>)
    requires src.bs > 0 && 0 < ino.size <= MAX_INT64 && (ino.layout.ChunkBased? ==> ino.layout.bits <= 31)
    requires 0 < copyId && devices <= 0xFFFF && tailBlk < NULL_ADDR
    ensures r.Ok? ==> CopyAccepted(src, ino)
    ensures WellFormed(src) || ino.layout.ChunkBased? ==>
              (r.Ok? <==> CopyAccepted(src, ino) && Writable(src, ino, copyId, devices))
    ensures r.Ok? && WellFormed(src) ==>
              forall dst, head, p :: Holds(dst, src, copyId, devices, tailBlk, r.value, head) && dst.bs > 0 && 0 <= p < ino.size ==>
                FileByte(src, ino, p).Some? && FileByte(dst, CopyInode(ino, r.value, head), p) == FileByte(src, ino, p)
  {
    hide Stands, FileByte, WellFormed, Holds, IndexMap, CeilDiv, Pow2, WithinLimits, Counted, WrittenCopy, WithTail, CopyAccepted, Writable, Follows;
    var c := CopyRegular(src, ino);
    if c.Err? {
      return Err(c.error);
    }
    if WellFormed(src) || ino.layout.ChunkBased? {
      FollowsFit(src, ino, c.value.chunks, copyId, devices);
    }
    var out := RemapChunkDevices(c.value.chunks, copyId, true, devices);
    if out.Err? {
      assert !RunsFit(c.value.chunks, copyId, devices);
      return Err(out.error);
    }
    assert MovedRuns(c.value.chunks, out.value, copyId);
    var full := WithTail(out.value, c.value.tail, tailBlk);
    var ok := CheckLimits(full);
    EndsStay(c.value.chunks, out.value, c.value.tail, tailBlk, copyId);
    if !ok {
      assert !RunsFit(c.value.chunks, copyId, devices);
      return Err(NotImplemented);
    }
    assert RunsFit(c.value.chunks, copyId, devices);
    var bits := 0;
    if c.value.contiguous {
      bits := MinChunkBits(src.bs, ino.size);
    }
    CountedStays(c.value.chunks, out.value, copyId, c.value.tail, tailBlk);
    var indexes := WriteChunkIndexes(full, Pow2(bits), CeilDiv(ino.size, src.bs * Pow2(bits)));
    var w := Written(c.value, out.value, bits, indexes);
    TailWithinLimits(out.value, c.value.tail, tailBlk, devices);
    if WellFormed(src) {
      forall dst, head, p | Holds(dst, src, copyId, devices, tailBlk, w, head) && dst.bs > 0 && 0 <= p < ino.size
        ensures FileByte(src, ino, p).Some? && FileByte(dst, CopyInode(ino, w, head), p) == FileByte(src, ino, p)
      {
        HoldsWritten(src, ino, copyId, devices, tailBlk, w, dst, head);
        CopyPreservesContent(src, ino, w.copied, dst, w.runs, tailBlk, copyId, CopyInode(ino, w, head), p);
      }
    }
    return Ok(w);
  }
}
