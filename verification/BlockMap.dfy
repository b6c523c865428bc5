/** Images, their devices and the bytes an inode's positions denote (erofs.go, internal/erofsspec/data.go). */
module BlockMap {
  import opened Arith
  import opened Bytes

  const MAX_INT64: nat := 0x7FFF_FFFF_FFFF_FFFF
  const NULL_ADDR: nat := 0xFFFF_FFFF
  const MAX_CHUNK_INDEX_BYTES: nat := 64 * 1024 * 1024

  /** An extra device: its bytes, and the block range of the primary device's address space it is mapped to, from mapped on. */
  datatype Device = Device(bytes: seq<byte>, mapped: nat, blocks: nat)

  datatype Image = Image(bs: nat, bytes: seq<byte>, devices: seq<Device>)

  datatype Layout = FlatPlain | FlatInline | ChunkBased(bits: nat, indexed: bool, wide: bool)

  /** What the data path needs of an inode; head is the first byte past its core and xattrs. */
  datatype Inode = Inode(layout: Layout, size: nat, start: nat, addr48: bool, head: nat)

  /** A place on a device, 0 being the image. */
  datatype Loc = Loc(dev: nat, off: nat)

  // ---- Devices ----

  function MappedStart(img: Image, i: nat): nat
    requires i < |img.devices|
  {
    img.devices[i].mapped * img.bs
  }

  function MappedEnd(img: Image, i: nat): nat
    requires i < |img.devices|
  {
    MappedStart(img, i) + img.devices[i].blocks * img.bs
  }

  predicate MapsTo(img: Image, pa: nat, i: nat)
    requires i < |img.devices|
  {
    img.devices[i].mapped != 0 && MappedStart(img, i) <= pa < MappedEnd(img, i)
  }

  /** The first device from the i-th on whose mapped range holds pa. */
  function MappedDevice(img: Image, pa: nat, i: nat): (r: Option<nat>)
    requires i <= |img.devices|
    ensures r.Some? ==> i <= r.value < |img.devices| && MapsTo(img, pa, r.value)
    ensures r.None? ==> forall j :: i <= j < |img.devices| ==> !MapsTo(img, pa, j)
    decreases |img.devices| - i
  {
    if i == |img.devices| then None else if MapsTo(img, pa, i) then Some(i) else MappedDevice(img, pa, i + 1)
  }

  /** erofs_map_dev: an address on the primary device inside a mapped range is that device's. */
  function MapDev(img: Image, dev: nat, pa: nat): Loc {
    if dev > 0 then Loc(dev, pa)
    else
      var m := MappedDevice(img, pa, 0);
      if m.Some? then Loc(m.value + 1, pa - MappedStart(img, m.value)) else Loc(0, pa)
  }

  function DeviceBytes(img: Image, dev: nat): seq<byte> {
    if dev == 0 then img.bytes else if dev <= |img.devices| then img.devices[dev - 1].bytes else []
  }

  /** The byte address pa of device dev denotes, if any. */
  function ByteAt(img: Image, dev: nat, pa: nat): Option<byte> {
    var l := MapDev(img, dev, pa);
    var b := DeviceBytes(img, l.dev);
    if l.off < |b| then Some(b[l.off]) else None
  }

  /** Mapped ranges are disjoint, start at or past the image's extent, and each device holds the blocks its slot counts, at least one. */
  predicate WellFormed(img: Image) {
    && img.bs > 0 && 0 < |img.bytes| <= MAX_INT64
    && (forall i :: 0 <= i < |img.devices| ==> 0 < |img.devices[i].bytes| == img.devices[i].blocks * img.bs <= MAX_INT64)
    && (forall i :: 0 <= i < |img.devices| && img.devices[i].mapped != 0 ==>
          |img.bytes| <= MappedStart(img, i) && MappedEnd(img, i) <= MAX_INT64)
    && (forall i, j :: 0 <= i < j < |img.devices| && img.devices[i].mapped != 0 && img.devices[j].mapped != 0 ==>
          MappedEnd(img, i) <= MappedStart(img, j) || MappedEnd(img, j) <= MappedStart(img, i))
  }

  lemma OneDevice(img: Image, pa: nat, i: nat)
    requires WellFormed(img) && i < |img.devices| && MapsTo(img, pa, i)
    ensures MappedDevice(img, pa, 0) == Some(i)
  {
    hide MappedStart, MappedEnd, MappedDevice;
    var m := MappedDevice(img, pa, 0);
    assert m.Some?;
    assert MapsTo(img, pa, m.value);
  }

  lemma NotMapped(img: Image, pa: nat)
    requires WellFormed(img) && pa < |img.bytes|
    ensures MappedDevice(img, pa, 0) == None
  {
    hide MappedStart, MappedEnd, MappedDevice;
  }

  /** A range placed by its start and lying inside the device it starts on is placed right byte by byte. */
  lemma RangeReads(img: Image, dev: nat, pa: nat, n: nat, k: nat)
    requires WellFormed(img) && k < n
    requires var l := MapDev(img, dev, pa); l.off + n <= |DeviceBytes(img, l.dev)|
    ensures var l := MapDev(img, dev, pa);
            MapDev(img, dev, pa + k) == Loc(l.dev, l.off + k) && ByteAt(img, dev, pa + k) == Some(DeviceBytes(img, l.dev)[l.off + k])
  {
    hide MappedDevice;
    if dev == 0 {
      var m := MappedDevice(img, pa, 0);
      if m.Some? {
        OneDevice(img, pa + k, m.value);
      } else {
        NotMapped(img, pa + k);
      }
    }
  }

  lemma BlockInRange(mapped: nat, blocks: nat, blk: nat, j: nat, bs: nat)
    requires j < bs
    ensures mapped * bs <= blk * bs + j < mapped * bs + blocks * bs <==> mapped <= blk < mapped + blocks
  {
    assert (blk + 1) * bs == blk * bs + bs && (mapped + blocks) * bs == mapped * bs + blocks * bs;
    if mapped <= blk {
      MulMono(mapped, blk, bs);
    } else {
      MulMono(blk + 1, mapped, bs);
    }
    if blk < mapped + blocks {
      MulMono(blk + 1, mapped + blocks, bs);
    } else {
      MulMono(mapped + blocks, blk, bs);
    }
  }

  lemma {:induction false} BlockScan(img: Image, blk: nat, j: nat, i: nat)
    requires j < img.bs && i <= |img.devices|
    ensures MappedDevice(img, blk * img.bs + j, i) == MappedDevice(img, blk * img.bs, i)
    decreases |img.devices| - i
  {
    hide *;
    if i < |img.devices| {
      BlockScanStep(img, blk, j, i);
      BlockScan(img, blk, j, i + 1);
    }
    BlockScanUnfold(img, blk * img.bs + j, i);
    BlockScanUnfold(img, blk * img.bs, i);
  }

  lemma BlockScanUnfold(img: Image, pa: nat, i: nat)
    requires i <= |img.devices|
    ensures MappedDevice(img, pa, i) ==
            if i == |img.devices| then None else if MapsTo(img, pa, i) then Some(i) else MappedDevice(img, pa, i + 1)
  {
  }

  lemma BlockScanStep(img: Image, blk: nat, j: nat, i: nat)
    requires j < img.bs && i < |img.devices|
    ensures MapsTo(img, blk * img.bs + j, i) <==> MapsTo(img, blk * img.bs, i)
  {
    var d := img.devices[i];
    BlockInRange(d.mapped, d.blocks, blk, j, img.bs);
    BlockInRange(d.mapped, d.blocks, blk, 0, img.bs);
  }

  /** Mapped ranges are whole blocks, so a block is never split between devices. */
  lemma BlockMaps(img: Image, dev: nat, blk: nat, j: nat)
    requires j < img.bs
    ensures var l := MapDev(img, dev, blk * img.bs); MapDev(img, dev, blk * img.bs + j) == Loc(l.dev, l.off + j)
  {
    hide MappedDevice;
    BlockScan(img, blk, j, 0);
    var m := MappedDevice(img, blk * img.bs, 0);
  }

  // ---- The reader's placement and bounds ----

  /** locate: where a chunk's address lies, an address on the image bounded by its extent. */
  function Locate(img: Image, dev: nat, pa: nat): Result<Loc> {
    if dev > |img.devices| then Err(Corrupt)
    else
      var l := MapDev(img, dev, pa);
      if l.dev == 0 && |img.bytes| > 0 && pa >= |img.bytes| then Err(Corrupt) else Ok(l)
  }

  predicate InImage(img: Image, off: nat, n: nat) {
    off + n <= MAX_INT64 && (|img.bytes| > 0 ==> off + n <= |img.bytes|)
  }

  /** boundOnDevice: by the device's length, or by its slot's block count where it reports none. */
  predicate BoundOnDevice(img: Image, l: Loc, n: nat) {
    if l.dev == 0 then InImage(img, l.off, n)
    else
      && l.dev <= |img.devices| && l.off + n <= MAX_INT64
      && var d := img.devices[l.dev - 1];
         if |d.bytes| > 0 then l.off + n <= |d.bytes| else d.blocks == 0 || l.off + n <= d.blocks * img.bs
  }

  /** locateRange: a flat file's range, on the device its start is mapped to and bounded there. */
  function LocateRange(img: Image, pa: nat, n: nat): Result<Loc> {
    if pa + n > MAX_INT64 then Err(Corrupt)
    else
      var m := MappedDevice(img, pa, 0);
      if m.Some? then
        if pa + n > MappedEnd(img, m.value) then Err(Corrupt)
        else Ok(Loc(m.value + 1, pa - MappedStart(img, m.value)))
      else if !InImage(img, pa, n) then Err(Corrupt)
      else Ok(Loc(0, pa))
  }

  function ReadFull(img: Image, l: Loc, n: nat): Result<seq<byte>> {
    var b := DeviceBytes(img, l.dev);
    if l.off + n <= |b| then Ok(b[l.off..l.off + n]) else Err(Corrupt)
  }

  /** blockAddr and chunkAddr: a block's byte address, refused where it would not fit. */
  function BlockAddr(img: Image, blk: nat): Result<nat>
    requires img.bs > 0
  {
    if blk > MAX_INT64 / img.bs then Err(Corrupt) else Ok(blk * img.bs)
  }

  // ---- Inodes ----

  function Pow2(n: nat): (p: nat)
    ensures p > 0
  {
    if n == 0 then 1 else 2 * Pow2(n - 1)
  }

  lemma PositiveChunk(bs: nat, bits: nat)
    requires bs > 0
    ensures Pow2(bits) > 0 && bs * Pow2(bits) > 0
  {
  }

  /** nullStartBlock: every bit of the address set, 48 of them or 32. */
  predicate NullStart(start: nat, addr48: bool) {
    var width := if addr48 then 0x1_0000_0000_0000 else 0x1_0000_0000;
    start % width == width - 1
  }

  function AlignUp(n: nat, unit: nat): (r: nat)
    requires unit > 0
    ensures n <= r < n + unit
  {
    if n % unit == 0 then n else n + (unit - n % unit)
  }

  /** What a logical block of a file maps to. */
  datatype Target = Hole | At(dev: nat, blk: nat)

  /** Clears the bits of id the device table cannot name: the mask is the table's size plus one, rounded up to a power of two, less one. */
  function MaskId(id: nat, devices: nat): nat {
    id % Pow2(MaskBits(devices, 0))
  }

  /** The least b at or above from with 2^b > devices. */
  function MaskBits(devices: nat, from: nat): (b: nat)
    ensures b >= from && Pow2(b) > devices
    decreases devices - Pow2(from)
  {
    if Pow2(from) > devices then from else MaskBits(devices, from + 1)
  }

  /** Where a chunk map starts: right past the xattrs, an index map on the next multiple of 8. */
  function MapBase(ino: Inode): nat
    requires ino.layout.ChunkBased?
  {
    if ino.layout.indexed then AlignUp(ino.head, 8) else ino.head
  }

  /** Chunk cn of the inode's map: an 8-byte index of device and block, or a 4-byte block of the primary device. */
  function ChunkEntry(img: Image, ino: Inode, cn: nat): Result<Target>
    requires ino.layout.ChunkBased?
  {
    var unit := if ino.layout.indexed then 8 else 4;
    var pos := MapBase(ino) + cn * unit;
    if pos + unit > |img.bytes| then Err(Eof)
    else if ino.layout.indexed then
      var lo := Field(img.bytes, pos + 4, 4);
      Ok(if lo == NULL_ADDR then Hole else At(MaskId(Field(img.bytes, pos + 2, 2), |img.devices|), lo))
    else
      var lo := Field(img.bytes, pos, 4);
      Ok(if lo == NULL_ADDR then Hole else At(0, lo))
  }

  /** The block bn of a file whose data is in whole blocks: all of a flat-plain file's, all but the last of a flat-inline one's, and every block of a chunked one. */
  function BlockTarget(img: Image, ino: Inode, bn: nat): Result<Target> {
    match ino.layout
    case FlatPlain => Ok(if NullStart(ino.start, ino.addr48) then Hole else At(0, ino.start + bn))
    case FlatInline => Ok(At(0, ino.start + bn))
    case ChunkBased(bits, _, wide) =>
      if wide then Err(NotImplemented)
      else
        var c :- ChunkEntry(img, ino, Div(bn, Pow2(bits)));
        Ok(if c.Hole? then Hole else At(c.dev, c.blk + Mod(bn, Pow2(bits))))
  }

  /** The last block of a flat-inline file lies beside the inode. */
  predicate IsTail(img: Image, ino: Inode, bn: nat)
    requires img.bs > 0
  {
    ino.layout.FlatInline? && bn + 1 == CeilDiv(ino.size, img.bs)
  }

  /** The byte of the file at pos: the meaning every reader of the image must agree on. */
  function FileByte(img: Image, ino: Inode, pos: nat): Option<byte>
    requires img.bs > 0
  {
    var bn, off := Div(pos, img.bs), Mod(pos, img.bs);
    if pos >= ino.size then None
    else if IsTail(img, ino, bn) then
      if TailCrosses(img, ino) || ino.head + off >= |img.bytes| then None else Some(img.bytes[ino.head + off])
    else
      var t := BlockTarget(img, ino, bn);
      if t.Err? then None
      else if t.value.Hole? then Some(0)
      else ByteAt(img, t.value.dev, Addr(t.value.blk, img.bs, off))
  }

  /** The bytes of a flat-inline file's last block, a whole one when the size is a multiple. */
  function TailLen(img: Image, ino: Inode): nat
    requires img.bs > 0
  {
    if ino.size == 0 then 0 else Mod(ino.size - 1, img.bs) + 1
  }

  /** Inline data lives in the inode's own block and must not run past it. */
  predicate TailCrosses(img: Image, ino: Inode)
    requires img.bs > 0
  {
    Mod(ino.head, img.bs) + TailLen(img, ino) > img.bs
  }
}
