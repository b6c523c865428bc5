/** A whole image written and read back: inodes, directories, file data and chunk maps (layout.go, writer.go, erofs.go). */
module ImageWriter {
  import opened Arith
  import opened Bytes
  import opened Names
  import opened BlockMap
  import opened Chunks
  import opened DirCodec
  import opened DirWriter
  import opened CopyBack
  import I = InodeCodec
  import L = Layout
  import S = Serialise
  import X = XattrWriter
  import XA = Xattrs

  /** A directory's entry for another item of the image, under any of its names. */
  datatype Kid = Kid(name: Name, target: nat, ftype: byte)

  datatype Body =
    | Special(rdev: nat)
    | File(data: seq<byte>)
    | Link(target: seq<byte>)
    | Dir(parent: nat, kids: seq<Kid>)
    | Runs(size: nat, bits: nat, runs: seq<Chunk>, tail: seq<byte>)

  datatype Attr = Attr(mode: nat, nlink: nat, uid: nat, gid: nat, mtime: nat, mtimeNs: nat)

  /** One inode to be written, with its extended attributes in key order. */
  datatype Item = Item(attr: Attr, attrs: X.Listing, body: Body)

  datatype Config = Config(bs: nat, noInline: bool, buildTime: nat, buildTimeNs: nat, devices: nat)

  predicate ConfigOk(c: Config) {
    L.BlockSize(c.bs)
  }

  // ---- What an item comes to ----

  /** The attribute area: none without attributes. */
  function AreaOf(it: Item): seq<byte> {
    if it.attrs == [] || !X.AllValid(it.attrs) then [] else X.Area(it.attrs)
  }

  function NidOf(nids: seq<nat>, k: nat): nat {
    if k < |nids| then nids[k] else 0
  }

  function Dirents(kids: seq<Kid>, nids: seq<nat>): (es: seq<Dirent>)
    ensures |es| == |kids|
  {
    seq(|kids|, i requires 0 <= i < |kids| => Dirent(kids[i].name, NidOf(nids, kids[i].target), kids[i].ftype))
  }

  /** The bytes an item holds, once nids are known. */
  function Payload(it: Item, self: nat, nids: seq<nat>, bs: nat): seq<byte>
    requires bs > 0
  {
    match it.body
    case File(data) => data
    case Link(target) => target
    case Dir(parent, kids) => EncodeDir(DirEntries(NidOf(nids, self), NidOf(nids, parent), Dirents(kids, nids)), bs)
    case _ => []
  }

  /** Their number, which no nid changes. */
  function PayloadSize(it: Item, bs: nat): nat
    requires bs > 0
  {
    |Payload(it, 0, [], bs)|
  }

  lemma PayloadLength(it: Item, self: nat, nids: seq<nat>, bs: nat)
    requires bs > 0
    ensures |Payload(it, self, nids, bs)| == PayloadSize(it, bs)
  {
    hide EncodeDir, DirEntries;
    if it.body.Dir? {
      var kids := it.body.kids;
      SizeSame(Dirents(kids, []), NidOf(nids, self), NidOf(nids, it.body.parent), Dirents(kids, nids), bs);
      assert NidOf([], 0) == 0 && NidOf([], it.body.parent) == 0;
    }
  }

  /** chunkCount. */
  function MapSize(it: Item, bs: nat): nat
    requires bs > 0 && it.body.Runs?
  {
    PositiveChunk(bs, it.body.bits);
    if it.body.size == 0 && it.body.runs == [] then 0 else CeilDiv(it.body.size, bs * Pow2(it.body.bits))
  }

  function NeedOf(it: Item, c: Config): L.Need
    requires c.bs > 0
  {
    match it.body
    case Special(_) => L.Nothing
    case File(data) => if data == [] then L.Nothing else L.Whole(|data|, !c.noInline, true)
    case Link(target) => L.Whole(|target|, true, false)
    case Dir(_, _) => L.Whole(PayloadSize(it, c.bs), true, false)
    case Runs(_, _, _, _) => L.Map(MapSize(it, c.bs))
  }

  /** inodeFileSize. */
  function SizeOf(it: Item, bs: nat): nat
    requires bs > 0
  {
    if it.body.Runs? then it.body.size else PayloadSize(it, bs)
  }

  /** A compact inode has no time of its own and narrow fields. */
  predicate Compact(it: Item, c: Config)
    requires c.bs > 0
  {
    && it.attr.uid <= 0xFFFF && it.attr.gid <= 0xFFFF && it.attr.nlink <= 0xFFFF && SizeOf(it, c.bs) <= 0xFFFF_FFFF
    && it.attr.mtime == c.buildTime && it.attr.mtimeNs == c.buildTimeNs
  }

  function ShapeOf(it: Item, c: Config): (s: L.Shape)
    requires c.bs > 0
    ensures L.ShapeOk(s)
  {
    L.Shape(if Compact(it, c) then L.CORE_COMPACT else L.CORE_EXTENDED, |AreaOf(it)|, NeedOf(it, c))
  }

  /** xattrBodySize. */
  function XattrSize(count: nat): nat {
    if count == 0 then 0 else (count - 1) * 4 + 12
  }

  const CHUNK_INDEXES: nat := 0x20

  /** i_u. */
  function WordOf(it: Item, how: L.How, at: S.Place): nat {
    match it.body
    case Special(rdev) => rdev
    case Runs(_, bits, _, _) => CHUNK_INDEXES + bits
    case File(data) => if how == L.Plain && data != [] then at.data else 0
    case _ => if how == L.Plain then at.data else 0
  }

  function CoreOf(it: Item, c: Config, how: L.How, at: S.Place): I.Core
    requires c.bs > 0
  {
    var layout := match how case Plain => I.FLAT_PLAIN case Inline => I.FLAT_INLINE case Chunked => I.CHUNK_BASED;
    I.Core(!Compact(it, c), layout, X.ICount(|AreaOf(it)|), it.attr.mode, it.attr.nlink, SizeOf(it, c.bs), WordOf(it, how, at),
           it.attr.uid, it.attr.gid, it.attr.mtime, it.attr.mtimeNs)
  }

  function TrailOf(it: Item, self: nat, nids: seq<nat>, c: Config, how: L.How, at: S.Place): seq<byte>
    requires c.bs > 0
  {
    if how == L.Inline then Payload(it, self, nids, c.bs)
    else if how == L.Chunked && it.body.Runs? then IndexMap(WithTail(it.body.runs, it.body.tail, at.tail), Pow2(it.body.bits), MapSize(it, c.bs))
    else []
  }

  function PartOf(it: Item, self: nat, nids: seq<nat>, c: Config, how: L.How, at: S.Place): S.Part
    requires c.bs > 0
  {
    S.Part(I.Encode(CoreOf(it, c, how, at)), AreaOf(it), TrailOf(it, self, nids, c, how, at),
           if how == L.Plain then Payload(it, self, nids, c.bs) else [], if it.body.Runs? then it.body.tail else [])
  }

  /** A part is as big as the plan says, whatever addresses it names. */
  lemma PartSized(it: Item, self: nat, nids: seq<nat>, c: Config, slot: L.Slot, at: S.Place)
    requires ConfigOk(c) && L.Slotted(c.bs, ShapeOf(it, c), slot)
    ensures S.Sized(ShapeOf(it, c), slot, PartOf(it, self, nids, c, slot.how, at))
  {
    hide IndexMap, Payload, PayloadSize, MapSize, I.Encode, Mod;
    PayloadLength(it, self, nids, c.bs);
    if it.body.File? || it.body.Link? {
      PayloadLength(it, 0, [], c.bs);
      PayloadIs(it, self, nids, c.bs);
    }
  }

  lemma PayloadIs(it: Item, self: nat, nids: seq<nat>, bs: nat)
    requires bs > 0 && (it.body.File? || it.body.Link?)
    ensures Payload(it, self, nids, bs) == if it.body.File? then it.body.data else it.body.target
  {
  }

  // ---- Reading ----

  /** The reader's inode for a decoded core found at addr. */
  function ReadInode(d: I.Decoded, addr: nat): Inode {
    var c := d.core;
    var layout := if c.layout == I.CHUNK_BASED then ChunkBased(c.word % 32, (c.word / CHUNK_INDEXES) % 2 == 1, (c.word / 64) % 2 == 1)
                  else if c.layout == I.FLAT_INLINE then FlatInline else FlatPlain;
    Inode(layout, c.size, c.word + 0x1_0000_0000 * d.startHi, d.addr48, addr + (if c.extended then 64 else 32) + XattrSize(c.xcount))
  }

  predicate Unmapped(img: Image) {
    forall i :: 0 <= i < |img.devices| ==> img.devices[i].mapped == 0
  }

  lemma OnPrimary(img: Image, pa: nat)
    requires Unmapped(img) && pa < |img.bytes|
    ensures ByteAt(img, 0, pa) == Some(img.bytes[pa])
  {
    NothingMapped(img, pa, 0);
  }

  lemma PlainReads(img: Image, ino: Inode, data: seq<byte>, p: nat)
    requires img.bs > 0 && Unmapped(img) && ino.layout.FlatPlain? && ino.size == |data| && p < |data| && !NullStart(ino.start, ino.addr48)
    requires S.HoldsAt(img.bytes, ino.start * img.bs, data)
    ensures FileByte(img, ino, p) == Some(data[p])
  {
    hide Div, Mod, NullStart;
    var bs := img.bs;
    DivMod(p, bs);
    var bn, off := Div(p, bs), Mod(p, bs);
    assert (ino.start + bn) * bs == ino.start * bs + bn * bs;
    OnPrimary(img, ino.start * bs + p);
    assert img.bytes[ino.start * bs..ino.start * bs + |data|][p] == data[p];
  }

  lemma InlineReads(img: Image, ino: Inode, data: seq<byte>, p: nat)
    requires img.bs > 0 && ino.layout.FlatInline? && ino.size == |data| <= img.bs && p < |data|
    requires S.HoldsAt(img.bytes, ino.head, data) && Mod(ino.head, img.bs) + |data| <= img.bs
    ensures FileByte(img, ino, p) == Some(data[p])
  {
    hide Mod;
    var bs := img.bs;
    InOneBlock(p, |data|, bs);
    assert img.bytes[ino.head..ino.head + |data|][p] == data[p];
  }

  lemma InOneBlock(p: nat, size: nat, bs: nat)
    requires 0 < bs && p < size <= bs
    ensures Div(p, bs) == 0 && Mod(p, bs) == p && CeilDiv(size, bs) == 1 && Mod(size - 1, bs) == size - 1
  {
    SmallMod(p, bs);
    SmallMod(size - 1, bs);
    CeilUnique(size, bs, 1);
  }

  // ---- The image ----

  /** Field widths and what the attribute area's size must be. */
  predicate ItemOk(it: Item, c: Config)
    requires c.bs > 0
  {
    && it.attr.mode <= 0xFFFF && it.attr.nlink <= 0xFFFF_FFFF && it.attr.uid <= 0xFFFF_FFFF && it.attr.gid <= 0xFFFF_FFFF
    && it.attr.mtime < Width(8) && it.attr.mtimeNs <= 0xFFFF_FFFF
    && (forall i, j :: 0 <= i < j < |it.attrs| ==> it.attrs[i].0 != it.attrs[j].0)
    && SizeOf(it, c.bs) <= MAX_INT64
    && (it.body.Special? ==> it.body.rdev <= 0xFFFF_FFFF)
    && (it.body.Runs? ==> it.body.bits <= 31 && |it.body.tail| <= c.bs)
  }

  /** i_xattr_icount says the area's size exactly, and never the one value the reader refuses. */
  lemma AreaCounted(it: Item)
    ensures XattrSize(X.ICount(|AreaOf(it)|)) == |AreaOf(it)| && X.ICount(|AreaOf(it)|) != 1
  {
    hide X.Area, X.AllValid;
    if it.attrs != [] && X.AllValid(it.attrs) {
      X.CountExact(it.attrs);
    }
  }

  /** Parsing an item's area gives its attributes. */
  ghost predicate AttrsBack(it: Item) {
    it.attrs != [] ==> forall env: XA.Env :: XA.Parse(env, AreaOf(it)) == Ok(X.MapOf(it.attrs))
  }

  lemma AttrsRead(it: Item)
    requires X.AllValid(it.attrs)
    ensures AttrsBack(it)
  {
    hide X.Area, X.Valid, XA.Parse;
    forall env: XA.Env ensures XA.Parse(env, X.Area(it.attrs)) == Ok(X.MapOf(it.attrs)) {
      X.WrittenReads(env, it.attrs);
    }
  }

  /** Every reader of the image finds these bytes in the file, whatever other devices it has. */
  ghost predicate Serves(bs: nat, image: seq<byte>, ino: Inode, data: seq<byte>) {
    forall img: Image, p: nat :: img.bs == bs > 0 && img.bytes == image && Unmapped(img) && p < |data| ==> FileByte(img, ino, p) == Some(data[p])
  }

  /** Every reader of the image finds this chunk map behind the inode, and the copied tail in its block. */
  ghost predicate ServesMap(bs: nat, image: seq<byte>, ino: Inode, runs: seq<Chunk>, n: nat, tail: seq<byte>, tailBlk: nat) {
    && ino.layout.ChunkBased? && ino.layout.indexed && !ino.layout.wide
    && forall img: Image :: img.bs == bs && img.bytes == image ==> (n > 0 ==> HoldsMap(img, ino, runs, n)) && HoldsTail(img, tail, tailBlk)
  }

  /** The inode a reader decodes for an item whose slot is at addr. */
  function InodeOf(it: Item, c: Config, how: L.How, at: S.Place, addr: nat): Inode
    requires c.bs > 0
  {
    ReadInode(I.Decoded(CoreOf(it, c, how, at), 0, !Compact(it, c)), addr)
  }

  /** What a reader finds at item i's nid: its metadata, its attributes, its bytes, its chunk map. */
  ghost predicate ReadsBack(c: Config, items: seq<Item>, nids: seq<nat>, how: L.How, at: S.Place, addr: nat, image: seq<byte>, i: nat)
    requires c.bs > 0 && i < |items|
  {
    var it, ino := items[i], InodeOf(items[i], c, how, at, addr);
    && addr <= |image|
    && I.Decode(image[addr..], c.buildTime, c.buildTimeNs) == Ok(I.Decoded(CoreOf(it, c, how, at), 0, !Compact(it, c)))
    && ino.head >= |AreaOf(it)| && S.HoldsAt(image, ino.head - |AreaOf(it)|, AreaOf(it)) && AttrsBack(it)
    && Serves(c.bs, image, ino, Payload(it, i, nids, c.bs))
    && (it.body.Runs? ==>
          ino.layout == ChunkBased(it.body.bits, true, false) &&
          ServesMap(c.bs, image, ino, WithTail(it.body.runs, it.body.tail, at.tail), MapSize(it, c.bs), it.body.tail, at.tail))
  }

  /** Where a slot is in the image. */
  function SlotAddr(c: Config, metaBlk: nat, slot: L.Slot): nat {
    metaBlk * c.bs + slot.off
  }

  /** w starts block blk. */
  predicate HoldsBlock(image: seq<byte>, blk: nat, bs: nat, w: seq<byte>) {
    S.HoldsAt(image, blk * bs, w)
  }

  /** Item i's bytes are where its slot and its blocks say. */
  ghost predicate InPlace(c: Config, items: seq<Item>, nids: seq<nat>, slot: L.Slot, at: S.Place, addr: nat, image: seq<byte>, i: nat)
    requires c.bs > 0 && i < |items|
  {
    var part := PartOf(items[i], i, nids, c, slot.how, at);
    && S.HoldsAt(image, addr, S.Blob(part, slot))
    && (part.data != [] ==> at.data < NULL_ADDR && HoldsBlock(image, at.data, c.bs, part.data))
    && (part.tail != [] ==> HoldsBlock(image, at.tail, c.bs, part.tail))
  }

  /** The word an inode carries fits its 32 bits, and is no null address where it starts data. */
  lemma WordFits(it: Item, c: Config, how: L.How, at: S.Place)
    requires c.bs > 0 && ItemOk(it, c) && at.data <= 0xFFFF_FFFF
    ensures WordOf(it, how, at) <= 0xFFFF_FFFF
  {
  }

  lemma CoreFits(it: Item, c: Config, how: L.How, at: S.Place)
    requires c.bs > 0 && ItemOk(it, c) && at.data <= 0xFFFF_FFFF && X.ICount(|AreaOf(it)|) <= 0xFFFF
    ensures I.Fits(CoreOf(it, c, how, at), c.buildTime, c.buildTimeNs)
  {
    hide SizeOf, WordOf, X.ICount, AreaOf;
    Widths();
    WordFits(it, c, how, at);
  }

  lemma CoreReads(it: Item, c: Config, how: L.How, at: S.Place, addr: nat, image: seq<byte>)
    requires c.bs > 0 && ItemOk(it, c) && at.data <= 0xFFFF_FFFF && X.ICount(|AreaOf(it)|) <= 0xFFFF
    requires S.HoldsAt(image, addr, I.Encode(CoreOf(it, c, how, at)))
    ensures I.Decode(image[addr..], c.buildTime, c.buildTimeNs) == Ok(I.Decoded(CoreOf(it, c, how, at), 0, !Compact(it, c)))
  {
    hide ItemOk, I.Decode, I.Encode, I.Fits;
    var core := CoreOf(it, c, how, at);
    CoreFits(it, c, how, at);
    var rest := image[addr + |I.Encode(core)|..];
    assert image[addr..] == I.Encode(core) + rest;
    I.RoundTrip(core, rest, c.buildTime, c.buildTimeNs);
  }

  /** The head of an item's inode lies past its core and attributes. */
  lemma HeadOf(it: Item, c: Config, how: L.How, at: S.Place, addr: nat)
    requires c.bs > 0 && ItemOk(it, c)
    ensures InodeOf(it, c, how, at, addr).head == addr + L.Header(ShapeOf(it, c))
    ensures InodeOf(it, c, how, at, addr).size == SizeOf(it, c.bs)
  {
    hide SizeOf, WordOf, NeedOf;
    AreaCounted(it);
  }

  lemma BlobParts(part: S.Part, slot: L.Slot, image: seq<byte>, addr: nat)
    requires S.HoldsAt(image, addr, S.Blob(part, slot))
    ensures S.HoldsAt(image, addr, part.core) && S.HoldsAt(image, addr + |part.core|, part.xattr)
    ensures S.HoldsAt(image, addr + |part.core| + |part.xattr| + slot.pad, part.trail)
  {
    hide S.HoldsAt;
    S.HoldsPart(image, addr, part.core + part.xattr + Zeros(slot.pad), part.trail);
    S.HoldsPart(image, addr, part.core + part.xattr, Zeros(slot.pad));
    S.HoldsPart(image, addr, part.core, part.xattr);
  }

  lemma SameBlockOff(n: nat, x: nat, bs: nat)
    requires bs > 0
    ensures Mod(n * bs + x, bs) == Mod(x, bs)
  {
    DivMod(x, bs);
    assert (n + Div(x, bs)) * bs == n * bs + Div(x, bs) * bs;
    DivUnique(n * bs + x, bs, n + Div(x, bs), Mod(x, bs));
  }

  lemma InlineServes(c: Config, items: seq<Item>, nids: seq<nat>, slot: L.Slot, at: S.Place, metaBlk: nat, addr: nat, image: seq<byte>, i: nat)
    requires ConfigOk(c) && i < |items| && ItemOk(items[i], c) && L.Slotted(c.bs, ShapeOf(items[i], c), slot) && slot.how == L.Inline
    requires addr == SlotAddr(c, metaBlk, slot)
    requires S.HoldsAt(image, addr + L.Header(ShapeOf(items[i], c)), Payload(items[i], i, nids, c.bs))
    ensures Serves(c.bs, image, InodeOf(items[i], c, slot.how, at, addr), Payload(items[i], i, nids, c.bs))
  {
    hide Payload, PayloadSize, S.HoldsAt, FileByte, ItemOk, Mod, WordOf;
    var it := items[i];
    var ino, data := InodeOf(it, c, slot.how, at, addr), Payload(it, i, nids, c.bs);
    HeadOf(it, c, slot.how, at, addr);
    PayloadLength(it, i, nids, c.bs);
    var s := ShapeOf(it, c);
    assert |data| == s.need.size by { NeedSize(it, i, nids, c); }
    L.FitsAfter(slot.off, L.Header(s), |data|, c.bs);
    SameBlockOff(metaBlk, slot.off + L.Header(s), c.bs);
    assert addr + L.Header(s) == metaBlk * c.bs + (slot.off + L.Header(s));
    forall img: Image, p: nat | img.bs == c.bs > 0 && img.bytes == image && Unmapped(img) && p < |data| ensures FileByte(img, ino, p) == Some(data[p]) {
      InlineReads(img, ino, data, p);
    }
  }

  lemma NeedSize(it: Item, self: nat, nids: seq<nat>, c: Config)
    requires c.bs > 0 && NeedOf(it, c).Whole?
    ensures |Payload(it, self, nids, c.bs)| == NeedOf(it, c).size == SizeOf(it, c.bs)
  {
    hide EncodeDir, DirEntries;
    PayloadLength(it, self, nids, c.bs);
  }

  lemma PlainServes(c: Config, items: seq<Item>, nids: seq<nat>, at: S.Place, addr: nat, image: seq<byte>, i: nat)
    requires c.bs > 0 && i < |items| && ItemOk(items[i], c)
    requires var data := Payload(items[i], i, nids, c.bs); data != [] ==> at.data < NULL_ADDR && HoldsBlock(image, at.data, c.bs, data)
    ensures Serves(c.bs, image, InodeOf(items[i], c, L.Plain, at, addr), Payload(items[i], i, nids, c.bs))
  {
    hide PayloadSize, S.HoldsAt, FileByte, ItemOk, EncodeDir, DirEntries;
    var it := items[i];
    var ino, data := InodeOf(it, c, L.Plain, at, addr), Payload(it, i, nids, c.bs);
    if data != [] {
      HeadOf(it, c, L.Plain, at, addr);
      PayloadLength(it, i, nids, c.bs);
      assert ino.start == at.data && ino.layout == FlatPlain;
      assert !NullStart(ino.start, ino.addr48);
      forall img: Image, p: nat | img.bs == c.bs > 0 && img.bytes == image && Unmapped(img) && p < |data| ensures FileByte(img, ino, p) == Some(data[p]) {
        PlainReads(img, ino, data, p);
      }
    }
  }

  /** Where an item's chunk map starts. */
  function MapStart(it: Item, c: Config, slot: L.Slot, addr: nat): nat
    requires c.bs > 0
  {
    addr + L.Header(ShapeOf(it, c)) + slot.pad
  }

  lemma MapFormat(c: Config, it: Item, slot: L.Slot, at: S.Place, addr: nat)
    requires c.bs > 0 && ItemOk(it, c) && it.body.Runs? && L.Slotted(c.bs, ShapeOf(it, c), slot)
    ensures InodeOf(it, c, slot.how, at, addr).layout == ChunkBased(it.body.bits, true, false)
  {
    hide ItemOk, Mod, SizeOf, MapSize, PayloadSize, X.ICount, AreaOf;
    BitsOk(it, c);
    FormatWord(it.body.bits);
  }

  lemma MapFound(c: Config, it: Item, slot: L.Slot, at: S.Place, start: nat, addr: nat)
    requires ConfigOk(c) && ItemOk(it, c) && it.body.Runs? && L.Slotted(c.bs, ShapeOf(it, c), slot) && MapSize(it, c.bs) > 0
    requires start % L.INDEX == 0 && addr == start + slot.off
    ensures var ino := InodeOf(it, c, slot.how, at, addr); ino.layout.ChunkBased? && MapBase(ino) == MapStart(it, c, slot, addr)
  {
    hide ItemOk, InodeOf, L.Slotted, AlignUp, MapSize, SizeOf, L.Header;
    HeadOf(it, c, slot.how, at, addr);
    MapFormat(c, it, slot, at, addr);
    L.MapWhereRead(c.bs, ShapeOf(it, c), slot, start);
  }

  lemma MapServes(c: Config, it: Item, slot: L.Slot, at: S.Place, metaBlk: nat, addr: nat, runs: seq<Chunk>, image: seq<byte>)
    requires ConfigOk(c) && ItemOk(it, c) && it.body.Runs? && L.Slotted(c.bs, ShapeOf(it, c), slot)
    requires addr == metaBlk * c.bs + slot.off && runs == WithTail(it.body.runs, it.body.tail, at.tail)
    requires S.HoldsAt(image, MapStart(it, c, slot, addr), IndexMap(runs, Pow2(it.body.bits), MapSize(it, c.bs)))
    requires it.body.tail != [] ==> HoldsBlock(image, at.tail, c.bs, it.body.tail)
    ensures var ino := InodeOf(it, c, slot.how, at, addr);
            && ino.layout == ChunkBased(it.body.bits, true, false)
            && ServesMap(c.bs, image, ino, runs, MapSize(it, c.bs), it.body.tail, at.tail)
  {
    hide ItemOk, InodeOf, L.Slotted, AlignUp, IndexMap, WithTail, MapSize, Pow2, MapStart;
    MapFormat(c, it, slot, at, addr);
    if MapSize(it, c.bs) > 0 {
      L.MapAligned(c.bs, metaBlk);
      MapFound(c, it, slot, at, metaBlk * c.bs, addr);
    }
  }

  lemma BitsOk(it: Item, c: Config)
    requires c.bs > 0 && ItemOk(it, c) && it.body.Runs?
    ensures it.body.bits <= 31
  {
  }

  lemma FormatWord(bits: nat)
    requires bits <= 31
    ensures (CHUNK_INDEXES + bits) % 32 == bits && ((CHUNK_INDEXES + bits) / CHUNK_INDEXES) % 2 == 1 && ((CHUNK_INDEXES + bits) / 64) % 2 == 0
  {
  }

  lemma ItemReadsBack(c: Config, items: seq<Item>, nids: seq<nat>, slot: L.Slot, at: S.Place, metaBlk: nat, image: seq<byte>, i: nat)
    requires ConfigOk(c) && i < |items| && ItemOk(items[i], c) && L.Slotted(c.bs, ShapeOf(items[i], c), slot)
    requires X.AllValid(items[i].attrs) && X.ICount(|AreaOf(items[i])|) <= 0xFFFF && at.data <= 0xFFFF_FFFF
    requires InPlace(c, items, nids, slot, at, SlotAddr(c, metaBlk, slot), image, i)
    ensures ReadsBack(c, items, nids, slot.how, at, SlotAddr(c, metaBlk, slot), image, i)
  {
    hide ItemOk, Payload, Serves, ServesMap, S.HoldsAt, S.Blob, I.Encode, CoreOf, InodeOf, IndexMap, I.Decode, X.ICount, AreaOf, AttrsBack, X.AllValid;
    var it, addr := items[i], metaBlk * c.bs + slot.off;
    var part := PartOf(it, i, nids, c, slot.how, at);
    BlobParts(part, slot, image, addr);
    CoreReads(it, c, slot.how, at, addr, image);
    AttrsRead(it);
    HeadOf(it, c, slot.how, at, addr);
    PartSized(it, i, nids, c, slot, at);
    HowIs(c, it, slot);
    if slot.how == L.Inline {
      InlineServes(c, items, nids, slot, at, metaBlk, addr, image, i);
    } else if slot.how == L.Plain {
      PlainServes(c, items, nids, at, addr, image, i);
    } else {
      NoPayload(it, i, nids, c.bs, InodeOf(it, c, slot.how, at, addr), image);
      MapServes(c, it, slot, at, metaBlk, addr, WithTail(it.body.runs, it.body.tail, at.tail), image);
    }
    InsideImage(image, addr, part.core);
  }

  lemma HowIs(c: Config, it: Item, slot: L.Slot)
    requires c.bs > 0 && L.Slotted(c.bs, ShapeOf(it, c), slot)
    ensures slot.how == L.Chunked <==> it.body.Runs?
    ensures slot.how == L.Inline ==> slot.pad == 0
  {
    hide Mod, PayloadSize, MapSize;
  }

  lemma NoPayload(it: Item, self: nat, nids: seq<nat>, bs: nat, ino: Inode, image: seq<byte>)
    requires bs > 0 && it.body.Runs?
    ensures Serves(bs, image, ino, Payload(it, self, nids, bs))
  {
  }

  lemma InsideImage(image: seq<byte>, addr: nat, w: seq<byte>)
    requires S.HoldsAt(image, addr, w)
    ensures addr + |w| <= |image|
  {
  }

  // ---- The writer ----

  datatype Finished = Finished(image: seq<byte>, plan: seq<L.Slot>, places: seq<S.Place>, metaBlk: nat, blocks: nat)

  function Shapes(items: seq<Item>, c: Config): (s: seq<L.Shape>)
    requires c.bs > 0
    ensures |s| == |items| && forall i :: 0 <= i < |s| ==> s[i] == ShapeOf(items[i], c)
  {
    seq(|items|, i requires 0 <= i < |items| => ShapeOf(items[i], c))
  }

  /** A slot's nid. */
  function Nids(plan: seq<L.Slot>): (n: seq<nat>)
    ensures |n| == |plan|
  {
    seq(|plan|, i requires 0 <= i < |plan| => plan[i].off / L.SLOT)
  }

  function Parts(items: seq<Item>, c: Config, plan: seq<L.Slot>, places: seq<S.Place>): (ps: seq<S.Part>)
    requires c.bs > 0 && |plan| == |places| == |items|
    ensures |ps| == |items| && forall i :: 0 <= i < |ps| ==> ps[i] == PartOf(items[i], i, Nids(plan), c, plan[i].how, places[i])
  {
    seq(|items|, i requires 0 <= i < |items| => PartOf(items[i], i, Nids(plan), c, plan[i].how, places[i]))
  }

  lemma PartsSized(items: seq<Item>, c: Config, plan: seq<L.Slot>, places: seq<S.Place>)
    requires ConfigOk(c) && |plan| == |places| == |items| && L.Planned(c.bs, Shapes(items, c), plan)
    ensures S.AllSized(Shapes(items, c), plan, Parts(items, c, plan, places))
  {
    hide PartOf, ShapeOf, Parts, Shapes, L.Slotted, S.Sized;
    forall i | 0 <= i < |items| ensures S.Sized(Shapes(items, c)[i], plan[i], Parts(items, c, plan, places)[i]) {
      PartSized(items[i], i, Nids(plan), c, plan[i], places[i]);
    }
  }

  /** Addresses do not change what the blocks are. */
  lemma SameBlocks(items: seq<Item>, c: Config, plan: seq<L.Slot>, a: seq<S.Place>, b: seq<S.Place>, i: nat)
    requires c.bs > 0 && |plan| == |a| == |b| == |items| && i <= |items|
    ensures S.BlocksTo(c.bs, Parts(items, c, plan, a), i) == S.BlocksTo(c.bs, Parts(items, c, plan, b), i)
  {
    hide Parts, Payload, TrailOf, CoreOf, I.Encode;
    S.BlocksSame(c.bs, Parts(items, c, plan, a), Parts(items, c, plan, b), i);
  }

  /** The first block past the data. */
  function MetaBlock(items: seq<Item>, c: Config, plan: seq<L.Slot>, places: seq<S.Place>, from: nat): nat
    requires c.bs > 0 && |plan| == |places| == |items|
  {
    from + S.BlocksTo(c.bs, Parts(items, c, plan, places), |items|)
  }

  lemma DataBelow(c: Config, items: seq<Item>, plan: seq<L.Slot>, places: seq<S.Place>, bare: seq<S.Place>, from: nat, i: nat)
    requires c.bs > 0 && |plan| == |places| == |bare| == |items| && i < |items|
    requires S.Placed(c.bs, Parts(items, c, plan, bare), from, i, places[i])
    requires MetaBlock(items, c, plan, places, from) <= NULL_ADDR
    ensures var ps := Parts(items, c, plan, places);
            && places[i].data < NULL_ADDR && places[i].tail < NULL_ADDR
            && (ps[i].data != [] ==> places[i].data == from + S.BlocksTo(c.bs, ps, i))
            && (ps[i].tail != [] ==> places[i].tail == from + S.BlocksTo(c.bs, ps, i) + CeilDiv(|ps[i].data|, c.bs))
  {
    hide Parts, Payload, TrailOf, CoreOf, I.Encode, CeilDiv, S.BlocksTo;
    var ps, qs := Parts(items, c, plan, places), Parts(items, c, plan, bare);
    SameBlocks(items, c, plan, places, bare, i);
    assert ps[i].data == qs[i].data && ps[i].tail == qs[i].tail;
    S.BlocksGrow(c.bs, ps, i + 1, |items|);
    if |ps[i].data| > 0 {
      AtLeastOne(c.bs, ps, i);
    }
    S.NextBlocks(c.bs, ps, i);
  }

  lemma Laying(c: Config, items: seq<Item>, plan: seq<L.Slot>, places: seq<S.Place>, bare: seq<S.Place>, from: nat, metaBlk: nat, image: seq<byte>, i: nat)
    requires c.bs > 0 && |plan| == |places| == |bare| == |items| && i < |items|
    requires S.Placed(c.bs, Parts(items, c, plan, bare), from, i, places[i])
    requires S.Laid(c.bs, plan, Parts(items, c, plan, places), from, image, i)
    requires metaBlk == MetaBlock(items, c, plan, places, from) <= NULL_ADDR
    ensures InPlace(c, items, Nids(plan), plan[i], places[i], SlotAddr(c, metaBlk, plan[i]), image, i)
  {
    hide Parts, PartOf, S.HoldsAt, S.Blob, CeilDiv, S.BlocksTo;
    DataBelow(c, items, plan, places, bare, from, i);
  }

  lemma AtLeastOne(bs: nat, ps: seq<S.Part>, i: nat)
    requires bs > 0 && i < |ps| && |ps[i].data| > 0
    ensures S.BlocksTo(bs, ps, i) < S.BlocksTo(bs, ps, i + 1)
  {
    CeilIndex(|ps[i].data|, bs, 0);
  }

  /** Item i reads back from the finished image. */
  ghost predicate ItemBack(c: Config, items: seq<Item>, w: Finished, i: nat)
    requires c.bs > 0 && i < |items| == |w.plan| == |w.places|
  {
    ReadsBack(c, items, Nids(w.plan), w.plan[i].how, w.places[i], SlotAddr(c, w.metaBlk, w.plan[i]), w.image, i)
  }

  /** No data is put at the null address. */
  predicate Addressed(at: S.Place) {
    at.data < NULL_ADDR && at.tail < NULL_ADDR
  }

  /** validateXattr on each attribute, and the field that counts them. */
  predicate XattrsOk(it: Item) {
    X.AllValid(it.attrs) && X.ICount(|AreaOf(it)|) <= 0xFFFF
  }

  const MAX_CHUNK_ENTRIES: nat := 0x800_0000

  /** What the format can say of an item: a link that leads somewhere, a map of entries it can count, runs within 32-bit addresses, its attributes. */
  predicate Writable(it: Item, c: Config)
    requires c.bs > 0
  {
    && (it.body.Link? ==> it.body.target != [])
    && (it.body.Runs? ==> MapSize(it, c.bs) <= MAX_CHUNK_ENTRIES && Near(it.body.runs))
    && XattrsOk(it)
  }

  predicate Near(runs: seq<Chunk>) {
    forall i :: 0 <= i < |runs| && !IsHole(runs[i]) ==> runs[i].phys + runs[i].count <= NULL_ADDR
  }

  /** checkLimits' pass over the entries. */
  method CheckItems(items: seq<Item>, c: Config) returns (r: Option<Error>)
    requires c.bs > 0
    ensures r.None? <==> forall i :: 0 <= i < |items| ==> Writable(items[i], c)
  {
    hide XattrsOk, MapSize;
    for i := 0 to |items|
      invariant forall k :: 0 <= k < i ==> Writable(items[k], c)
    {
      var b := items[i].body;
      if b.Link? && b.target == [] {
        return Some(Invalid);
      }
      if b.Runs? {
        if MapSize(items[i], c.bs) > MAX_CHUNK_ENTRIES {
          return Some(Invalid);
        }
        var near := CheckLimits(b.runs);
        if !near {
          return Some(NotImplemented);
        }
      }
      if !XattrsOk(items[i]) {
        return Some(Invalid);
      }
    }
    return None;
  }

  /** The image so planned has more blocks than a 32-bit address can name. */
  ghost predicate TooBig(c: Config, items: seq<Item>, plan: seq<L.Slot>, places: seq<S.Place>)
    requires c.bs > 0
  {
    && |plan| == |places| == |items| && L.Planned(c.bs, Shapes(items, c), plan)
    && S.TotalBlocks(c.bs, c.devices, Shapes(items, c), plan, Parts(items, c, plan, places)) > 0xFFFF_FFFF
  }

  /** The superblock's area, as long as the device table makes it. */
  predicate SuperSized(c: Config, super: seq<byte>)
    requires c.bs > 0
  {
    |super| == S.SuperBlocks(c.bs, c.devices) * c.bs
  }

  /** What the writer takes: items the format can say, in blocks it can count. */
  ghost predicate Accepted(c: Config, items: seq<Item>)
    requires c.bs > 0
  {
    (forall i :: 0 <= i < |items| ==> Writable(items[i], c)) && !exists plan, places :: TooBig(c, items, plan, places)
  }

  lemma AcceptedAt(c: Config, items: seq<Item>, i: nat)
    requires c.bs > 0 && Accepted(c, items) && i < |items|
    ensures Writable(items[i], c)
  {
  }

  lemma ShapesOk(items: seq<Item>, c: Config)
    requires c.bs > 0
    ensures forall i :: 0 <= i < |items| ==> L.ShapeOk(Shapes(items, c)[i])
  {
    hide ShapeOf;
  }

  /** The items have one plan, and no addresses make it larger or smaller. */
  lemma OneSize(c: Config, items: seq<Item>, plan: seq<L.Slot>, places: seq<S.Place>)
    requires ConfigOk(c) && |plan| == |places| == |items| && L.Planned(c.bs, Shapes(items, c), plan)
    ensures (exists q, r :: TooBig(c, items, q, r)) <==> TooBig(c, items, plan, places)
  {
    hide Parts, Shapes, L.Planned, L.PlanEnd, S.BlocksTo, CeilDiv, L.ShapeOk;
    ShapesOk(items, c);
    forall q, r | TooBig(c, items, q, r) ensures TooBig(c, items, plan, places) {
      L.PlanUnique(c.bs, Shapes(items, c), plan, q);
      SameBlocks(items, c, plan, places, r, |items|);
    }
  }

  /** An image of these items: refused exactly where the format cannot say an item or count the blocks, else as long as its superblock says and read back whole, item by item. */
  method WriteItems(c: Config, items: seq<Item>, super: seq<byte>) returns (r: Result<Finished>)
    requires ConfigOk(c) && SuperSized(c, super) && forall i :: 0 <= i < |items| ==> ItemOk(items[i], c)
    ensures r.Ok? <==> Accepted(c, items)
    ensures r.Ok? ==> |r.value.plan| == |items| == |r.value.places| && L.Planned(c.bs, Shapes(items, c), r.value.plan)
    ensures r.Ok? ==> |r.value.image| == r.value.blocks * c.bs && r.value.blocks <= 0xFFFF_FFFF
    ensures r.Ok? ==> forall i :: 0 <= i < |items| ==> ItemBack(c, items, r.value, i) && Addressed(r.value.places[i])
  {
    hide ItemOk, Parts, S.BlocksTo, CeilDiv, L.PlanEnd, ItemBack, S.Laid, L.Planned, S.AllPlaced, S.AllSized, Writable, S.SuperBlocks, Shapes, L.ShapeOk,
         TooBig;
    var bad := CheckItems(items, c);
    if bad.Some? {
      return Err(bad.value);
    }
    ShapesOk(items, c);
    var shapes := Shapes(items, c);
    var plan := L.PlanLayout(c.bs, shapes);
    var none := seq(|items|, _ => S.Place(0, 0));
    var from := S.SuperBlocks(c.bs, c.devices);
    var places, end := S.AssignAddrs(c.bs, Parts(items, c, plan, none), from);
    var parts := Parts(items, c, plan, places);
    var blocks := S.TotalBlocks(c.bs, c.devices, shapes, plan, parts);
    OneSize(c, items, plan, places);
    assert TooBig(c, items, plan, places) <==> blocks > 0xFFFF_FFFF by { BigIs(c, items, plan, places); }
    if blocks > 0xFFFF_FFFF {
      return Err(Invalid);
    }
    PartsSized(items, c, plan, places);
    TailsFit(items, c, plan, places);
    var image, _, metaBlk := S.WriteImage(c.bs, c.devices, super, shapes, plan, parts);
    var w := Finished(image.value, plan, places, metaBlk, blocks);
    forall i | 0 <= i < |items| ensures ItemBack(c, items, w, i) && Addressed(w.places[i]) {
      OneBack(c, items, w, none, from, i);
    }
    return Ok(w);
  }

  /** An image with an inode in it is not empty. */
  lemma ImageSome(c: Config, items: seq<Item>, w: Finished, i: nat)
    requires c.bs > 0 && i < |items| == |w.plan| == |w.places| && ItemBack(c, items, w, i)
    ensures |w.image| > 0
  {
    hide Serves, AttrsBack, CoreOf, ServesMap, Payload, InodeOf;
  }

  lemma BigIs(c: Config, items: seq<Item>, plan: seq<L.Slot>, places: seq<S.Place>)
    requires c.bs > 0 && |plan| == |places| == |items| && L.Planned(c.bs, Shapes(items, c), plan)
    ensures TooBig(c, items, plan, places) <==>
            S.TotalBlocks(c.bs, c.devices, Shapes(items, c), plan, Parts(items, c, plan, places)) > 0xFFFF_FFFF
  {
    hide Parts, Shapes, L.Planned, S.TotalBlocks;
  }

  lemma OneBack(c: Config, items: seq<Item>, w: Finished, bare: seq<S.Place>, from: nat, i: nat)
    requires ConfigOk(c) && i < |items| == |w.plan| == |w.places| == |bare| && ItemOk(items[i], c) && Writable(items[i], c)
    requires L.Planned(c.bs, Shapes(items, c), w.plan) && S.AllPlaced(c.bs, Parts(items, c, w.plan, bare), from, w.places)
    requires S.Laid(c.bs, w.plan, Parts(items, c, w.plan, w.places), from, w.image, i)
    requires w.metaBlk == MetaBlock(items, c, w.plan, w.places, from) <= NULL_ADDR
    ensures ItemBack(c, items, w, i) && Addressed(w.places[i])
  {
    hide ItemOk, Parts, S.BlocksTo, ReadsBack, S.Laid, L.Planned, S.AllPlaced, AreaOf, Shapes, MetaBlock, L.Slotted, InPlace, S.Placed, SlotAddr;
    PlacedAt(c, Parts(items, c, w.plan, bare), from, w.places, i);
    SlottedAt(c, items, w.plan, i);
    DataBelow(c, items, w.plan, w.places, bare, from, i);
    Laying(c, items, w.plan, w.places, bare, from, w.metaBlk, w.image, i);
    ItemReadsBack(c, items, Nids(w.plan), w.plan[i], w.places[i], w.metaBlk, w.image, i);
  }

  lemma PlacedAt(c: Config, bare: seq<S.Part>, from: nat, places: seq<S.Place>, i: nat)
    requires c.bs > 0 && i < |places| == |bare| && S.AllPlaced(c.bs, bare, from, places)
    ensures S.Placed(c.bs, bare, from, i, places[i])
  {
  }

  lemma SlottedAt(c: Config, items: seq<Item>, plan: seq<L.Slot>, i: nat)
    requires c.bs > 0 && i < |items| == |plan| && L.Planned(c.bs, Shapes(items, c), plan)
    ensures L.Slotted(c.bs, ShapeOf(items[i], c), plan[i])
  {
    hide ShapeOf, L.Slotted;
  }

  lemma TailsFit(items: seq<Item>, c: Config, plan: seq<L.Slot>, places: seq<S.Place>)
    requires c.bs > 0 && |plan| == |places| == |items| && forall i :: 0 <= i < |items| ==> ItemOk(items[i], c)
    ensures forall k :: 0 <= k < |items| ==> |Parts(items, c, plan, places)[k].tail| <= c.bs
  {
    hide Parts, Payload, TrailOf, CoreOf, I.Encode, SizeOf;
    forall k | 0 <= k < |items| ensures |Parts(items, c, plan, places)[k].tail| <= c.bs {
      assert ItemOk(items[k], c);
    }
  }
}
