/** A file copied from another image, somewhere in a published tree: read by its path, it has the source's bytes (mkfs_image.go, erofs.go). */
module TreeCopies {
  import opened Bytes
  import opened Namespace
  import opened TreeItems
  import opened TreeImage
  import B = BlockMap
  import D = DataReader
  import F = FileReader
  import K = CopyFile
  import C = CopyImage
  import R = CopyBack
  import P = ImagePaths
  import T = WriterTree
  import W = ImageWriter

  /** The content read of a copied item is the source's. */
  lemma CopyContent(src: B.Image, ino: B.Inode, copyId: nat, c: W.Config, items: seq<W.Item>, w: W.Finished, k: nat, copied: K.Copied, devices: seq<B.Device>, data: seq<byte>)
    requires W.ConfigOk(c) && OnDisk(c, items, w) && k < |items| && W.Writable(items[k], c) && |w.image| <= B.MAX_INT64
    requires B.WellFormed(src) && 0 < ino.size && C.Hosts(src, copyId, devices, c.bs) && |devices| == c.devices
    requires C.Copies(src, ino, copyId, c.devices, items[k], copied)
    requires P.Content(c, items, w, B.Image(c.bs, w.image, devices), k, data)
    ensures |data| == ino.size && D.Denotes(src, ino, 0, data)
  {
    hide B.WellFormed, C.Copies, W.ItemOk, W.Writable, W.ItemBack, W.Addressed, R.Registers, B.FileByte, C.SameContent, W.InodeOf, F.AllReadable, D.Denotes;
    var dst := B.Image(c.bs, w.image, devices);
    C.HostRegisters(src, copyId, devices, w.image);
    C.CopyServed(src, ino, copyId, c, items, w, k, copied, dst);
    C.SameFile(src, ino, dst, C.InodeAt(c, items, w, k), data);
  }

  /** A Writer closed, the image opened over devices that hold the source, and a copied file read by its path: the source file, byte for byte. */
  method ReadCopied(w: T.Writer, look: Look, c: W.Config, super: seq<byte>, devices: seq<B.Device>, path: Path, src: B.Image, ino: B.Inode, copyId: nat, ghost copied: K.Copied)
    returns (image: Result<W.Finished>, node: Result<P.Node>)
    requires w.Valid() && Presentable(w.Names(), look) && W.ConfigOk(c) && W.SuperSized(c, super)
    requires B.WellFormed(src) && 0 < ino.size && C.Hosts(src, copyId, devices, c.bs) && |devices| == c.devices
    requires path in w.Names().at && w.Names().at[path].kind != Directory && C.Copies(src, ino, copyId, c.devices, look(w.Names().at[path]), copied)
    ensures image.Ok? && |image.value.image| <= B.MAX_INT64 ==>
              node.Ok? && Found(w.Names(), look, path, node.value) && |node.value.data| == ino.size && D.Denotes(src, ino, 0, node.value.data)
  {
    hide *;
    var items;
    HostsPlain(src, copyId, devices, c.bs);
    items, image, node := PublishAndRead(w, look, c, super, devices, path);
    if image.Ok? && |image.value.image| <= B.MAX_INT64 {
      CopiedPath(w.Names(), look, items, path, src, ino, copyId, c, image.value, devices, copied, node.value);
    }
  }

  lemma HostsPlain(src: B.Image, copyId: nat, devices: seq<B.Device>, bs: nat)
    requires C.Hosts(src, copyId, devices, bs)
    ensures Plain(devices, bs)
  {
  }

  lemma CopiedPath(n: Space, look: Look, items: seq<W.Item>, p: Path, src: B.Image, ino: B.Inode, copyId: nat, c: W.Config, w: W.Finished, devices: seq<B.Device>, copied: K.Copied, node: P.Node)
    requires p in n.at && n.at[p].kind != Directory && W.ConfigOk(c) && W.Accepted(c, items) && OnDisk(c, items, w) && |w.image| <= B.MAX_INT64
    requires B.WellFormed(src) && 0 < ino.size && C.Hosts(src, copyId, devices, c.bs) && |devices| == c.devices
    requires C.Copies(src, ino, copyId, c.devices, look(n.at[p]), copied) && Read(n, look, items, p, c, w, devices, node)
    ensures |node.data| == ino.size && D.Denotes(src, ino, 0, node.data)
  {
    hide B.WellFormed, C.Copies, W.Writable, OnDisk, P.Content, W.Accepted, D.Denotes, CountAt;
    var k: nat :| k < |items| && Depicts(n, look, items[k], p) && P.Content(c, items, w, B.Image(c.bs, w.image, devices), k, node.data);
    W.AcceptedAt(c, items, k);
    BodyCopies(src, ino, copyId, c.devices, look(n.at[p]), items[k], copied);
    CopyContent(src, ino, copyId, c, items, w, k, copied, devices, node.data);
  }

  lemma BodyCopies(src: B.Image, ino: B.Inode, copyId: nat, devices: nat, a: W.Item, b: W.Item, copied: K.Copied)
    requires src.bs > 0 && C.Copies(src, ino, copyId, devices, a, copied) && a.body == b.body
    ensures C.Copies(src, ino, copyId, devices, b, copied)
  {
    hide B.WellFormed, K.SingleRun;
  }
}
