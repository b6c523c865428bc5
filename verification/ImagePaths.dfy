/** Paths looked up in a written image: from the root's inode, a directory read and searched for each name (erofs.go: resolve, lookup, Read). */
module ImagePaths {
  import opened Arith
  import opened Bytes
  import opened Names
  import opened BlockMap
  import opened DataReader
  import opened FileReader
  import opened DirCodec
  import opened DirWriter
  import opened DirBlocks
  import opened DirSearch
  import DirLookup
  import N = Namespace
  import I = InodeCodec
  import L = Layout
  import W = ImageWriter

  // ---- Items as a tree ----

  predicate GoodName(n: Name) {
    ProperName(n) && n != DOT && n != DOTDOT
  }

  /** An entry's type says whether its item is a directory, and whether it is a link. */
  predicate Typed(ftype: byte, it: W.Item) {
    (ftype == TYPE_DIR <==> it.body.Dir?) && (ftype == TYPE_SYMLINK <==> it.body.Link?)
  }

  /** A directory's entries have distinct proper names and say of each item what it is. */
  predicate KidsOk(items: seq<W.Item>, i: nat)
    requires i < |items|
  {
    items[i].body.Dir? ==>
      var kids := items[i].body.kids;
      && (forall j :: 0 <= j < |kids| ==>
            GoodName(kids[j].name) && kids[j].target < |items| && Typed(kids[j].ftype, items[kids[j].target]))
      && (forall j, k :: 0 <= j < k < |kids| ==> kids[j].name != kids[k].name)
  }

  predicate Rooted(items: seq<W.Item>) {
    items != [] && items[0].body.Dir? && forall i :: 0 <= i < |items| ==> KidsOk(items, i)
  }

  /** The item a directory has under a name. */
  function KidAt(kids: seq<W.Kid>, n: Name): Option<nat> {
    if kids == [] then None else if kids[0].name == n then Some(kids[0].target) else KidAt(kids[1..], n)
  }

  /** The item that lookups along p lead to from the first. */
  function ItemAt(items: seq<W.Item>, p: N.Path): Option<nat>
    decreases |p|
  {
    if p == [] then Some(0)
    else
      var d := ItemAt(items, N.Dir(p));
      if d.None? || d.value >= |items| || !items[d.value].body.Dir? then None
      else KidAt(items[d.value].body.kids, p[|p| - 1])
  }

  lemma {:induction false} KidFound(kids: seq<W.Kid>, n: Name, j: nat)
    requires j < |kids| && kids[j].name == n && forall i, k :: 0 <= i < k < |kids| ==> kids[i].name != kids[k].name
    ensures KidAt(kids, n) == Some(kids[j].target)
  {
    if j > 0 {
      KidFound(kids[1..], n, j - 1);
    }
  }

  lemma {:induction false} KidMissing(kids: seq<W.Kid>, n: Name)
    ensures KidAt(kids, n).None? <==> forall j :: 0 <= j < |kids| ==> kids[j].name != n
  {
    if kids != [] {
      KidMissing(kids[1..], n);
      assert forall j :: 0 < j < |kids| ==> kids[j] == kids[1..][j - 1];
    }
  }

  lemma {:induction false} ItemInside(items: seq<W.Item>, p: N.Path)
    requires Rooted(items)
    ensures ItemAt(items, p).Some? ==> ItemAt(items, p).value < |items|
    decreases |p|
  {
    hide KidAt;
    if p != [] {
      ItemInside(items, N.Dir(p));
      var d := ItemAt(items, N.Dir(p));
      if d.Some? && items[d.value].body.Dir? {
        assert KidsOk(items, d.value);
        KidInside(items[d.value].body.kids, p[|p| - 1], |items|);
      }
    }
  }

  lemma {:induction false} KidInside(kids: seq<W.Kid>, n: Name, bound: nat)
    requires forall j :: 0 <= j < |kids| ==> kids[j].target < bound
    ensures KidAt(kids, n).Some? ==> KidAt(kids, n).value < bound
  {
    if kids != [] {
      KidInside(kids[1..], n, bound);
    }
  }

  // ---- One inode ----

  /** A written image as a reader has it, over devices of its own. */
  ghost predicate Shows(c: W.Config, items: seq<W.Item>, w: W.Finished, img: Image) {
    && W.ConfigOk(c) && |items| == |w.plan| == |w.places| && L.Planned(c.bs, W.Shapes(items, c), w.plan)
    && (forall i :: 0 <= i < |items| ==> W.ItemOk(items[i], c) && W.ItemBack(c, items, w, i))
    && img.bs == c.bs && img.bytes == w.image && WellFormed(img) && W.Unmapped(img)
  }

  /** Where a nid's inode is. */
  function NodeAddr(bs: nat, metaBlk: nat, nid: nat): nat {
    metaBlk * bs + nid * L.SLOT
  }

  /** Item k's nid. */
  function NidAt(w: W.Finished, k: nat): nat {
    W.NidOf(W.Nids(w.plan), k)
  }

  lemma AddrOfNid(c: W.Config, items: seq<W.Item>, w: W.Finished, img: Image, k: nat)
    requires Shows(c, items, w, img) && k < |items|
    ensures NodeAddr(c.bs, w.metaBlk, NidAt(w, k)) == W.SlotAddr(c, w.metaBlk, w.plan[k])
    ensures NidAt(w, k) < Width(8)
  {
    hide W.ItemBack, W.ItemOk, WellFormed, W.Unmapped, W.ShapeOf, L.Follows, Width;
    var s := w.plan[k];
    assert L.Slotted(c.bs, W.Shapes(items, c)[k], s);
    WholeSlot(s.off);
    InImage(c, items, w, img, k);
    Widths();
  }

  lemma WholeSlot(off: nat)
    requires off % L.SLOT == 0
    ensures off / L.SLOT * L.SLOT == off
  {
  }

  lemma InImage(c: W.Config, items: seq<W.Item>, w: W.Finished, img: Image, k: nat)
    requires Shows(c, items, w, img) && k < |items|
    ensures w.plan[k].off <= MAX_INT64
  {
    hide W.ItemOk, W.ItemBack, W.Unmapped, L.Planned, WellFormed, W.SlotAddr;
    assert W.ItemBack(c, items, w, k);
    AddrInside(c, items, w, k);
    SlotBefore(c, w.metaBlk, w.plan[k]);
    ImageBound(img);
  }

  lemma AddrInside(c: W.Config, items: seq<W.Item>, w: W.Finished, k: nat)
    requires c.bs > 0 && k < |items| == |w.plan| == |w.places| && W.ItemBack(c, items, w, k)
    ensures W.SlotAddr(c, w.metaBlk, w.plan[k]) <= |w.image|
  {
    hide W.Serves, W.AttrsBack, W.ServesMap, W.InodeOf, W.CoreOf, W.Payload, W.SlotAddr, W.Nids, I.Decode, W.Compact;
  }

  lemma SlotBefore(c: W.Config, metaBlk: nat, slot: L.Slot)
    ensures slot.off <= W.SlotAddr(c, metaBlk, slot)
  {
  }

  lemma ImageBound(img: Image)
    requires WellFormed(img)
    ensures |img.bytes| <= MAX_INT64
  {
  }

  datatype Node = Node(core: I.Core, data: seq<byte>)

  /** An inode decoded and its file read whole. */
  method ReadNode(img: Image, c: W.Config, metaBlk: nat, nid: nat, ghost items: seq<W.Item>, ghost w: W.Finished, ghost k: nat)
    returns (r: Result<Node>)
    requires img.bs > 0
    ensures Shows(c, items, w, img) && k < |items| && metaBlk == w.metaBlk && nid == NidAt(w, k) ==>
              && r.Ok? && r.value.core == W.CoreOf(items[k], c, w.plan[k].how, w.places[k])
              && (!items[k].body.Runs? ==> r.value.data == W.Payload(items[k], k, W.Nids(w.plan), c.bs))
              && Content(c, items, w, img, k, r.value.data)
  {
    hide Shows, W.CoreOf, W.Payload, W.Nids, I.Decode, W.ReadInode, WellFormed, Avail, Denotes, AllReadable, W.InodeOf;
    ghost var good := Shows(c, items, w, img) && k < |items| && metaBlk == w.metaBlk && nid == NidAt(w, k);
    var addr := NodeAddr(img.bs, metaBlk, nid);
    if good {
      NodeDecodes(c, items, w, img, k);
    }
    if addr > |img.bytes| {
      return Err(Corrupt);
    }
    var d := I.Decode(img.bytes[addr..], c.buildTime, c.buildTimeNs);
    if d.Err? {
      return Err(d.error);
    }
    var ino := W.ReadInode(d.value, addr);
    var f := new File(img, ino);
    var data, e := f.Read(ino.size);
    if good {
      NodeInode(c, items, w, img, k);
      if !items[k].body.Runs? {
        NodeContent(c, items, w, img, k, data);
      }
    }
    return Ok(Node(d.value.core, data));
  }

  lemma NodeDecodes(c: W.Config, items: seq<W.Item>, w: W.Finished, img: Image, k: nat)
    requires Shows(c, items, w, img) && k < |items|
    ensures c.bs > 0 && img.bs == c.bs && WellFormed(img)
    ensures var addr := NodeAddr(img.bs, w.metaBlk, NidAt(w, k));
            && addr <= |img.bytes|
            && I.Decode(img.bytes[addr..], c.buildTime, c.buildTimeNs) ==
               Ok(I.Decoded(W.CoreOf(items[k], c, w.plan[k].how, w.places[k]), 0, !W.Compact(items[k], c)))
  {
    hide W.ItemOk, W.CoreOf, W.Payload, I.Decode, WellFormed, W.Serves, W.ServesMap, W.AttrsBack, W.InodeOf, L.Planned, W.Compact, NodeAddr, W.SlotAddr, NidAt;
    AddrOfNid(c, items, w, img, k);
    assert W.ItemBack(c, items, w, k);
  }

  /** data is what the bytes behind item k's inode are, as many as are there. */
  ghost predicate Content(c: W.Config, items: seq<W.Item>, w: W.Finished, img: Image, k: nat, data: seq<byte>) {
    && c.bs > 0 && img.bs > 0 && k < |items| == |w.plan| == |w.places|
    && var ino := W.InodeOf(items[k], c, w.plan[k].how, w.places[k], W.SlotAddr(c, w.metaBlk, w.plan[k]));
       Denotes(img, ino, 0, data) && (AllReadable(img, ino, 0) ==> |data| == ino.size)
  }

  lemma NodeInode(c: W.Config, items: seq<W.Item>, w: W.Finished, img: Image, k: nat)
    requires Shows(c, items, w, img) && k < |items|
    ensures c.bs > 0 && |items| == |w.plan| == |w.places|
    ensures W.ReadInode(I.Decoded(W.CoreOf(items[k], c, w.plan[k].how, w.places[k]), 0, !W.Compact(items[k], c)), NodeAddr(img.bs, w.metaBlk, NidAt(w, k))) ==
            W.InodeOf(items[k], c, w.plan[k].how, w.places[k], W.SlotAddr(c, w.metaBlk, w.plan[k]))
  {
    hide W.ItemOk, W.CoreOf, WellFormed, W.ItemBack, L.Planned, W.Compact, NodeAddr, W.SlotAddr, NidAt, W.ReadInode;
    AddrOfNid(c, items, w, img, k);
  }

  /** What is read of a file, link or directory is what was written. */
  lemma NodeContent(c: W.Config, items: seq<W.Item>, w: W.Finished, img: Image, k: nat, data: seq<byte>)
    requires Shows(c, items, w, img) && k < |items| && !items[k].body.Runs? && Content(c, items, w, img, k, data)
    ensures data == W.Payload(items[k], k, W.Nids(w.plan), c.bs)
  {
    hide W.ItemOk, W.CoreOf, W.Payload, I.Decode, WellFormed, W.ServesMap, W.AttrsBack, L.Planned, W.Compact, NodeAddr, W.SlotAddr, NidAt, FileByte, W.InodeOf,
         W.SizeOf, W.Nids;
    var addr := W.SlotAddr(c, w.metaBlk, w.plan[k]);
    var want := W.Payload(items[k], k, W.Nids(w.plan), c.bs);
    assert W.ItemBack(c, items, w, k);
    W.HeadOf(items[k], c, w.plan[k].how, w.places[k], addr);
    PayloadSized(items[k], k, W.Nids(w.plan), c.bs);
    var ino := W.InodeOf(items[k], c, w.plan[k].how, w.places[k], addr);
    forall p | 0 <= p < |want| ensures FileByte(img, ino, p) == Some(want[p]) {
    }
    assert |data| == |want|;
    forall p | 0 <= p < |want| ensures data[p] == want[p] {
      assert FileByte(img, ino, p) == Some(data[p - 0]);
    }
  }

  lemma PayloadSized(it: W.Item, k: nat, nids: seq<nat>, bs: nat)
    requires bs > 0 && !it.body.Runs?
    ensures |W.Payload(it, k, nids, bs)| == W.SizeOf(it, bs)
  {
    W.PayloadLength(it, k, nids, bs);
  }

  // ---- One name ----

  /** Searching a directory's bytes finds the entry for the item it has under the name, and nothing where it has none. */
  lemma EntryFound(c: W.Config, items: seq<W.Item>, w: W.Finished, img: Image, k: nat, name: Name)
    requires Shows(c, items, w, img) && Rooted(items) && k < |items| && items[k].body.Dir? && c.bs > 0 && name != DOT && name != DOTDOT
    ensures var data := W.Payload(items[k], k, W.Nids(w.plan), c.bs);
            && SortedDir(data, c.bs)
            && var r, t := Scan(DecodeDir(data, c.bs).value, name), KidAt(items[k].body.kids, name);
               && (r.Ok? <==> t.Some?) && (r.Err? ==> r.error == NotExist)
               && (r.Ok? ==> t.value < |items| && r.value.nid == NidAt(w, t.value) && Typed(r.value.ftype, items[t.value]))
  {
    hide Shows, DecodeDir, EncodeDir, DirEntries, Scan, KidAt, W.Nids, Sorted, ProperName, GoodName, Typed;
    var kids, nids := items[k].body.kids, W.Nids(w.plan);
    var children := W.Dirents(kids, nids);
    var self, up := W.NidOf(nids, k), W.NidOf(nids, items[k].body.parent);
    NidsNarrow(c, items, w, img);
    assert KidsOk(items, k);
    ChildrenValid(items, k, w, children);
    ShowsBlock(c, items, w, img);
    WrittenDirectory(self, up, children, c.bs);
    DirLookup.WrittenScan(self, up, children, name);
    var r := Scan(DirEntries(self, up, children), name);
    KidMissing(kids, name);
    if r.Ok? {
      var j :| 0 <= j < |children| && children[j] == r.value;
      KidFound(kids, name, j);
    } else {
      forall j | 0 <= j < |kids| ensures kids[j].name != name {
        assert children[j] in children;
      }
    }
  }

  lemma ShowsBlock(c: W.Config, items: seq<W.Item>, w: W.Finished, img: Image)
    requires Shows(c, items, w, img)
    ensures ValidBlockSize(c.bs) && |w.plan| == |items|
  {
    hide W.ItemBack, W.ItemOk, WellFormed, L.Planned;
  }

  lemma NidsNarrow(c: W.Config, items: seq<W.Item>, w: W.Finished, img: Image)
    requires Shows(c, items, w, img)
    ensures forall i: nat :: W.NidOf(W.Nids(w.plan), i) < Width(8)
  {
    hide W.Nids, W.ItemBack, W.ItemOk, WellFormed, L.Planned, Width;
    Widths();
    forall i: nat ensures W.NidOf(W.Nids(w.plan), i) < Width(8) {
      if i < |items| {
        AddrOfNid(c, items, w, img, i);
      }
    }
  }

  lemma ChildrenValid(items: seq<W.Item>, k: nat, w: W.Finished, children: seq<Dirent>)
    requires k < |items| && items[k].body.Dir? && KidsOk(items, k) && children == W.Dirents(items[k].body.kids, W.Nids(w.plan))
    requires forall i: nat :: W.NidOf(W.Nids(w.plan), i) < Width(8)
    ensures ValidChildren(children)
  {
    hide W.Nids, Width;
  }

  // ---- Paths ----

  /** The path walked from the root: a directory read and searched for each name in turn. */
  method FindPath(img: Image, c: W.Config, metaBlk: nat, root: nat, path: N.Path, ghost items: seq<W.Item>, ghost w: W.Finished)
    returns (r: Result<nat>)
    requires img.bs > 0
    ensures Shows(c, items, w, img) && Rooted(items) && metaBlk == w.metaBlk && root == NidAt(w, 0) ==>
              match ItemAt(items, path)
              case Some(k) => k < |items| && r == Ok(NidAt(w, k))
              case None => r.Err?
  {
    hide Shows, Rooted, ItemAt, NidAt, W.CoreOf, W.Payload, DecodeDir, Scan, SortedDir, KidAt;
    ghost var good := Shows(c, items, w, img) && Rooted(items) && metaBlk == w.metaBlk && root == NidAt(w, 0);
    for j := 0 to |path|
      invariant forall i :: 0 <= i < j ==> Walkable(path[i])
    {
      if !Walkable(path[j]) {
        if good {
          BadName(items, path, j);
        }
        return Err(Invalid);
      }
    }
    var nid, isDir := root, true;
    ghost var k: nat := 0;
    assert path[..0] == [];
    if good {
      Start(items);
    }
    for j := 0 to |path|
      invariant good ==> ItemAt(items, path[..j]) == Some(k) && k < |items| && nid == NidAt(w, k) && (isDir <==> items[k].body.Dir?)
    {
      assert path[..j + 1][..j] == path[..j];
      if good {
        NextItem(items, path, j, k);
      }
      if !isDir {
        return Err(NotDirectory);
      }
      var node := ReadNode(img, c, metaBlk, nid, items, w, k);
      if node.Err? {
        return Err(node.error);
      }
      var e := ReaderLookup(node.value.data, img.bs, path[j]);
      if good {
        ShowsBlock(c, items, w, img);
        NodeDecodes(c, items, w, img, k);
        EntryFound(c, items, w, img, k, path[j]);
      }
      if e.Err? {
        return Err(e.error);
      }
      nid, isDir := e.value.nid, e.value.ftype == TYPE_DIR;
      k := if good then KidAt(items[k].body.kids, path[j]).value else 0;
    }
    assert path[..|path|] == path;
    return Ok(nid);
  }

  /** validPath, on one element. */
  predicate Walkable(n: Name) {
    n != [] && n != DOT && n != DOTDOT
  }

  lemma Start(items: seq<W.Item>)
    requires Rooted(items)
    ensures ItemAt(items, []) == Some(0) && 0 < |items| && items[0].body.Dir?
  {
  }

  /** One name further; where it leads nowhere, so does the whole path. */
  lemma NextItem(items: seq<W.Item>, path: N.Path, j: nat, k: nat)
    requires Rooted(items) && j < |path| && ItemAt(items, path[..j]) == Some(k) && k < |items|
    ensures ItemAt(items, path[..j + 1]) == if items[k].body.Dir? then KidAt(items[k].body.kids, path[j]) else None
    ensures ItemAt(items, path[..j + 1]).None? ==> ItemAt(items, path).None?
  {
    hide KidAt, Rooted;
    assert N.Dir(path[..j + 1]) == path[..j];
    if ItemAt(items, path[..j + 1]).None? {
      Beyond(items, path, j + 1);
    }
  }

  lemma {:induction false} Beyond(items: seq<W.Item>, path: N.Path, j: nat)
    requires j <= |path| && ItemAt(items, path[..j]).None?
    ensures ItemAt(items, path).None?
    decreases |path|
  {
    hide KidAt;
    if j == |path| {
      assert path[..j] == path;
    } else {
      assert N.Dir(path)[..j] == path[..j];
      Beyond(items, N.Dir(path), j);
    }
  }

  lemma BadName(items: seq<W.Item>, path: N.Path, j: nat)
    requires Rooted(items) && j < |path| && !Walkable(path[j])
    ensures ItemAt(items, path).None?
  {
    hide KidAt;
    var up := ItemAt(items, path[..j]);
    assert N.Dir(path[..j + 1]) == path[..j];
    ItemInside(items, path[..j]);
    if up.Some? && items[up.value].body.Dir? {
      assert KidsOk(items, up.value);
      KidMissing(items[up.value].body.kids, path[j]);
    }
    Beyond(items, path, j + 1);
  }

  /** A path looked up and what is there read: the item's fields and bytes, or an error where no item is. */
  method ReadPath(img: Image, c: W.Config, metaBlk: nat, root: nat, path: N.Path, ghost items: seq<W.Item>, ghost w: W.Finished)
    returns (r: Result<Node>)
    requires img.bs > 0
    ensures Shows(c, items, w, img) && Rooted(items) && metaBlk == w.metaBlk && root == NidAt(w, 0) ==>
              match ItemAt(items, path)
              case Some(k) =>
                && k < |items| && r.Ok? && r.value.core == W.CoreOf(items[k], c, w.plan[k].how, w.places[k])
                && (!items[k].body.Runs? ==> r.value.data == W.Payload(items[k], k, W.Nids(w.plan), c.bs))
                && Content(c, items, w, img, k, r.value.data)
              case None => r.Err?
  {
    hide Shows, Rooted, ItemAt, NidAt, W.CoreOf, W.Payload, Content;
    var nid := FindPath(img, c, metaBlk, root, path, items, w);
    if nid.Err? {
      return Err(nid.error);
    }
    ghost var at := if items != [] then ItemAt(items, path) else None;
    r := ReadNode(img, c, metaBlk, nid.value, items, w, if at.Some? then at.value else 0);
  }
}
