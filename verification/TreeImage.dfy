/** A Writer's tree written as an image and read back by path: what the map says of a path is what the image has there (mkfs.go: Close; layout.go; writer.go; erofs.go: resolve, Read). */
module TreeImage {
  import opened Bytes
  import opened Namespace
  import opened Entries
  import opened TreeFacts
  import opened AliasWalk
  import opened BuildTree
  import opened TreeItems
  import B = BlockMap
  import I = InodeCodec
  import L = Layout
  import P = ImagePaths
  import S = Serialise
  import W = ImageWriter
  import T = WriterTree
  import R = WriterRuns

  /** A map that can be written: names a directory can list, and inodes of the type their metadata says. */
  ghost predicate Presentable(n: Space, look: Look) {
    && (forall p :: p in n.at && p != [] ==> P.GoodName(p[|p| - 1]))
    && (forall p :: p in n.at ==> LooksRight(look, n.at[p]))
  }

  lemma PresentableTree(t: Tree, look: Look)
    requires Inv(t, NONE) && Presentable(Map(t), look)
    ensures GoodNames(t) && LooksAll(t, look)
  {
    hide Inv, Map, LooksRight, P.GoodName;
    forall p | p in t.byPath && p != [] ensures P.GoodName(p[|p| - 1]) {
      At(t, p);
    }
    forall i | 0 <= i < |t.ents| && !t.ents[i].removed && t.ents[i].linkTo.None? ensures LooksRight(look, t.ents[i].inode) {
      LiveIndexed(t, i);
      At(t, t.ents[i].path);
    }
  }

  /** The item lookups along p lead to is the one the map's inode at p becomes, with its link count, a directory's parent being the item above; where the map has nothing there is none. */
  ghost predicate PathShown(n: Space, look: Look, items: seq<W.Item>, p: Path) {
    match P.ItemAt(items, p)
    case Some(k) =>
      && p in n.at && k < |items| && Depicts(n, look, items[k], p)
      && (items[k].body.Dir? ==> P.ItemAt(items, Above(p)) == Some(items[k].body.parent))
    case None => p !in n.at
  }

  /** Every path is shown, and no other. */
  ghost predicate AllShown(n: Space, look: Look, items: seq<W.Item>) {
    forall p :: PathShown(n, look, items, p)
  }

  /** The directory ".." names. */
  function Above(p: Path): Path {
    if p == [] then [] else Dir(p)
  }

  ghost predicate Depicts(n: Space, look: Look, it: W.Item, p: Path)
    requires p in n.at
  {
    var want := look(n.at[p]);
    && it.attr == want.attr.(nlink := CountAt(n, p)) && it.attrs == want.attrs
    && (if n.at[p].kind == Directory then it.body.Dir? else it.body == want.body)
  }

  lemma Shown(t: Tree, order: seq<nat>, look: Look, items: seq<W.Item>, p: Path)
    requires Inv(t, NONE) && Ordered(t, order) && AreItems(t, order, look, items) && GoodNames(t) && LooksAll(t, look)
    ensures PathShown(Map(t), look, items, p)
  {
    hide Inv, Map, Ordered, AreItems, LooksAll, GoodNames, P.ItemAt, CountAt, LinksOf, KidsOfAll;
    PathsLead(t, order, look, items, p);
    At(t, p);
    if p in t.byPath {
      var i := t.byPath[p];
      OwnerIs(t, order, i);
      ItemsAs(t, order, look, items);
      CountMeans(t, p);
      var k := IndexIn(order, Owner(t, i));
      ItemIs(t, order, look, items, k);
      if items[k].body.Dir? {
        DirIs(t, order, look, items, k);
        PathsLead(t, order, look, items, Above(p));
        ParentIs(t, order, look, items, k, p);
      }
    }
  }

  lemma ParentIs(t: Tree, order: seq<nat>, look: Look, items: seq<W.Item>, k: nat, p: Path)
    requires Inv(t, NONE) && Ordered(t, order) && AreItems(t, order, look, items) && k < |items| == |order|
    requires p in t.byPath && order[k] == t.byPath[p] && IsDir(t, t.byPath[p]) && items[k].body.Dir?
    ensures Above(p) in t.byPath && t.byPath[Above(p)] < |t.ents|
    ensures items[k].body.parent == IndexIn(order, Owner(t, t.byPath[Above(p)]))
  {
    hide Listed, Serials, OpenOk, LiveKids, LinksOf, KidsOfAll, Distinct, Linked, IndexIn;
    RootFirst(t, order);
    var e := order[k];
    assert IsItem(t, order, look, items[k], e);
    if p != [] {
      assert HeldBy(t, NONE, e);
      OwnerIs(t, order, t.byPath[Dir(p)]);
    }
  }

  lemma ItemIs(t: Tree, order: seq<nat>, look: Look, items: seq<W.Item>, k: nat)
    requires Inv(t, NONE) && Ordered(t, order) && AreItems(t, order, look, items) && k < |items| == |order|
    ensures order[k] < |t.ents|
    ensures var x := t.ents[order[k]].inode;
            && items[k].attr == look(x).attr.(nlink := LinksOf(t, order[k])) && items[k].attrs == look(x).attrs
            && (if x.kind == Directory then items[k].body.Dir? else items[k].body == look(x).body)
  {
    hide Inv, LiveKids, LinksOf, KidsOfAll, Distinct;
    assert IsItem(t, order, look, items[k], order[k]);
  }

  /** The items of a tree, every inode with the count the walk gives it. */
  method Items(t: Tree, look: Look) returns (items: seq<W.Item>, ghost order: seq<nat>)
    requires Inv(t, NONE)
    ensures Ordered(t, order) && InPathOrder(t, order) && AreItems(t, order, look, items)
  {
    hide Inv, Map, LinksOf, Others, Distinct, InPathOrder, Listable, Listing, Under, Room;
    var rows, links, wired, missing := Build(t);
    RootFacts(t);
    ghost var room := Deepest(t);
    var all := Collect(t, ROOT, room);
    CollectedAll(t, all);
    order := all;
    items := [];
    for k := 0 to |all|
      invariant |items| == k && forall j :: 0 <= j < k ==> Live(t, all[j]) && IsItem(t, all, look, items[j], all[j])
    {
      OrderAt(t, all, k);
      NamesListable(t, all[k]);
      items := items + [ItemOf(t, all, look, all[k], links[all[k]])];
    }
  }

  lemma Deepest(t: Tree) returns (room: nat)
    requires Inv(t, NONE)
    ensures ROOT < |t.ents| && Room(t, ROOT, room)
  {
    hide Parented, Listed, Linked, Serials, OpenOk, Indexed;
    room := 0;
    for i := 0 to |t.ents|
      invariant forall j :: 0 <= j < i ==> |t.ents[j].path| <= room
    {
      if |t.ents[i].path| > room {
        room := |t.ents[i].path|;
      }
    }
  }

  lemma CollectedAll(t: Tree, all: seq<nat>)
    requires Inv(t, NONE) && ROOT < |t.ents| && Distinct(all) && all != [] && all[0] == ROOT && forall i :: i in all <==> Under(t, ROOT, i)
    ensures Ordered(t, all)
  {
    hide Parented, Listed, Linked, Serials, OpenOk, Indexed, Distinct;
    forall k | 0 <= k < |all| ensures Live(t, all[k]) && t.ents[all[k]].linkTo.None? {
      assert all[k] in all;
    }
  }

  /** Close: the tree's items laid out and written. Where every field fits, the image is refused exactly as the writer refuses its items. */
  method Publish(w: T.Writer, look: Look, c: W.Config, super: seq<byte>) returns (r: Result<W.Finished>, items: seq<W.Item>)
    requires w.Valid() && Presentable(w.Names(), look) && W.ConfigOk(c) && W.SuperSized(c, super)
    ensures P.Rooted(items) && AllShown(w.Names(), look, items)
    ensures r.Ok? <==> FieldsFit(c, items) && W.Accepted(c, items)
    ensures r.Ok? ==> OnDisk(c, items, r.value)
  {
    hide Inv, Map, Presentable, PathShown, P.Rooted, W.Accepted, W.ItemOk, W.ItemBack, W.Addressed, L.Planned, W.SuperSized, Ordered, AreItems;
    var t := Tree(w.ents, w.byPath, w.next);
    PresentableTree(t, look);
    ghost var order;
    items, order := Items(t, look);
    ItemsRooted(t, order, look, items);
    forall p ensures PathShown(w.Names(), look, items, p) {
      Shown(t, order, look, items, p);
    }
    for k := 0 to |items|
      invariant forall j :: 0 <= j < k ==> W.ItemOk(items[j], c)
    {
      if !W.ItemOk(items[k], c) {
        return Err(Invalid), items;
      }
    }
    r := W.WriteItems(c, items, super);
    if r.Ok? {
      RootedSome(items);
      W.ImageSome(c, items, r.value, 0);
    }
  }

  lemma RootedSome(items: seq<W.Item>)
    requires P.Rooted(items)
    ensures |items| > 0
  {
  }

  /** Every field is within its width. */
  ghost predicate FieldsFit(c: W.Config, items: seq<W.Item>)
    requires W.ConfigOk(c)
  {
    forall k :: 0 <= k < |items| ==> W.ItemOk(items[k], c)
  }

  /** The finished image has each item where its nid says. */
  ghost predicate OnDisk(c: W.Config, items: seq<W.Item>, w: W.Finished)
    requires W.ConfigOk(c)
  {
    && |items| == |w.plan| == |w.places| && L.Planned(c.bs, W.Shapes(items, c), w.plan) && |w.image| > 0
    && forall k :: 0 <= k < |items| ==> W.ItemOk(items[k], c) && W.ItemBack(c, items, w, k) && W.Addressed(w.places[k])
  }

  // ---- Reading it back ----

  /** Devices a reader of the image may have: whole blocks, none of them mapped. */
  predicate Plain(devices: seq<B.Device>, bs: nat) {
    forall i :: 0 <= i < |devices| ==> devices[i].mapped == 0 && 0 < |devices[i].bytes| == devices[i].blocks * bs <= B.MAX_INT64
  }

  lemma ImageShows(c: W.Config, items: seq<W.Item>, w: W.Finished, devices: seq<B.Device>)
    requires W.ConfigOk(c) && OnDisk(c, items, w) && Plain(devices, c.bs) && |w.image| <= B.MAX_INT64
    ensures P.Shows(c, items, w, B.Image(c.bs, w.image, devices))
  {
    hide W.ItemOk, W.ItemBack, L.Planned;
  }

  /** What a reader finds of an inode the map has: its metadata with the link count the map says, and its bytes. */
  ghost predicate Found(n: Space, look: Look, p: Path, node: P.Node)
    requires p in n.at
  {
    var want, core := look(n.at[p]), node.core;
    && core.nlink == CountAt(n, p)
    && core.mode == want.attr.mode && core.uid == want.attr.uid && core.gid == want.attr.gid
    && core.mtime == want.attr.mtime && core.mtimeNs == want.attr.mtimeNs
    && (n.at[p].kind != Directory && want.body.File? ==> node.data == want.body.data)
    && (n.at[p].kind != Directory && want.body.Link? ==> node.data == want.body.target)
  }

  /** A Writer closed, the image opened and a path looked up: found exactly when the map has it, as the map has it. */
  method PublishAndRead(w: T.Writer, look: Look, c: W.Config, super: seq<byte>, devices: seq<B.Device>, path: Path)
    returns (items: seq<W.Item>, image: Result<W.Finished>, node: Result<P.Node>)
    requires w.Valid() && Presentable(w.Names(), look) && W.ConfigOk(c) && W.SuperSized(c, super) && Plain(devices, c.bs)
    ensures AllShown(w.Names(), look, items) && (image.Ok? <==> FieldsFit(c, items) && W.Accepted(c, items))
    ensures image.Ok? && |image.value.image| <= B.MAX_INT64 ==> (node.Ok? <==> path in w.Names().at)
    ensures image.Ok? && |image.value.image| <= B.MAX_INT64 && path in w.Names().at ==> Found(w.Names(), look, path, node.value)
    ensures image.Ok? && |image.value.image| <= B.MAX_INT64 && path in w.Names().at ==>
              OnDisk(c, items, image.value) && Read(w.Names(), look, items, path, c, image.value, devices, node.value)
  {
    hide Inv, Map, P.Content, Presentable, AllShown, PathShown, P.Rooted, W.Accepted, FieldsFit, OnDisk, W.SuperSized, Plain, P.Shows, P.ItemAt, W.CoreOf, W.Payload, Found;
    image, items := Publish(w, look, c, super);
    if image.Err? || |image.value.image| > B.MAX_INT64 {
      return items, image, Err(Invalid);
    }
    PlanWhole(c, items, image.value);
    ImageShows(c, items, image.value, devices);
    var img := B.Image(c.bs, image.value.image, devices);
    node := P.ReadPath(img, c, image.value.metaBlk, P.NidAt(image.value, 0), path, items, image.value);
    ShownAt(w.Names(), look, items, path);
    ShownOrNot(w.Names(), look, items, path);
    if path in w.Names().at {
      var k := P.ItemAt(items, path).value;
      FoundIs(w.Names(), look, items, path, k, c, image.value, node.value);
    }
  }

  /** The bytes read are those behind the inode of the item that depicts the path. */
  ghost predicate Read(n: Space, look: Look, items: seq<W.Item>, p: Path, c: W.Config, w: W.Finished, devices: seq<B.Device>, node: P.Node)
    requires p in n.at
  {
    exists k: nat :: k < |items| && Depicts(n, look, items[k], p) && P.Content(c, items, w, B.Image(c.bs, w.image, devices), k, node.data)
  }

  lemma PlanWhole(c: W.Config, items: seq<W.Item>, w: W.Finished)
    requires W.ConfigOk(c) && OnDisk(c, items, w)
    ensures |items| == |w.plan| == |w.places|
  {
    hide L.Planned, W.ItemOk, W.ItemBack;
  }

  lemma ShownAt(n: Space, look: Look, items: seq<W.Item>, p: Path)
    requires AllShown(n, look, items)
    ensures PathShown(n, look, items, p)
  {
    hide PathShown;
  }

  lemma ShownOrNot(n: Space, look: Look, items: seq<W.Item>, p: Path)
    requires PathShown(n, look, items, p)
    ensures P.ItemAt(items, p).Some? <==> p in n.at
    ensures p in n.at ==> P.ItemAt(items, p).value < |items| && Depicts(n, look, items[P.ItemAt(items, p).value], p)
  {
    hide P.ItemAt, Depicts;
  }

  lemma FoundIs(n: Space, look: Look, items: seq<W.Item>, p: Path, k: nat, c: W.Config, w: W.Finished, node: P.Node)
    requires p in n.at && k < |items| == |w.plan| == |w.places| && c.bs > 0 && Depicts(n, look, items[k], p)
    requires node.core == W.CoreOf(items[k], c, w.plan[k].how, w.places[k])
    requires !items[k].body.Runs? ==> node.data == W.Payload(items[k], k, W.Nids(w.plan), c.bs)
    ensures Found(n, look, p, node)
  {
    hide CountAt;
  }

  // ---- After any run ----

  predicate GoodPath(p: Path) {
    forall i :: 0 <= i < |p| ==> P.GoodName(p[i])
  }

  /** Every name in every path is one a directory can list. */
  ghost predicate GoodSpace(n: Space) {
    forall p :: p in n.at ==> GoodPath(p)
  }

  /** The names an operation may make are such names. */
  predicate GoodOp(op: R.Op) {
    match op
    case Making(p, _, _) => GoodPath(p)
    case Linking(_, p) => GoodPath(p)
    case Placing(p, _, _) => GoodPath(p)
    case Relinking(_, p) => GoodPath(p)
    case _ => true
  }

  lemma {:induction false} DirsGood(n: Space, p: Path)
    requires GoodSpace(n) && GoodPath(p)
    ensures GoodSpace(MakeDirs(n, p))
    decreases |p|
  {
    hide P.GoodName;
    if p !in n.at && p != [] {
      DirsGood(n, Dir(p));
    }
  }

  lemma StepGood(n: Space, op: R.Op)
    requires [] in n.at && R.Permitted(n, op) && GoodSpace(n) && GoodOp(op)
    ensures GoodSpace(R.Step(n, op).space)
  {
    hide P.GoodName, MakeDirs, Nearest, Subtree, Namespace.Below, Fits, HasChild, GoodPath;
    match op
    case Making(p, _, _) => if p != [] { UpGood(p); DirsGood(n, Dir(p)); }
    case Linking(_, p) => if p != [] { UpGood(p); DirsGood(n, Dir(p)); }
    case Placing(p, _, _) => if p != [] { UpGood(p); DirsGood(n, Dir(p)); }
    case Relinking(_, p) => UpGood(p); DirsGood(n, Dir(p));
    case _ =>
  }

  lemma UpGood(p: Path)
    requires p != [] && GoodPath(p)
    ensures GoodPath(Dir(p))
  {
    hide P.GoodName;
  }

  lemma {:induction false} RunsGood(n: Space, ops: seq<R.Op>, errs: seq<Option<Error>>, m: Space)
    requires R.Runs(n, ops, errs, m) && GoodSpace(n) && forall i :: 0 <= i < |ops| ==> GoodOp(ops[i])
    ensures GoodSpace(m)
    decreases |ops|
  {
    hide R.Permitted, R.Step, GoodSpace, GoodOp;
    if ops != [] {
      StepGood(n, ops[0]);
      RunsGood(R.Step(n, ops[0]).space, ops[1..], errs[1..], m);
    }
  }

  /** Type bits are right whatever the inode. */
  ghost predicate LooksAlways(look: Look) {
    forall x :: LooksRight(look, x)
  }

  lemma RunPresentable(n: Space, ops: seq<R.Op>, errs: seq<Option<Error>>, m: Space, look: Look)
    requires R.Runs(n, ops, errs, m) && GoodSpace(n) && (forall i :: 0 <= i < |ops| ==> GoodOp(ops[i])) && LooksAlways(look)
    ensures Presentable(m, look)
  {
    hide R.Runs, GoodOp, LooksRight, P.GoodName;
    RunsGood(n, ops, errs, m);
  }

  /** Any permitted run of operations on a Writer, the Writer closed, and any path looked up in the image: found exactly when the same run on the map leaves it there, with what the map has for it. */
  method RunAndRead(w: T.Writer, ops: seq<R.Op>, look: Look, c: W.Config, super: seq<byte>, devices: seq<B.Device>, path: Path)
    returns (errs: seq<Option<Error>>, ghost after: Space, items: seq<W.Item>, image: Result<W.Finished>, node: Result<P.Node>)
    requires w.Valid() && R.AllPermitted(w.Names(), ops) && W.ConfigOk(c) && W.SuperSized(c, super) && Plain(devices, c.bs)
    requires GoodSpace(w.Names()) && (forall i :: 0 <= i < |ops| ==> GoodOp(ops[i])) && LooksAlways(look)
    modifies w
    ensures R.Runs(old(w.Names()), ops, errs, after)
    ensures AllShown(after, look, items) && (image.Ok? <==> FieldsFit(c, items) && W.Accepted(c, items))
    ensures image.Ok? && |image.value.image| <= B.MAX_INT64 ==> (node.Ok? <==> path in after.at)
    ensures image.Ok? && |image.value.image| <= B.MAX_INT64 && path in after.at ==> Found(after, look, path, node.value)
  {
    hide *;
    ghost var before := w.Names();
    errs := R.Run(w, ops);
    after := w.Names();
    RunPresentable(before, ops, errs, after, look);
    items, image, node := PublishAndRead(w, look, c, super, devices, path);
  }

}
