/** Symlinks resolved in a published tree: where the map of names says they lead, and where the reference goes (erofs.go: resolve; internal/erofsspec/dir.go: walk). */
module TreeResolve {
  import opened Bytes
  import opened Namespace
  import opened TreeItems
  import opened TreeImage
  import opened ImageResolve
  import B = BlockMap
  import P = ImagePaths
  import R = Resolve
  import T = WriterTree
  import W = ImageWriter

  /** Plain lookups on the graph are lookups among the items. */
  lemma {:induction false} PlainIs(items: seq<W.Item>, clean: Clean, p: Path)
    requires P.Rooted(items)
    ensures R.Plain(GraphOf(items, clean), 0, p) == P.ItemAt(items, p)
    decreases |p|
  {
    hide P.KidAt, KidMap, P.Rooted;
    if p != [] {
      PlainIs(items, clean, Dir(p));
      P.ItemInside(items, Dir(p));
      var d := P.ItemAt(items, Dir(p));
      if d.Some? && items[d.value].body.Dir? {
        KidMapIs(items[d.value].body.kids, p[|p| - 1]);
      }
    }
  }

  /** A published tree is a tree: every directory's parent is the one it is listed in. */
  lemma ShownIsTree(n: Space, look: Look, items: seq<W.Item>, clean: Clean)
    requires P.Rooted(items) && AllShown(n, look, items)
    ensures R.TreeShaped(GraphOf(items, clean), 0)
  {
    hide P.ItemAt, AllShown, R.Plain, KidMap;
    var g := GraphOf(items, clean);
    RootItem(n, look, items);
    forall d, k | R.IsFolder(g, d) && k in g[d].kids ensures g[d].kids[k] in g {
      KidThere(items, clean, d, k);
    }
    forall p, d | p != [] && R.Plain(g, 0, p) == Some(d) && R.IsFolder(g, d) ensures R.Plain(g, 0, Dir(p)) == Some(g[d].up) {
      PlainIs(items, clean, p);
      PlainIs(items, clean, Dir(p));
      ShownAt(n, look, items, p);
    }
  }

  lemma RootItem(n: Space, look: Look, items: seq<W.Item>)
    requires P.Rooted(items) && AllShown(n, look, items)
    ensures items != [] && items[0].body.Dir? && items[0].body.parent == 0
  {
    hide AllShown;
    ShownAt(n, look, items, []);
  }

  lemma KidThere(items: seq<W.Item>, clean: Clean, d: nat, k: seq<byte>)
    requires P.Rooted(items) && R.IsFolder(GraphOf(items, clean), d) && k in GraphOf(items, clean)[d].kids
    ensures GraphOf(items, clean)[d].kids[k] in GraphOf(items, clean)
  {
    hide P.KidAt;
    assert P.KidsOk(items, d);
    KidMapIs(items[d].body.kids, k);
    P.KidInside(items[d].body.kids, k, |items|);
  }

  /** Where a resolution ends: under a path the map has, at the item that is its inode. */
  lemma EndShown(n: Space, look: Look, items: seq<W.Item>, clean: Clean, path: Path, follow: bool)
    requires P.Rooted(items) && AllShown(n, look, items)
    ensures var e := R.Resolution(GraphOf(items, clean), 0, path, follow);
            e.Found? ==> e.at in n.at && e.nid < |items| && Depicts(n, look, items[e.nid], e.at)
  {
    hide P.ItemAt, AllShown, R.Plain, GraphOf, R.Run, P.Rooted, R.TextLen, Depicts;
    var g := GraphOf(items, clean);
    var e := R.Resolution(g, 0, path, follow);
    R.NoSteps(g, 0);
    R.RunStraight(g, 0, R.Place(0, [], path, 0), follow, R.MAX_COMPONENTS);
    if e.Found? {
      PlainIs(items, clean, e.at);
      ShownAt(n, look, items, e.at);
      ShownOrNot(n, look, items, e.at);
    }
  }

  /** A Writer closed and a path resolved in the image through its symlinks: the outcome of the walk on the map's own tree, at an inode the map has where the walk ends; and what the reference, walking links where they are, would find. */
  method PublishAndResolve(w: T.Writer, look: Look, c: W.Config, super: seq<byte>, devices: seq<B.Device>, path: Path, follow: bool, clean: Clean)
    returns (items: seq<W.Item>, image: Result<W.Finished>, r: Result<nat>)
    requires w.Valid() && Presentable(w.Names(), look) && W.ConfigOk(c) && W.SuperSized(c, super) && Plain(devices, c.bs) && Cleans(clean)
    ensures P.Rooted(items) && AllShown(w.Names(), look, items) && (image.Ok? <==> FieldsFit(c, items) && W.Accepted(c, items))
    ensures R.TreeShaped(GraphOf(items, clean), 0)
    ensures image.Ok? && |image.value.image| <= B.MAX_INT64 && AllWalkable(path) ==>
              var e := R.Resolution(GraphOf(items, clean), 0, path, follow);
              if e.Found? then
                && r == Ok(P.NidAt(image.value, e.nid))
                && e.at in w.Names().at && e.nid < |items| && Depicts(w.Names(), look, items[e.nid], e.at)
              else r == Err(R.ErrorOf(e))
  {
    hide *;
    image, items := Publish(w, look, c, super);
    ShownIsTree(w.Names(), look, items, clean);
    EndShown(w.Names(), look, items, clean, path, follow);
    r := Err(Invalid);
    if image.Ok? && |image.value.image| <= B.MAX_INT64 {
      ImageShows(c, items, image.value, devices);
      BlockSizeIs(c);
      r := ResolveImage(B.Image(c.bs, image.value.image, devices), c, image.value.metaBlk, P.NidAt(image.value, 0), path, follow, clean, items, image.value);
    }
  }

  lemma BlockSizeIs(c: W.Config)
    requires W.ConfigOk(c)
    ensures c.bs > 0
  {
  }
}
