/** Path resolution through symlinks over a written image's bytes (erofs.go: resolve). */
module ImageResolve {
  import opened Bytes
  import opened Names
  import opened BlockMap
  import opened DirCodec
  import opened DirBlocks
  import opened DirSearch
  import opened ImagePaths
  import N = Namespace
  import R = Resolve
  import W = ImageWriter

  /** What path.Clean makes of a link's target. */
  type Clean = seq<byte> -> R.Target

  /** A cleaned target's names are path elements. */
  ghost predicate Cleans(clean: Clean) {
    forall b :: AllWalkable(clean(b).names)
  }

  predicate AllWalkable(p: N.Path) {
    forall i :: 0 <= i < |p| ==> Walkable(p[i])
  }

  /** A directory's entries as lookups see them. */
  function KidMap(kids: seq<W.Kid>): map<Name, nat> {
    if kids == [] then map[] else KidMap(kids[1..])[kids[0].name := kids[0].target]
  }

  lemma {:induction false} KidMapIs(kids: seq<W.Kid>, n: Name)
    ensures n in KidMap(kids) <==> KidAt(kids, n).Some?
    ensures n in KidMap(kids) ==> KidAt(kids, n) == Some(KidMap(kids)[n])
  {
    if kids != [] {
      KidMapIs(kids[1..], n);
    }
  }

  function NodeOf(it: W.Item, clean: Clean): R.Node {
    match it.body
    case Dir(parent, kids) => R.Folder(KidMap(kids), parent)
    case Link(target) => R.Link(clean(target))
    case _ => R.Other
  }

  /** The items as the graph resolution walks, an item's number its address. */
  function GraphOf(items: seq<W.Item>, clean: Clean): R.Graph {
    map k: nat | k < |items| :: NodeOf(items[k], clean)
  }

  /** One component on the graph: what the directory lists, and what a link there says. */
  lemma NextIs(items: seq<W.Item>, clean: Clean, s: R.Place, follow: bool)
    requires s.rest != [] && s.nid < |items| && Rooted(items)
    ensures var m := R.Next(GraphOf(items, clean), 0, s, follow);
            if !items[s.nid].body.Dir? then m == R.Stop(R.NotFolder)
            else
              var k := KidAt(items[s.nid].body.kids, s.rest[0]);
              if k.None? then m == R.Stop(R.Missing)
              else
                && k.value < |items|
                && if items[k.value].body.Link? && (follow || s.rest[1..] != []) then
                     if s.links == R.MAX_LINKS then m == R.Stop(R.OutOfLinks)
                     else
                       var t := clean(items[k.value].body.target);
                       var to := R.Rebase(s.cur, t, s.rest[1..]);
                       if to.Err? then m == R.Stop(R.Climbs)
                       else if R.TextLen(to.value, t.absolute || s.cur == []) > N.MAX_PATH then m == R.Stop(R.TooLong)
                       else m == R.To(R.Place(0, [], to.value, s.links + 1))
                   else m == R.To(R.Place(k.value, s.cur + [s.rest[0]], s.rest[1..], s.links))
  {
    hide KidAt, KidMap, R.Rebase, R.TextLen;
    if items[s.nid].body.Dir? {
      var kids := items[s.nid].body.kids;
      KidMapIs(kids, s.rest[0]);
      assert KidsOk(items, s.nid);
      KidInside(kids, s.rest[0], |items|);
    }
  }

  lemma WalkableRest(cur: N.Path, t: R.Target, rest: N.Path)
    requires AllWalkable(cur) && AllWalkable(rest) && AllWalkable(t.names) && R.Rebase(cur, t, rest).Ok?
    ensures AllWalkable(R.Rebase(cur, t, rest).value)
  {
    hide Walkable;
  }

  lemma Split(rest: N.Path, cur: N.Path)
    requires rest != [] && AllWalkable(rest) && AllWalkable(cur)
    ensures Walkable(rest[0]) && AllWalkable(rest[1..]) && AllWalkable(cur + [rest[0]])
  {
    hide Walkable;
  }

  /** resolve, on the image's bytes: each directory decoded and searched, each link's target read, and the outcome the one the items' graph gives. */
  method ResolveImage(img: Image, c: W.Config, metaBlk: nat, root: nat, path: N.Path, follow: bool, clean: Clean, ghost items: seq<W.Item>, ghost w: W.Finished)
    returns (r: Result<nat>)
    requires img.bs > 0 && Cleans(clean)
    ensures Shows(c, items, w, img) && Rooted(items) && metaBlk == w.metaBlk && root == NidAt(w, 0) ==>
              if !AllWalkable(path) then r == Err(Invalid)
              else
                var e := R.Resolution(GraphOf(items, clean), 0, path, follow);
                if e.Found? then e.nid < |items| && r == Ok(NidAt(w, e.nid)) else r == Err(R.ErrorOf(e))
  {
    hide Shows, Rooted, NidAt, W.CoreOf, W.Payload, DecodeDir, Scan, SortedDir, KidAt, GraphOf, R.Run, R.Next, R.Rebase, R.TextLen, AllWalkable, Cleans;
    ghost var good := Shows(c, items, w, img) && Rooted(items) && metaBlk == w.metaBlk && root == NidAt(w, 0);
    ghost var g := GraphOf(items, clean);
    var walkable := CheckPath(path);
    if !walkable || R.TextLen(path, false) > N.MAX_PATH {
      return Err(Invalid);
    }
    var nid, isDir, cur, rest, links := root, true, [], path, 0;
    ghost var k: nat := 0;
    if good {
      Start(items);
    }
    NoNames();
    var components := 0;
    while rest != []
      invariant components <= R.MAX_COMPONENTS && links <= R.MAX_LINKS && AllWalkable(cur) && AllWalkable(rest)
      invariant good ==> k < |items| && nid == NidAt(w, k) && (isDir <==> items[k].body.Dir?)
      invariant good ==> R.Run(g, 0, R.Place(k, cur, rest, links), follow, R.MAX_COMPONENTS - components) == R.Resolution(g, 0, path, follow)
      decreases R.MAX_COMPONENTS - components
    {
      ghost var s := R.Place(k, cur, rest, links);
      R.RunStep(g, 0, s, follow, R.MAX_COMPONENTS - components);
      components := components + 1;
      if components > R.MAX_COMPONENTS {
        return Err(Loop);
      }
      Split(rest, cur);
      if good {
        NextIs(items, clean, s, follow);
      }
      if !isDir {
        return Err(NotDirectory);
      }
      var e := LookUp(img, c, metaBlk, nid, rest[0], items, w, k);
      if e.Err? {
        return Err(e.error);
      }
      ghost var next: nat := if good then KidAt(items[k].body.kids, rest[0]).value else 0;
      if e.value.ftype == TYPE_SYMLINK && (follow || rest[1..] != []) {
        if links == R.MAX_LINKS {
          return Err(Loop);
        }
        var link := ReadNode(img, c, metaBlk, e.value.nid, items, w, next);
        if link.Err? {
          return Err(link.error);
        }
        if good {
          LinkBytes(c, items, w, img, next);
        }
        var t := clean(link.value.data);
        var to := R.Rebase(cur, t, rest[1..]);
        if to.Err? || R.TextLen(to.value, t.absolute || cur == []) > N.MAX_PATH {
          return Err(Invalid);
        }
        TargetNames(clean, link.value.data);
        WalkableRest(cur, t, rest[1..]);
        NoNames();
        nid, isDir, cur, rest, links := root, true, [], to.value, links + 1;
        k := 0;
      } else {
        nid, isDir, cur, rest := e.value.nid, e.value.ftype == TYPE_DIR, cur + [rest[0]], rest[1..];
        k := next;
      }
    }
    R.RunStep(g, 0, R.Place(k, cur, rest, links), follow, R.MAX_COMPONENTS - components);
    return Ok(nid);
  }

  lemma NoNames()
    ensures AllWalkable([])
  {
  }

  lemma TargetNames(clean: Clean, b: seq<byte>)
    requires Cleans(clean)
    ensures AllWalkable(clean(b).names)
  {
    hide AllWalkable;
  }

  lemma LinkBytes(c: W.Config, items: seq<W.Item>, w: W.Finished, img: Image, k: nat)
    requires Shows(c, items, w, img) && k < |items|
    ensures c.bs > 0 && (items[k].body.Link? ==> W.Payload(items[k], k, W.Nids(w.plan), c.bs) == items[k].body.target)
  {
    hide W.ItemOk, W.ItemBack, WellFormed;
  }

  method CheckPath(path: N.Path) returns (ok: bool)
    ensures ok <==> AllWalkable(path)
  {
    for j := 0 to |path|
      invariant forall i :: 0 <= i < j ==> Walkable(path[i])
    {
      if !Walkable(path[j]) {
        return false;
      }
    }
    return true;
  }

  /** A directory's inode read and its bytes searched for a name. */
  method LookUp(img: Image, c: W.Config, metaBlk: nat, nid: nat, name: Name, ghost items: seq<W.Item>, ghost w: W.Finished, ghost k: nat)
    returns (r: Result<Dirent>)
    requires img.bs > 0 && Walkable(name)
    ensures Shows(c, items, w, img) && Rooted(items) && metaBlk == w.metaBlk && k < |items| && nid == NidAt(w, k) && items[k].body.Dir? ==>
              match KidAt(items[k].body.kids, name)
              case None => r == Err(NotExist)
              case Some(t) => t < |items| && r.Ok? && r.value.nid == NidAt(w, t) && Typed(r.value.ftype, items[t])
  {
    hide Shows, Rooted, NidAt, W.CoreOf, W.Payload, DecodeDir, Scan, SortedDir, KidAt, Typed;
    ghost var good := Shows(c, items, w, img) && Rooted(items) && metaBlk == w.metaBlk && k < |items| && nid == NidAt(w, k) && items[k].body.Dir?;
    var node := ReadNode(img, c, metaBlk, nid, items, w, k);
    if node.Err? {
      return Err(node.error);
    }
    r := ReaderLookup(node.value.data, img.bs, name);
    if good {
      NodeDecodes(c, items, w, img, k);
      EntryFound(c, items, w, img, k, name);
    }
  }
}
