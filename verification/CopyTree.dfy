/** A whole image copied into a Writer: its tree of names over what the Writer had (mkfs_image.go: copyFromImage). */
module CopyTree {
  import opened Bytes
  import opened Names
  import opened Namespace
  import opened CopyWalk
  import opened CopyOrder
  import opened Overlay
  import WT = WriterTree
  import TF = TreeFacts
  import GR = Growth
  import EN = Entries

  /** Past every 64-bit nid. */
  const MARK: nat := 0x1_0000_0000_0000_0000

  /** Every nid is one of 64 bits. */
  predicate Wide(g: Graph) {
    && MARK !in g
    && forall d, j :: d in g && g[d].Folder? && 0 <= j < |g[d].kids| ==> g[d].kids[j].to.nid < MARK
  }

  function SeenKids(kids: seq<Kid>): (r: seq<Kid>)
    ensures |r| == |kids|
    ensures forall j :: 0 <= j < |kids| ==> r[j] == if IsMarker(kids[j].name) then Kid(kids[j].name, Ref(MARK, 1)) else kids[j]
  {
    seq(|kids|, j requires 0 <= j < |kids| => if IsMarker(kids[j].name) then Kid(kids[j].name, Ref(MARK, 1)) else kids[j])
  }

  /** What the walk sees: an obeyed marker's inode is never looked at, so all stand for one file. */
  function Seen(g: Graph, merge: bool): Graph {
    if !merge then g
    else (map d | d in g :: if g[d].Folder? then Folder(SeenKids(g[d].kids)) else g[d])[MARK := Leaf(1)]
  }

  lemma SeenHollow(g: Graph, l: Layer)
    requires l.g == Seen(g, l.merge)
    ensures Hollow(l)
  {
  }

  lemma SeenNamed(g: Graph, merge: bool)
    requires NamedOnce(g)
    ensures NamedOnce(Seen(g, merge))
  {
    hide IsMarker;
    if merge {
      var h := Seen(g, merge);
      forall d, i, j | d in h && h[d].Folder? && 0 <= i < j < |h[d].kids| ensures h[d].kids[i].name != h[d].kids[j].name {
        assert h[d].kids[i].name == g[d].kids[i].name && h[d].kids[j].name == g[d].kids[j].name;
      }
    }
  }

  /** A name brought for something no directory has nothing left below it. */
  ghost predicate Clear(l: Layer, n: Space, vs: seq<Visit>) {
    forall k, q :: Brings(l, vs, k) && !IsFolder(l.g, vs[k].to.nid) && q in n.at && vs[k].path < q ==> Hidden(l, vs, q)
  }

  /** A marker after k takes nothing below k's path but what is in a directory there. */
  lemma LaterSpares(l: Layer, vs: seq<Visit>, k: nat, b: nat, q: Path)
    requires Orderly(l.g, vs) && MarkersFirst(l, vs) && k < b < |vs| && Brings(l, vs, k) && Marks(l, vs[b].path) && q != [] && Dir(q) == vs[k].path
    ensures Covers(vs[b].path, q) ==> Dir(vs[b].path) == vs[k].path
  {
    hide IsMarker, Inside;
    var m, p := vs[b].path, vs[k].path;
    assert |p| <= |m| && !Covers(m, p);
    Prefixes(Dir(m), q);
    Prefixes(Target(m), q);
  }

  lemma Prefixes(t: Path, q: Path)
    requires q != []
    ensures t <= q && |t| >= |Dir(q)| ==> t == q || t == Dir(q)
    ensures t < q ==> t <= Dir(q)
  {
  }

  /** Who is in k's directory comes after k. */
  lemma InsideAfter(l: Layer, vs: seq<Visit>, k: nat, b: nat)
    requires Orderly(l.g, vs) && k < |vs| && 0 < b < |vs| && vs[b].path != [] && Dir(vs[b].path) == vs[k].path
    ensures k < b && IsFolder(l.g, vs[k].to.nid)
  {
    assert Inside(l.g, vs, b);
    var i: nat, j: nat :| Entered(l.g, vs, b, i, j);
    assert vs[i].path == Dir(vs[b].path);
    assert i == k;
  }

  /** What is no directory has nothing below when its turn comes. */
  lemma NothingBelow(l: Layer, n: Space, vs: seq<Visit>, k: nat, m: Space)
    requires Orderly(l.g, vs) && MarkersFirst(l, vs) && Clear(l, n, vs) && Brings(l, vs, k) && NamesOk(l, n, vs[..k], m.at)
    requires !IsFolder(l.g, vs[k].to.nid)
    ensures !HasChild(m, vs[k].path)
  {
    hide Orderly, MarkersFirst, NamesOk, IsMarker;
    forall q | q in m.at && q != [] ensures Dir(q) != vs[k].path {
      if Dir(q) == vs[k].path {
        NoChild(l, n, vs, k, m, q);
      }
    }
  }

  lemma NoChild(l: Layer, n: Space, vs: seq<Visit>, k: nat, m: Space, q: Path)
    requires Orderly(l.g, vs) && MarkersFirst(l, vs) && Clear(l, n, vs) && Brings(l, vs, k) && NamesOk(l, n, vs[..k], m.at)
    requires !IsFolder(l.g, vs[k].to.nid) && q != [] && Dir(q) == vs[k].path
    ensures q !in m.at
  {
    hide Orderly, MarkersFirst, IsMarker, Covers;
    if Carries(l, vs[..k], q) {
      var i :| 0 <= i < k && vs[..k][i].path == q;
      RootAtFront(l, vs, i);
      InsideAfter(l, vs, k, i);
    }
    if q in n.at {
      assert Hidden(l, vs, q);
      var b :| 0 <= b < |vs| && Marks(l, vs[b].path) && Covers(vs[b].path, q);
      if b < k {
        assert vs[..k][b] == vs[b];
        assert Hidden(l, vs[..k], q);
      } else {
        LaterSpares(l, vs, k, b, q);
        InsideAfter(l, vs, k, b);
      }
    }
  }

  lemma RootAtFront(l: Layer, vs: seq<Visit>, i: nat)
    requires Orderly(l.g, vs) && i < |vs| && vs[i].path != []
    ensures i > 0
  {
  }

  /** The first name each linked nid was given. */
  ghost predicate FirstNames(l: Layer, vs: seq<Visit>, c: Copying, links: map<nat, Path>) {
    links.Keys == c.links.Keys && forall d :: d in links ==> FirstName(l, vs, d, links[d])
  }

  ghost predicate FirstName(l: Layer, vs: seq<Visit>, d: nat, p: Path) {
    exists i :: Brings(l, vs, i) && vs[i].path == p && vs[i].to.nid == d && Linked(l, d)
  }

  /** One visit: where it finds no directory in its way, what the fold says; otherwise nothing. */
  method PlaceVisit(w: WT.Writer, l: Layer, v: Visit, links: map<nat, Path>, ghost c: Copying, ghost n: Space, ghost vs: seq<Visit>)
    returns (err: Option<Error>, more: map<nat, Path>)
    requires w.Valid() && w.Names() == c.space && Described(l, n, vs, c) && FirstNames(l, vs, c, links)
    requires Sound(n) && Hollow(l) && Orderly(l.g, vs + [v])
    requires !Marks(l, v.path) && v.path != [] && !IsFolder(l.g, v.to.nid) ==> !HasChild(c.space, v.path)
    modifies w
    ensures w.Valid() && [] in c.space.at
    ensures err.Some? <==> !Marks(l, v.path) && InTheWay(l, n, vs, v)
    ensures err.None? ==> w.Names() == Put(l, c, v).space && more.Keys == Put(l, c, v).links.Keys
    ensures err.None? ==> forall d :: d in more ==> (d in links && more[d] == links[d]) || (more[d] == v.path && d == v.to.nid && Linked(l, d) && v.path != [] && !Marks(l, v.path))
  {
    hide EN.Inv, TF.Map, EN.Live, GR.HasHome, MayPlace, HasChild, Put, Described, FirstNames, Sound, Hollow, Orderly, InTheWay, Repeats, Blocked, Linked, Marks, IsMarker, Target, KindOf, SetMeta, RemoveTree, RemoveChildren;
    more := links;
    SameKeys(l, vs, c, links);
    TF.RootAt(w.State());
    var p := v.path;
    if Marks(l, p) {
      MarkNonRoot(l, p);
      if p[|p| - 1] == OPAQUE {
        w.RemoveChildren(Dir(p));
      } else {
        w.RemoveTree(Target(p));
      }
      PutMark(l, c, v);
      return None, more;
    }
    if p == [] {
      err := w.SetMeta([], l.meta(v.to.nid).(nlink := w.ents[EN.ROOT].inode.meta.nlink));
      PutRoot(l, c, v);
      FirstUnmet(l, n, vs, v);
      return None, more;
    }
    HomeDir(l, n, vs, c, v);
    WT.HomeThere(w.State(), p);
    LinkPath(l, n, vs, c, v, links);
    BlockedIs(l, n, vs, c, v);
    PutElse(l, c, v);
    if Linked(l, v.to.nid) && v.to.nid in links {
      TF.At(w.State(), links[v.to.nid]);
      WT.LiveAt(w.State(), links[v.to.nid]);
      err := w.AddAlias(p, w.byPath[links[v.to.nid]]);
    } else {
      MayPlaceIs(l, c, v);
      w.PlaceEntry(p, KindOf(l.g, v.to.nid), l.meta(v.to.nid));
      err := None;
      if Linked(l, v.to.nid) {
        more := links[v.to.nid := p];
      }
    }
  }

  lemma SameKeys(l: Layer, vs: seq<Visit>, c: Copying, links: map<nat, Path>)
    requires FirstNames(l, vs, c, links)
    ensures links.Keys == c.links.Keys
  {
  }

  lemma PutMark(l: Layer, c: Copying, v: Visit)
    requires Marks(l, v.path) && [] in c.space.at && v.path != [] && IsMarker(v.path[|v.path| - 1])
    ensures Put(l, c, v) == c.(space := if v.path[|v.path| - 1] == OPAQUE then RemoveChildren(c.space, Dir(v.path)) else RemoveTree(c.space, Target(v.path)))
  {
    hide IsMarker, Target;
  }

  lemma PutRoot(l: Layer, c: Copying, v: Visit)
    requires v.path == [] && [] in c.space.at
    ensures Put(l, c, v) == c.(space := SetMeta(c.space, [], l.meta(v.to.nid).(nlink := c.space.at[[]].meta.nlink)).space)
    ensures SetMeta(c.space, [], l.meta(v.to.nid).(nlink := c.space.at[[]].meta.nlink)).error.None?
  {
  }

  lemma FirstUnmet(l: Layer, n: Space, vs: seq<Visit>, v: Visit)
    requires Orderly(l.g, vs + [v]) && v.path == []
    ensures !InTheWay(l, n, vs, v)
  {
    hide Orderly, Hidden;
    RootOnlyFirst(l, vs, v);
    FirstUnblocked(l, n, v);
  }

  /** A visit's directory is there and is one. */
  lemma HomeDir(l: Layer, n: Space, vs: seq<Visit>, c: Copying, v: Visit)
    requires Sound(n) && Hollow(l) && Orderly(l.g, vs + [v]) && Described(l, n, vs, c) && v.path != []
    ensures Dir(v.path) in c.space.at && c.space.at[Dir(v.path)].kind == Directory
  {
    hide Hidden, LinksOk, OneInode, NamesOk, IsMarker, Hollow, Marks;
    var ws := vs + [v];
    HomeCarried(l, vs, v);
    assert Inside(l.g, ws, |vs|);
    var i: nat, j: nat :| Entered(l.g, ws, |vs|, i, j);
    assert ws[i] == vs[i] && Dir(v.path) == vs[i].path;
    if i > 0 {
      assert Brings(l, vs, i);
    }
  }

  lemma LinkPath(l: Layer, n: Space, vs: seq<Visit>, c: Copying, v: Visit, links: map<nat, Path>)
    requires Described(l, n, vs, c) && FirstNames(l, vs, c, links) && v.path != []
    ensures Linked(l, v.to.nid) && v.to.nid in links <==> Repeats(l, c, v)
    ensures Repeats(l, c, v) ==> links[v.to.nid] in c.space.at && c.space.at[links[v.to.nid]] == c.links[v.to.nid] && c.links[v.to.nid].kind != Directory
  {
    hide NamesOk, OneInode, RootOk, Met, Repeats, Carries, Brings;
    RepeatsIs(l, n, vs, c, v);
    BringsInside(l, vs);
    if Repeats(l, c, v) {
      assert FirstName(l, vs, v.to.nid, links[v.to.nid]);
    }
  }

  lemma PutElse(l: Layer, c: Copying, v: Visit)
    requires [] in c.space.at && !Marks(l, v.path) && v.path != []
    ensures Repeats(l, c, v) ==> v.to.nid in c.links
    ensures Repeats(l, c, v) && Blocked(c.space, v.path) ==> Put(l, c, v) == c
    ensures Repeats(l, c, v) && !Blocked(c.space, v.path) ==> Put(l, c, v) == c.(space := c.space.(at := c.space.at[v.path := c.links[v.to.nid]]))
    ensures !Repeats(l, c, v) ==> Put(l, c, v).space == Space(c.space.at[v.path := Inode(c.space.next, KindOf(l.g, v.to.nid), l.meta(v.to.nid))], c.space.next + 1)
    ensures !Repeats(l, c, v) ==> Put(l, c, v).links.Keys == if Linked(l, v.to.nid) then c.links.Keys + {v.to.nid} else c.links.Keys
    ensures Blocked(c.space, v.path) <==> v.path in c.space.at && c.space.at[v.path].kind == Directory
  {
    hide Marks, Linked, Alive, KindOf;
  }

  lemma MayPlaceIs(l: Layer, c: Copying, v: Visit)
    requires !IsFolder(l.g, v.to.nid) ==> !HasChild(c.space, v.path)
    ensures MayPlace(c.space, v.path, KindOf(l.g, v.to.nid))
  {
    hide HasChild;
  }

  lemma FirstNamesStep(l: Layer, vs: seq<Visit>, c: Copying, v: Visit, links: map<nat, Path>, d: Copying, more: map<nat, Path>)
    requires FirstNames(l, vs, c, links) && more.Keys == d.links.Keys && (vs == [] ==> links == map[] && v.path == [])
    requires forall e :: e in more ==> (e in links && more[e] == links[e]) || (more[e] == v.path && e == v.to.nid && Linked(l, e) && v.path != [] && !Marks(l, v.path))
    ensures FirstNames(l, vs + [v], d, more)
  {
    hide Marks, Linked, Brings;
    BringsInside(l, vs);
    forall e | e in more ensures FirstName(l, vs + [v], e, more[e]) {
      if e in links && more[e] == links[e] {
        var i :| Brings(l, vs, i) && vs[i].path == links[e] && vs[i].to.nid == e;
        BringsMore(l, vs, v, i);
      } else {
        BringsMore(l, vs, v, |vs|);
        assert (vs + [v])[|vs|] == v;
      }
    }
  }

  /** All visits in their order, until a directory is in the way. */
  method PlaceAll(w: WT.Writer, l: Layer, vs: seq<Visit>) returns (err: Option<Error>)
    requires w.Valid() && Hollow(l) && Orderly(l.g, vs) && MarkersFirst(l, vs) && Clear(l, w.Names(), vs)
    modifies w
    ensures w.Valid()
    ensures err.None? <==> Unblocked(l, old(w.Names()), vs)
    ensures err.None? ==> NamesOk(l, old(w.Names()), vs, w.Names().at) && InodesOk(l, old(w.Names()), vs, w.Names()) && RootOk(l, old(w.Names()), vs, w.Names())
  {
    hide EN.Inv, TF.Map, HasChild, Put, Described, FirstNames, Sound, Hollow, Orderly, InTheWay, Unblocked, Marks, Spares, Clear, MarkersFirst, NamesOk, InodesOk, RootOk;
    ghost var n := w.Names();
    TF.MapSound(w.State());
    var links: map<nat, Path> := map[];
    ghost var c := Copying(n, map[]);
    Begun(l, n);
    assert FirstNames(l, vs[..0], c, links) by { NoNames(l, n, vs); }
    assert vs[..0] == [];
    NoneBlocked(l, n);
    for k := 0 to |vs|
      invariant w.Valid() && w.Names() == c.space && Described(l, n, vs[..k], c) && FirstNames(l, vs[..k], c, links)
      invariant Unblocked(l, n, vs[..k]) && (k == 0 ==> links == map[])
    {
      OrderlyFront(l.g, vs, k + 1);
      assert vs[..k] + [vs[k]] == vs[..k + 1];
      RootOnlyFirst(l, vs[..k], vs[k]);
      if !Marks(l, vs[k].path) && vs[k].path != [] && !IsFolder(l.g, vs[k].to.nid) {
        BelowNothing(l, n, vs, k, c);
      }
      var e, more := PlaceVisit(w, l, vs[k], links, c, n, vs[..k]);
      UnblockedMore(l, n, vs, k);
      if e.Some? {
        return e;
      }
      FirstNamesStep(l, vs[..k], c, vs[k], links, Put(l, c, vs[k]), more);
      Spared(l, vs, k);
      DescribedStep(l, n, vs[..k], c, vs[k]);
      c, links := Put(l, c, vs[k]), more;
    }
    assert vs[..|vs|] == vs;
    DescribedIs(l, n, vs, c);
    return None;
  }

  lemma NoNames(l: Layer, n: Space, vs: seq<Visit>)
    ensures FirstNames(l, vs[..0], Copying(n, map[]), map[])
  {
  }

  lemma NoneBlocked(l: Layer, n: Space)
    ensures Unblocked(l, n, [])
  {
    BringsInside(l, []);
  }

  lemma BelowNothing(l: Layer, n: Space, vs: seq<Visit>, k: nat, c: Copying)
    requires Orderly(l.g, vs) && MarkersFirst(l, vs) && Clear(l, n, vs) && k < |vs| && Described(l, n, vs[..k], c)
    requires !Marks(l, vs[k].path) && vs[k].path != [] && !IsFolder(l.g, vs[k].to.nid)
    ensures !HasChild(c.space, vs[k].path)
  {
    hide Orderly, MarkersFirst, Clear, NamesOk, InodesOk, LinksOk, RootOk, Marks, HasChild;
    RootAtFront(l, vs, k);
    NothingBelow(l, n, vs, k, c.space);
  }

  /** One visit more is unblocked if it meets no directory, and all are not if it does. */
  lemma UnblockedMore(l: Layer, n: Space, vs: seq<Visit>, k: nat)
    requires k < |vs| && Orderly(l.g, vs) && Unblocked(l, n, vs[..k])
    ensures Unblocked(l, n, vs[..k + 1]) <==> Marks(l, vs[k].path) || !InTheWay(l, n, vs[..k], vs[k])
    ensures !Unblocked(l, n, vs[..k + 1]) ==> !Unblocked(l, n, vs)
  {
    hide InTheWay, Marks, Orderly;
    var front := vs[..k + 1];
    forall i | Brings(l, front, i) && i < k ensures !InTheWay(l, n, front[..i], front[i]) {
      assert front[..i] == vs[..k][..i] && Brings(l, vs[..k], i);
    }
    assert front[..k] == vs[..k] && front[k] == vs[k];
    if k == 0 {
      FirstUnblocked(l, n, vs[0]);
    } else {
      assert Brings(l, front, k) <==> !Marks(l, vs[k].path);
    }
    if Unblocked(l, n, vs) {
      UnblockedFront(l, n, vs, k + 1);
    }
  }

  lemma DescribedIs(l: Layer, n: Space, vs: seq<Visit>, c: Copying)
    requires Described(l, n, vs, c)
    ensures NamesOk(l, n, vs, c.space.at) && InodesOk(l, n, vs, c.space) && RootOk(l, n, vs, c.space)
  {
    hide NamesOk, InodesOk, RootOk, LinksOk;
  }

  // ---- The copy ----

  /** The tree a copy walks, and what it makes of it. */
  function LayerOf(g: Graph, root: nat, meta: nat -> Meta, linked: set<nat>, merge: bool): Layer {
    Layer(Seen(g, merge), root, meta, linked, merge)
  }

  /** The layer has no file where names below one stay. */
  ghost predicate FilesClear(l: Layer, n: Space) {
    forall p, to, q :: Reaches(l.g, l.root, p, to) && p != [] && !Marks(l, p) && !IsFolder(l.g, to.nid) && q in n.at && p < q ==> Marked(l, q)
  }

  /** The layer has a marker that takes q. */
  ghost predicate Marked(l: Layer, q: Path) {
    exists m, to :: Reaches(l.g, l.root, m, to) && Marks(l, m) && Covers(m, q)
  }

  predicate FoldersInOrder(g: Graph) {
    forall d :: d in g && g[d].Folder? ==> KidsInOrder(g[d].kids)
  }

  ghost predicate AllReached(l: Layer, vs: seq<Visit>) {
    forall p, to :: Visit(p, to) in vs <==> Reaches(l.g, l.root, p, to)
  }

  lemma ClearIs(l: Layer, n: Space, vs: seq<Visit>)
    requires Orderly(l.g, vs) && AllReached(l, vs) && FilesClear(l, n)
    ensures Clear(l, n, vs)
  {
    hide Orderly, Reaches, IsMarker, Covers;
    forall k, q | Brings(l, vs, k) && !IsFolder(l.g, vs[k].to.nid) && q in n.at && vs[k].path < q ensures Hidden(l, vs, q) {
      PathThere(l, vs, k);
      assert Visit(vs[k].path, vs[k].to) in vs;
      assert Marked(l, q);
      var m, to :| Reaches(l.g, l.root, m, to) && Marks(l, m) && Covers(m, q);
      assert Visit(m, to) in vs;
    }
  }

  lemma PathThere(l: Layer, vs: seq<Visit>, k: int)
    requires Orderly(l.g, vs) && Brings(l, vs, k)
    ensures 0 < k < |vs| && vs[k].path != []
  {
    hide Marks;
    assert Inside(l.g, vs, k);
  }

  /** Every folder seen has its markers first. */
  lemma SeenInOrder(g: Graph, l: Layer, vs: seq<Visit>)
    requires l.g == Seen(g, l.merge) && (l.merge ==> FoldersInOrder(g)) && BreadthFirst(l.g, l.root, vs) && NamedOnce(l.g)
    ensures MarkersFirst(l, vs)
  {
    hide BreadthFirst, NamedOnce, KidsInOrder, IsMarker, Hollow;
    SeenHollow(g, l);
    if l.merge {
      forall i | 0 <= i < |vs| && IsFolder(l.g, vs[i].to.nid) ensures KidsInOrder(l.g[vs[i].to.nid].kids) {
        SeenKidsInOrder(g[vs[i].to.nid].kids);
      }
      FirstInFolders(l, vs);
    }
  }

  lemma SeenKidsInOrder(kids: seq<Kid>)
    requires KidsInOrder(kids)
    ensures KidsInOrder(SeenKids(kids))
  {
    hide IsMarker;
    var r := SeenKids(kids);
    assert forall j :: 0 <= j < |kids| ==> r[j].name == kids[j].name;
  }

  /** copyFromImage: refused where what it sees is no tree or a further name meets a directory; otherwise the layer over what was there. */
  method Copy(w: WT.Writer, g: Graph, root: nat, meta: nat -> Meta, linked: set<nat>, merge: bool) returns (err: Option<Error>, vs: seq<Visit>)
    requires w.Valid() && NamedOnce(g) && (merge ==> Wide(g) && FoldersInOrder(g)) && FilesClear(LayerOf(g, root, meta, linked, merge), w.Names())
    modifies w
    ensures w.Valid()
    ensures var l := LayerOf(g, root, meta, linked, merge);
            && (err.None? ==> IsTree(l.g, root)) && (!IsTree(l.g, root) ==> w.Names() == old(w.Names()))
            && (IsTree(l.g, root) ==> BreadthFirst(l.g, root, vs) && AllReached(l, vs) && (err.None? <==> Unblocked(l, old(w.Names()), vs)))
    ensures var l := LayerOf(g, root, meta, linked, merge);
            err.None? ==> NamesOk(l, old(w.Names()), vs, w.Names().at) && InodesOk(l, old(w.Names()), vs, w.Names()) && RootOk(l, old(w.Names()), vs, w.Names())
  {
    hide EN.Inv, TF.Map, Seen, NamedOnce, IsTree, BreadthFirst, Reaches, Clear, FilesClear, MarkersFirst, Orderly, Hollow, NamesOk, InodesOk, RootOk, Unblocked;
    var l := LayerOf(g, root, meta, linked, merge);
    vs := [];
    var r := Walk(l.g, root);
    if r.Err? {
      return Some(r.error), vs;
    }
    vs := r.value;
    SeenNamed(g, merge);
    SeenHollow(g, l);
    WalkOrderly(l.g, root, vs);
    SeenInOrder(g, l, vs);
    ClearIs(l, w.Names(), vs);
    err := PlaceAll(w, l, vs);
  }

  /** The names of a copy by itself: every path lookups reach and no other, with the type and metadata it has there. */
  ghost predicate Mirrors(l: Layer, m: Space) {
    && (forall p :: p in m.at <==> ReachedAt(l, p))
    && (forall p, to :: Reaches(l.g, l.root, p, to) && p != [] ==> p in m.at && m.at[p].kind == KindOf(l.g, to.nid) && m.at[p].meta == l.meta(to.nid))
    && (forall p, to, q, x :: Reaches(l.g, l.root, p, to) && Reaches(l.g, l.root, q, x) && p != [] && q != [] && p in m.at && q in m.at ==>
          (m.at[p].serial == m.at[q].serial <==> p == q || (to.nid == x.nid && Linked(l, to.nid))))
  }

  ghost predicate ReachedAt(l: Layer, p: Path) {
    exists to :: Reaches(l.g, l.root, p, to)
  }

  /** Nothing but a root. */
  predicate Bare(n: Space) {
    n.at.Keys == {[]} && n.at[[]].kind == Directory
  }

  lemma BareClear(l: Layer, n: Space)
    requires Bare(n)
    ensures FilesClear(l, n)
  {
    hide Reaches;
  }

  lemma BareUnblocked(l: Layer, n: Space, vs: seq<Visit>)
    requires Bare(n) && Orderly(l.g, vs)
    ensures Unblocked(l, n, vs)
  {
    hide Orderly, Hidden, Met;
    forall k | Brings(l, vs, k) ensures !InTheWay(l, n, vs[..k], vs[k]) {
      PathThere(l, vs, k);
    }
  }

  lemma VisitFor(l: Layer, vs: seq<Visit>, p: Path, to: Ref) returns (k: nat)
    requires AllReached(l, vs) && Orderly(l.g, vs) && Reaches(l.g, l.root, p, to)
    ensures k < |vs| && vs[k] == Visit(p, to) && (p != [] ==> k > 0)
  {
    hide Reaches, Inside;
    assert Visit(p, to) in vs;
    k :| 0 <= k < |vs| && vs[k] == Visit(p, to);
  }

  lemma NoMarks(l: Layer, vs: seq<Visit>)
    requires !l.merge
    ensures forall k :: 0 < k < |vs| ==> Brings(l, vs, k)
    ensures forall p :: !Hidden(l, vs, p)
  {
  }

  lemma MirrorsNew(l: Layer, n: Space, vs: seq<Visit>, m: Space)
    requires Bare(n) && !l.merge && AllReached(l, vs) && Orderly(l.g, vs) && NamesOk(l, n, vs, m.at) && InodesOk(l, n, vs, m)
    ensures Mirrors(l, m)
  {
    hide Reaches, Orderly, NamesOk, InodesOk;
    forall p ensures p in m.at <==> ReachedAt(l, p) {
      NameReached(l, n, vs, m, p);
    }
    forall p, to | Reaches(l.g, l.root, p, to) && p != [] ensures p in m.at && m.at[p].kind == KindOf(l.g, to.nid) && m.at[p].meta == l.meta(to.nid) {
      var k := VisitFor(l, vs, p, to);
      NewAt(l, n, vs, m, k);
    }
    forall p, to, q, x | Reaches(l.g, l.root, p, to) && Reaches(l.g, l.root, q, x) && p != [] && q != [] && p in m.at && q in m.at
      ensures m.at[p].serial == m.at[q].serial <==> p == q || (to.nid == x.nid && Linked(l, to.nid))
    {
      var i := VisitFor(l, vs, p, to);
      var j := VisitFor(l, vs, q, x);
      SharedAt(l, n, vs, m, i, j);
    }
  }

  lemma NameReached(l: Layer, n: Space, vs: seq<Visit>, m: Space, p: Path)
    requires Bare(n) && !l.merge && AllReached(l, vs) && Orderly(l.g, vs) && NamesOk(l, n, vs, m.at)
    ensures p in m.at <==> ReachedAt(l, p)
  {
    hide Reaches, Orderly;
    NoMarks(l, vs);
    if Carries(l, vs, p) {
      var k :| 0 <= k < |vs| && vs[k].path == p;
      assert Visit(p, vs[k].to) in vs;
    }
    if ReachedAt(l, p) {
      var to :| Reaches(l.g, l.root, p, to);
      var k := VisitFor(l, vs, p, to);
    }
    if p == [] {
      RootReached(l);
    }
  }

  lemma RootReached(l: Layer)
    ensures ReachedAt(l, [])
  {
    assert Reaches(l.g, l.root, [], Top(l.root).to);
  }

  lemma NewAt(l: Layer, n: Space, vs: seq<Visit>, m: Space, k: nat)
    requires !l.merge && InodesOk(l, n, vs, m) && 0 < k < |vs|
    ensures vs[k].path in m.at && New(l, n, m.next, vs[k], m.at[vs[k].path])
  {
    hide New, OneInode, Carries;
    NoMarks(l, vs);
  }

  lemma SharedAt(l: Layer, n: Space, vs: seq<Visit>, m: Space, i: nat, j: nat)
    requires !l.merge && InodesOk(l, n, vs, m) && Orderly(l.g, vs) && 0 < i < |vs| && 0 < j < |vs| && vs[i].path in m.at && vs[j].path in m.at
    ensures m.at[vs[i].path].serial == m.at[vs[j].path].serial <==> vs[i].path == vs[j].path || (vs[i].to.nid == vs[j].to.nid && Linked(l, vs[i].to.nid))
  {
    hide New, Carries, Linked, Inside;
    NoMarks(l, vs);
    assert OneInode(l, vs[i], vs[j]) <==> m.at[vs[i].path].serial == m.at[vs[j].path].serial;
  }

  /** An image copied into a new Writer: taken exactly if it is a tree, and then what lookups in the image reach is what the Writer has. */
  method CopyNew(g: Graph, root: nat, meta: nat -> Meta, linked: set<nat>) returns (w: WT.Writer, err: Option<Error>)
    requires NamedOnce(g)
    ensures fresh(w) && w.Valid()
    ensures err.None? <==> IsTree(g, root)
    ensures err.None? ==> Mirrors(Layer(g, root, meta, linked, false), w.Names())
  {
    hide EN.Inv, TF.Map, NamedOnce, IsTree, BreadthFirst, Reaches, FilesClear, Orderly, NamesOk, InodesOk, RootOk, Unblocked, Mirrors;
    w := new WT.Writer();
    ghost var l, n := LayerOf(g, root, meta, linked, false), w.Names();
    BareClear(l, n);
    var vs;
    err, vs := Copy(w, g, root, meta, linked, false);
    if IsTree(g, root) {
      WalkOrderly(g, root, vs);
      BareUnblocked(l, n, vs);
      MirrorsNew(l, n, vs, w.Names());
    }
  }
}
