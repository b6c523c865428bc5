/** What merging a layer does to the names: its entries over the ones below, less those its whiteouts take (mkfs_image.go: copyFromImage, in merge mode or not). */
module Overlay {
  import opened Bytes
  import opened Names
  import opened Namespace
  import opened CopyWalk
  import opened CopyOrder

  /** ".wh." and ".wh..wh..opq". */
  const WHITEOUT: seq<byte> := [0x2E, 0x77, 0x68, 0x2E]
  const OPAQUE: seq<byte> := [0x2E, 0x77, 0x68, 0x2E, 0x2E, 0x77, 0x68, 0x2E, 0x2E, 0x6F, 0x70, 0x71]

  /** A layer: its inodes and what each holds, those with a link count above one, and whether its markers are obeyed. */
  datatype Layer = Layer(g: Graph, root: nat, meta: nat -> Meta, linked: set<nat>, merge: bool)

  predicate IsMarker(name: Name) {
    |name| > |WHITEOUT| && name[..|WHITEOUT|] == WHITEOUT
  }

  /** The entry is a marker and obeyed as one. */
  predicate Marks(l: Layer, p: Path) {
    l.merge && p != [] && IsMarker(p[|p| - 1])
  }

  /** What a whiteout names. */
  function Target(m: Path): (t: Path)
    requires m != [] && IsMarker(m[|m| - 1])
    ensures |t| == |m| && Dir(t) == Dir(m)
  {
    Dir(m) + [m[|m| - 1][|WHITEOUT|..]]
  }

  /** The marker m takes p: an opaque one all below its directory, a whiteout its target and all below that. */
  predicate Covers(m: Path, p: Path)
    requires m != [] && IsMarker(m[|m| - 1])
  {
    if m[|m| - 1] == OPAQUE then Dir(m) < p else Target(m) <= p
  }

  /** Some marker visited takes p. */
  predicate Hidden(l: Layer, vs: seq<Visit>, p: Path) {
    exists k :: 0 <= k < |vs| && Marks(l, vs[k].path) && Covers(vs[k].path, p)
  }

  /** Some entry visited, no marker, is p. */
  predicate Carries(l: Layer, vs: seq<Visit>, p: Path) {
    exists k :: 0 <= k < |vs| && vs[k].path == p && !Marks(l, p)
  }

  /** The names of an overlay: the layer's, and those below that it hides not. */
  ghost predicate NamesOk(l: Layer, n: Space, vs: seq<Visit>, at: map<Path, Inode>) {
    forall p :: p in at <==> Carries(l, vs, p) || (p in n.at && !Hidden(l, vs, p))
  }

  /** No marker takes an entry of its own layer visited before it. */
  predicate MarkersFirst(l: Layer, vs: seq<Visit>) {
    forall i, j :: 0 <= i < j < |vs| && Marks(l, vs[j].path) && !Marks(l, vs[i].path) ==> !Covers(vs[j].path, vs[i].path)
  }

  // ---- One visit after another ----

  /** The names so far, and the inode each nid with several names was given. */
  datatype Copying = Copying(space: Space, links: map<nat, Inode>)

  function KindOf(g: Graph, nid: nat): Kind {
    var t := if nid in g then TypeOf(g[nid]) else 0;
    if t == FILE_TYPE_DIR then Directory else if t == 1 then Regular else if t == 7 then Symlink else Special
  }

  /** Only such an inode is given further names. */
  predicate Linked(l: Layer, nid: nat) {
    nid in l.linked && !IsFolder(l.g, nid)
  }

  predicate Alive(n: Space, x: Inode) {
    exists q :: q in n.at && n.at[q] == x
  }

  /** A further name of an inode this layer brought. */
  predicate Repeats(l: Layer, c: Copying, v: Visit) {
    Linked(l, v.to.nid) && v.to.nid in c.links && Alive(c.space, c.links[v.to.nid])
  }

  function Erase(n: Space, m: Path): Space
    requires m != [] && IsMarker(m[|m| - 1])
  {
    if m[|m| - 1] == OPAQUE then RemoveChildren(n, Dir(m)) else RemoveTree(n, Target(m))
  }

  function RootMeta(l: Layer, n: Space, v: Visit): Meta
    requires [] in n.at
  {
    l.meta(v.to.nid).(nlink := n.at[[]].meta.nlink)
  }

  function Bring(l: Layer, c: Copying, v: Visit): Inode {
    Inode(c.space.next, KindOf(l.g, v.to.nid), l.meta(v.to.nid))
  }

  /** A directory is in a further name's way. */
  predicate Blocked(n: Space, p: Path) {
    p in n.at && n.at[p].kind == Directory
  }

  /** What visiting v does. */
  function Put(l: Layer, c: Copying, v: Visit): (d: Copying)
    requires [] in c.space.at
    ensures [] in d.space.at
  {
    var n, p := c.space, v.path;
    if Marks(l, p) then c.(space := Erase(n, p))
    else if p == [] then c.(space := SetMeta(n, [], RootMeta(l, n, v)).space)
    else if Repeats(l, c, v) then
      if Blocked(n, p) then c else c.(space := n.(at := n.at[p := c.links[v.to.nid]]))
    else
      var x := Bring(l, c, v);
      Copying(Space(n.at[p := x], n.next + 1), if Linked(l, v.to.nid) then c.links[v.to.nid := x] else c.links)
  }

  function Merged(l: Layer, n: Space, vs: seq<Visit>): (c: Copying)
    requires [] in n.at
    ensures [] in c.space.at
  {
    if vs == [] then Copying(n, map[]) else Put(l, Merged(l, n, vs[..|vs| - 1]), vs[|vs| - 1])
  }

  // ---- Which names ----

  lemma CoversBelow(m: Path, p: Path, q: Path)
    requires m != [] && IsMarker(m[|m| - 1]) && Covers(m, p) && p <= q
    ensures Covers(m, q)
  {
  }

  lemma {:induction false} AboveThere(n: Space, t: Path, p: Path)
    requires Sound(n) && p in n.at && t <= p
    ensures t in n.at
    decreases |p|
  {
    if t != p {
      AboveThere(n, t, Dir(p));
    }
  }

  lemma CarriesMore(l: Layer, vs: seq<Visit>, v: Visit, p: Path)
    ensures Carries(l, vs + [v], p) <==> Carries(l, vs, p) || (v.path == p && !Marks(l, p))
    ensures Hidden(l, vs + [v], p) <==> Hidden(l, vs, p) || (Marks(l, v.path) && Covers(v.path, p))
  {
    hide IsMarker;
    var ws := vs + [v];
    assert ws[|vs|] == v && forall k :: 0 <= k < |vs| ==> ws[k] == vs[k];
    if Carries(l, vs, p) {
      var k :| 0 <= k < |vs| && vs[k].path == p && !Marks(l, p);
      assert ws[k].path == p;
    }
    if Hidden(l, vs, p) {
      var k :| 0 <= k < |vs| && Marks(l, vs[k].path) && Covers(vs[k].path, p);
      assert ws[k] == vs[k];
    }
  }

  /** v's directory is among the names it was visited after. */
  lemma HomeCarried(l: Layer, vs: seq<Visit>, v: Visit)
    requires Hollow(l) && Orderly(l.g, vs + [v]) && v.path != []
    ensures Carries(l, vs, Dir(v.path))
  {
    var ws := vs + [v];
    assert Inside(l.g, ws, |vs|);
    var i: nat, j: nat :| Entered(l.g, ws, |vs|, i, j);
    assert vs[i] == ws[i] && Dir(v.path) == vs[i].path;
    if i > 0 {
      assert Inside(l.g, ws, i);
      var x: nat, y: nat :| Entered(l.g, ws, i, x, y);
      assert ws[i].path[|ws[i].path| - 1] == l.g[ws[x].to.nid].kids[y].name;
    }
  }

  /** An obeyed marker is nothing a walk goes into. */
  predicate Hollow(l: Layer) {
    l.merge ==> forall d, j :: d in l.g && l.g[d].Folder? && 0 <= j < |l.g[d].kids| && IsMarker(l.g[d].kids[j].name) ==> !IsFolder(l.g, l.g[d].kids[j].to.nid)
  }

  /** The visit takes no name visited before it. */
  ghost predicate Spares(l: Layer, vs: seq<Visit>, v: Visit) {
    Marks(l, v.path) ==> forall p :: Carries(l, vs, p) ==> !Covers(v.path, p)
  }

  /** Names stay those of the overlay over a visit that spares what was visited. */
  lemma NamesStep(l: Layer, n: Space, vs: seq<Visit>, c: Copying, v: Visit)
    requires Sound(n) && Hollow(l) && Orderly(l.g, vs + [v]) && [] in c.space.at && NamesOk(l, n, vs, c.space.at) && Spares(l, vs, v)
    ensures NamesOk(l, n, vs + [v], Put(l, c, v).space.at)
  {
    hide Hollow, Orderly, Sound, Carries, Hidden, IsMarker;
    var at := Put(l, c, v).space.at;
    forall p ensures p in at <==> Carries(l, vs + [v], p) || (p in n.at && !Hidden(l, vs + [v], p)) {
      CarriesMore(l, vs, v, p);
      if Marks(l, v.path) {
        HomeCarried(l, vs, v);
        ErasedNames(l, n, vs, c.space, v.path, p);
      }
    }
  }

  /** A marker takes exactly what it covers. */
  lemma ErasedNames(l: Layer, n: Space, vs: seq<Visit>, m: Space, v: Path, p: Path)
    requires Sound(n) && Marks(l, v) && NamesOk(l, n, vs, m.at) && Carries(l, vs, Dir(v))
    requires forall q :: Carries(l, vs, q) ==> !Covers(v, q)
    ensures p in Erase(m, v).at <==> p in m.at && !Covers(v, p)
  {
    hide Sound, Carries, IsMarker;
    if v[|v| - 1] != OPAQUE && Target(v) !in m.at && p in m.at && Target(v) <= p {
      AboveThere(n, Target(v), p);
      var k :| 0 <= k < |vs| && Marks(l, vs[k].path) && Covers(vs[k].path, Target(v));
      CoversBelow(vs[k].path, Target(v), p);
    }
  }

  lemma Spared(l: Layer, vs: seq<Visit>, k: nat)
    requires MarkersFirst(l, vs) && k < |vs|
    ensures Spares(l, vs[..k], vs[k])
  {
    hide IsMarker, Covers;
  }

  lemma OrderlyFront(g: Graph, vs: seq<Visit>, k: nat)
    requires Orderly(g, vs) && k <= |vs|
    ensures Orderly(g, vs[..k])
  {
    forall i | 0 < i < k ensures Inside(g, vs[..k], i) {
      assert Inside(g, vs, i);
      var a: nat, b: nat :| Entered(g, vs, i, a, b);
      assert Entered(g, vs[..k], i, a, b);
    }
  }

  /** Where markers come first, a merge leaves the names of the overlay. */
  lemma {:induction false} OverlayNames(l: Layer, n: Space, vs: seq<Visit>)
    requires Sound(n) && Hollow(l) && Orderly(l.g, vs) && MarkersFirst(l, vs)
    ensures NamesOk(l, n, vs, Merged(l, n, vs).space.at)
    decreases |vs|
  {
    hide Hollow, Orderly, Sound, NamesOk, MarkersFirst, Put, Spares;
    RootThere(n);
    if vs == [] {
      NothingYet(l, n);
    } else {
      var k := |vs| - 1;
      OrderlyFront(l.g, vs, k);
      FirstFront(l, vs, k);
      OverlayNames(l, n, vs[..k]);
      Spared(l, vs, k);
      assert vs[..k] + [vs[k]] == vs;
      NamesStep(l, n, vs[..k], Merged(l, n, vs[..k]), vs[k]);
    }
  }

  lemma RootThere(n: Space)
    requires Sound(n)
    ensures [] in n.at
  {
  }

  lemma FirstFront(l: Layer, vs: seq<Visit>, k: nat)
    requires MarkersFirst(l, vs) && k <= |vs|
    ensures MarkersFirst(l, vs[..k])
  {
    hide IsMarker, Covers;
  }

  lemma NothingYet(l: Layer, n: Space)
    ensures NamesOk(l, n, [], n.at)
  {
  }

  lemma PutElsewhere(l: Layer, c: Copying, v: Visit, p: Path)
    requires [] in c.space.at && p != v.path
    ensures p in Put(l, c, v).space.at ==> p in c.space.at
  {
    hide Marks, Repeats, IsMarker;
  }

  /** A name taken does not come back. */
  lemma {:induction false} StaysGone(l: Layer, n: Space, vs: seq<Visit>, k: nat, p: Path)
    requires [] in n.at && k <= |vs| && p !in Merged(l, n, vs[..k]).space.at && forall i :: k <= i < |vs| ==> vs[i].path != p
    ensures p !in Merged(l, n, vs).space.at
    decreases |vs|
  {
    hide Put;
    var e := |vs| - 1;
    if k < |vs| {
      PutElsewhere(l, Merged(l, n, vs[..e]), vs[e], p);
      assert vs[..e][..k] == vs[..k];
      StaysGone(l, n, vs[..e], k, p);
    } else {
      assert vs[..k] == vs;
    }
  }

  /** The visits up to k obey the order, and visit k is a marker that takes one before it. */
  predicate FirstTaken(l: Layer, vs: seq<Visit>, i: nat, k: nat) {
    i < k < |vs| && MarkersFirst(l, vs[..k]) && Marks(l, vs[k].path) && !Marks(l, vs[i].path) && Covers(vs[k].path, vs[i].path)
  }

  lemma {:induction false} SomeTaken(l: Layer, vs: seq<Visit>) returns (i: nat, k: nat)
    requires !MarkersFirst(l, vs)
    ensures FirstTaken(l, vs, i, k)
    decreases |vs|
  {
    hide IsMarker, Covers;
    var e := |vs| - 1;
    if MarkersFirst(l, vs[..e]) {
      i, k :| 0 <= i < k < |vs| && Marks(l, vs[k].path) && !Marks(l, vs[i].path) && Covers(vs[k].path, vs[i].path);
      assert k == e;
    } else {
      i, k := SomeTaken(l, vs[..e]);
      assert vs[..e][..k] == vs[..k];
    }
  }

  /** The name of an entry visited before a marker that covers it is the whiteout's target, or in the opaque directory. */
  lemma SideBySide(l: Layer, vs: seq<Visit>, i: nat, k: nat)
    requires Orderly(l.g, vs) && FirstTaken(l, vs, i, k)
    ensures vs[i].path != [] && Dir(vs[i].path) == Dir(vs[k].path)
    ensures vs[k].path[|vs[k].path| - 1] != OPAQUE ==> vs[i].path == Target(vs[k].path)
  {
    hide IsMarker, MarkersFirst;
    var m, p := vs[k].path, vs[i].path;
    assert |p| <= |m|;
    if m[|m| - 1] != OPAQUE {
      assert p == Target(m);
    }
  }

  /** A marker that takes an entry of its own layer loses it. */
  lemma TakenLost(l: Layer, n: Space, vs: seq<Visit>, i: nat, k: nat)
    requires Sound(n) && Hollow(l) && Orderly(l.g, vs) && FirstTaken(l, vs, i, k)
    ensures Carries(l, vs, vs[i].path) && vs[i].path !in Merged(l, n, vs).space.at
  {
    hide Hollow, Sound, Hidden, IsMarker, Put, Spares, Covers, MarkersFirst, Merged, NamesOk, Inside, Target;
    RootThere(n);
    var front := vs[..k];
    OrderlyFront(l.g, vs, k);
    OrderlyFront(l.g, vs, k + 1);
    assert front + [vs[k]] == vs[..k + 1];
    OverlayNames(l, n, front);
    SideBySide(l, vs, i, k);
    HomeCarried(l, front, vs[k]);
    assert front[i] == vs[i];
    assert Carries(l, front, vs[i].path);
    TakenNow(l, n, vs, i, k);
    StaysGone(l, n, vs, k + 1, vs[i].path);
  }

  lemma TakenNow(l: Layer, n: Space, vs: seq<Visit>, i: nat, k: nat)
    requires [] in n.at && FirstTaken(l, vs, i, k) && NamesOk(l, n, vs[..k], Merged(l, n, vs[..k]).space.at)
    requires Carries(l, vs[..k], vs[i].path) && vs[k].path != [] && Carries(l, vs[..k], Dir(vs[k].path))
    requires vs[k].path[|vs[k].path| - 1] != OPAQUE ==> vs[i].path == Target(vs[k].path)
    ensures vs[i].path !in Merged(l, n, vs[..k + 1]).space.at
  {
    hide IsMarker, MarkersFirst, Carries, Hidden;
    assert vs[..k + 1][..k] == vs[..k];
  }

  /** The overlay's names are what a merge leaves if and only if no marker takes an entry visited before it. */
  lemma OverlayExactly(l: Layer, n: Space, vs: seq<Visit>)
    requires Sound(n) && Hollow(l) && Orderly(l.g, vs)
    ensures NamesOk(l, n, vs, Merged(l, n, vs).space.at) <==> MarkersFirst(l, vs)
  {
    hide Hollow, Orderly, Sound, Carries, Hidden, MarkersFirst, Merged, FirstTaken;
    if MarkersFirst(l, vs) {
      OverlayNames(l, n, vs);
    } else {
      var i, k := SomeTaken(l, vs);
      Within(l, vs, i, k);
      TakenLost(l, n, vs, i, k);
    }
  }

  lemma Within(l: Layer, vs: seq<Visit>, i: nat, k: nat)
    requires FirstTaken(l, vs, i, k)
    ensures i < k < |vs|
  {
  }

  // ---- Which inodes ----

  /** Visit k brought a name. */
  predicate Brings(l: Layer, vs: seq<Visit>, k: int) {
    0 < k < |vs| && !Marks(l, vs[k].path)
  }

  /** Two entries are names of one inode. */
  predicate OneInode(l: Layer, u: Visit, v: Visit) {
    u == v || (u.to.nid == v.to.nid && Linked(l, u.to.nid))
  }

  /** An inode of the layer's, with its type and metadata. */
  predicate New(l: Layer, n: Space, next: nat, v: Visit, x: Inode) {
    x.kind == KindOf(l.g, v.to.nid) && x.meta == l.meta(v.to.nid) && n.next <= x.serial < next
  }

  /** Names below keep their inodes, each name brought has a new one, and two share it exactly where they share a linked nid. */
  ghost predicate InodesOk(l: Layer, n: Space, vs: seq<Visit>, m: Space) {
    && n.next <= m.next
    && (forall p :: p in m.at && p != [] && !Carries(l, vs, p) ==> p in n.at && m.at[p] == n.at[p])
    && (forall k :: Brings(l, vs, k) ==> vs[k].path in m.at && New(l, n, m.next, vs[k], m.at[vs[k].path]))
    && (forall i, j :: Brings(l, vs, i) && Brings(l, vs, j) ==>
          (m.at[vs[i].path].serial == m.at[vs[j].path].serial <==> OneInode(l, vs[i], vs[j])))
  }

  /** The links are the linked nids met, each with the inode its names have. */
  ghost predicate LinksOk(l: Layer, vs: seq<Visit>, c: Copying) {
    && (forall k :: Brings(l, vs, k) && Linked(l, vs[k].to.nid) ==>
          vs[k].path in c.space.at && vs[k].to.nid in c.links && c.links[vs[k].to.nid] == c.space.at[vs[k].path])
    && (forall d :: d in c.links ==> Met(l, vs, d))
  }

  ghost predicate Met(l: Layer, vs: seq<Visit>, d: nat) {
    Linked(l, d) && exists k :: Brings(l, vs, k) && vs[k].to.nid == d
  }

  /** The root keeps its inode and link count and takes the rest of the layer's root's metadata. */
  ghost predicate RootOk(l: Layer, n: Space, vs: seq<Visit>, m: Space) {
    && [] in n.at && [] in m.at
    && m.at[[]] == if vs == [] then n.at[[]] else n.at[[]].(meta := RootMeta(l, n, vs[0]))
  }

  ghost predicate Described(l: Layer, n: Space, vs: seq<Visit>, c: Copying) {
    && NamesOk(l, n, vs, c.space.at) && InodesOk(l, n, vs, c.space) && LinksOk(l, vs, c) && RootOk(l, n, vs, c.space)
    && (vs == [] ==> c.space == n)
  }

  lemma BringsMore(l: Layer, vs: seq<Visit>, v: Visit, k: int)
    requires vs != []
    ensures Brings(l, vs + [v], k) <==> Brings(l, vs, k) || (k == |vs| && !Marks(l, v.path))
    ensures Brings(l, vs, k) ==> (vs + [v])[k] == vs[k]
  {
    hide Marks;
  }

  lemma MetMore(l: Layer, vs: seq<Visit>, v: Visit, d: nat)
    requires Met(l, vs, d)
    ensures Met(l, vs + [v], d)
  {
    var k :| Brings(l, vs, k) && vs[k].to.nid == d;
    BringsMore(l, vs, v, k);
  }

  /** The path of a further visit is no path brought before. */
  lemma NewPath(l: Layer, vs: seq<Visit>, v: Visit, k: nat)
    requires Orderly(l.g, vs + [v]) && k < |vs|
    ensures vs[k].path != v.path
  {
    hide Inside;
    assert (vs + [v])[k] == vs[k] && (vs + [v])[|vs|] == v;
  }

  /** With fewer names, all of those brought among them, what is left is as it was. */
  lemma Fewer(l: Layer, n: Space, vs: seq<Visit>, c: Copying, v: Visit, d: Copying)
    requires vs != [] && InodesOk(l, n, vs, c.space) && LinksOk(l, vs, c) && Marks(l, v.path)
    requires d.links == c.links && d.space.next == c.space.next && NamesOk(l, n, vs + [v], d.space.at)
    requires forall p :: p in d.space.at ==> p in c.space.at && d.space.at[p] == c.space.at[p]
    ensures InodesOk(l, n, vs + [v], d.space) && LinksOk(l, vs + [v], d)
  {
    hide Marks, Hidden, New, OneInode, Linked, Met, Carries, Brings;
    var ws := vs + [v];
    BringsInside(l, vs);
    BringsInside(l, ws);
    forall k | Brings(l, ws, k) ensures Brings(l, vs, k) && ws[k] == vs[k] && vs[k].path in d.space.at {
      BringsMore(l, vs, v, k);
      BroughtCarried(l, ws, k);
    }
    forall p | p in d.space.at && p != [] && !Carries(l, ws, p) ensures p in n.at && d.space.at[p] == n.at[p] {
      CarriesMore(l, vs, v, p);
    }
    forall e | e in d.links ensures Met(l, ws, e) {
      MetMore(l, vs, v, e);
    }
  }

  lemma BroughtCarried(l: Layer, vs: seq<Visit>, k: int)
    requires Brings(l, vs, k)
    ensures 0 < k < |vs| && Carries(l, vs, vs[k].path)
  {
  }

  lemma BringsInside(l: Layer, vs: seq<Visit>)
    ensures forall k :: Brings(l, vs, k) ==> 0 < k < |vs|
  {
  }

  lemma ErasedLess(m: Space, v: Path)
    requires v != [] && IsMarker(v[|v| - 1])
    ensures Erase(m, v).next == m.next && forall p :: p in Erase(m, v).at ==> p in m.at && Erase(m, v).at[p] == m.at[p]
  {
    hide IsMarker;
  }

  /** A further name of x for the visit, x being the inode of the nid's other names or a new one of its own. */
  predicate Adds(l: Layer, c: Copying, v: Visit, x: Inode, d: Copying) {
    && c.space.next <= d.space.next && d.space.at == c.space.at[v.path := x]
    && (d.links == if Linked(l, v.to.nid) then c.links[v.to.nid := x] else c.links)
    && (if v.to.nid in c.links && Linked(l, v.to.nid) then x == c.links[v.to.nid] else x.serial == c.space.next)
  }

  /** The names brought are the ones before, and the visit's. */
  lemma BringsOne(l: Layer, vs: seq<Visit>, v: Visit, k: int)
    requires vs != [] && Orderly(l.g, vs + [v]) && Brings(l, vs + [v], k)
    ensures 0 < k < |vs + [v]| && (k == |vs| || (Brings(l, vs, k) && k < |vs| && (vs + [v])[k] == vs[k] && vs[k].path != v.path))
  {
    hide Marks, Orderly;
    BringsMore(l, vs, v, k);
    if k < |vs| {
      NewPath(l, vs, v, k);
    }
  }

  lemma MoreInodes(l: Layer, n: Space, vs: seq<Visit>, c: Copying, v: Visit, x: Inode, d: Copying)
    requires vs != [] && Orderly(l.g, vs + [v]) && !Marks(l, v.path) && InodesOk(l, n, vs, c.space) && LinksOk(l, vs, c)
    requires Adds(l, c, v, x, d) && New(l, n, d.space.next, v, x)
    ensures InodesOk(l, n, vs + [v], d.space)
  {
    hide Marks, Linked, LinksOk, Carries, Orderly, Brings;
    var ws := vs + [v];
    BringsInside(l, vs);
    forall k | Brings(l, ws, k) ensures 0 < k < |ws| && (k == |vs| || (Brings(l, vs, k) && k < |vs| && ws[k] == vs[k] && vs[k].path != v.path)) {
      BringsOne(l, vs, v, k);
    }
    forall p | p in d.space.at && p != [] && !Carries(l, ws, p) ensures p in n.at && d.space.at[p] == n.at[p] {
      CarriesMore(l, vs, v, p);
    }
    forall i | Brings(l, vs, i) ensures c.space.at[vs[i].path].serial == x.serial <==> OneInode(l, vs[i], v) {
      OneMore(l, n, vs, c, v, x, i);
    }
  }

  lemma MoreLinks(l: Layer, n: Space, vs: seq<Visit>, c: Copying, v: Visit, x: Inode, d: Copying)
    requires vs != [] && Orderly(l.g, vs + [v]) && !Marks(l, v.path) && LinksOk(l, vs, c) && Adds(l, c, v, x, d)
    ensures LinksOk(l, vs + [v], d)
  {
    hide Marks, Linked, Met, Orderly, Brings;
    var ws := vs + [v];
    BringsInside(l, vs);
    forall k | Brings(l, ws, k) ensures 0 < k < |ws| && (k == |vs| || (Brings(l, vs, k) && k < |vs| && ws[k] == vs[k] && vs[k].path != v.path)) {
      BringsOne(l, vs, v, k);
    }
    forall e | e in d.links ensures Met(l, ws, e) {
      if e in c.links {
        MetMore(l, vs, v, e);
      } else {
        MetNow(l, vs, v);
      }
    }
  }

  lemma MetNow(l: Layer, vs: seq<Visit>, v: Visit)
    requires vs != [] && !Marks(l, v.path) && Linked(l, v.to.nid)
    ensures Met(l, vs + [v], v.to.nid)
  {
    assert Brings(l, vs + [v], |vs|);
  }

  lemma OneMore(l: Layer, n: Space, vs: seq<Visit>, c: Copying, v: Visit, x: Inode, i: int)
    requires Orderly(l.g, vs + [v]) && InodesOk(l, n, vs, c.space) && LinksOk(l, vs, c) && Brings(l, vs, i)
    requires if v.to.nid in c.links && Linked(l, v.to.nid) then x == c.links[v.to.nid] else x.serial == c.space.next
    ensures c.space.at[vs[i].path].serial == x.serial <==> OneInode(l, vs[i], v)
  {
    hide Marks, Linked, Carries, Orderly;
    NewPath(l, vs, v, i);
    if v.to.nid in c.links && Linked(l, v.to.nid) {
      var k :| Brings(l, vs, k) && vs[k].to.nid == v.to.nid;
      assert OneInode(l, vs[i], vs[k]) <==> c.space.at[vs[i].path].serial == x.serial;
    }
  }

  lemma RootStep(l: Layer, n: Space, v: Visit)
    requires Sound(n) && v.path == []
    ensures var m := SetMeta(n, [], RootMeta(l, n, v)).space;
            InodesOk(l, n, [v], m) && LinksOk(l, [v], Copying(m, map[]))
  {
    hide Linked, Met, Carries, New, OneInode, RootMeta, Sound;
    RootThere(n);
    BringsInside(l, [v]);
    RootAlone(n, RootMeta(l, n, v));
  }

  /** No other name is the root's. */
  lemma RootAlone(n: Space, meta: Meta)
    requires Sound(n)
    ensures var m := SetMeta(n, [], meta).space; m.next == n.next && forall p :: p in m.at && p != [] ==> p in n.at && m.at[p] == n.at[p]
  {
  }

  lemma Begun(l: Layer, n: Space)
    requires Sound(n)
    ensures Described(l, n, [], Copying(n, map[]))
  {
    hide Sound, Hidden;
    RootThere(n);
    BringsInside(l, []);
    NothingYet(l, n);
    OwnNames(l, n);
  }

  lemma OwnNames(l: Layer, n: Space)
    ensures forall p :: !Carries(l, [], p)
  {
  }

  /** What a nid's further name meets: the inode its first has. */
  lemma RepeatsIs(l: Layer, n: Space, vs: seq<Visit>, c: Copying, v: Visit)
    requires Described(l, n, vs, c) && v.path != []
    ensures Repeats(l, c, v) <==> Met(l, vs, v.to.nid)
    ensures Repeats(l, c, v) ==> New(l, n, c.space.next, v, c.links[v.to.nid])
    ensures Repeats(l, c, v) <==> v.to.nid in c.links && Linked(l, v.to.nid)
  {
    hide NamesOk, Carries, Linked, OneInode, RootOk;
    if Met(l, vs, v.to.nid) {
      var k :| Brings(l, vs, k) && vs[k].to.nid == v.to.nid;
      assert c.links[v.to.nid] == c.space.at[vs[k].path];
    }
  }

  /** The directory that is in the way of a further name, a name below that no marker took before. */
  ghost predicate InTheWay(l: Layer, n: Space, vs: seq<Visit>, v: Visit) {
    Met(l, vs, v.to.nid) && v.path in n.at && n.at[v.path].kind == Directory && !Hidden(l, vs, v.path)
  }

  /** No further name of an inode meets a directory. */
  ghost predicate Unblocked(l: Layer, n: Space, vs: seq<Visit>) {
    forall k :: Brings(l, vs, k) ==> !InTheWay(l, n, vs[..k], vs[k])
  }

  lemma NotCarried(l: Layer, vs: seq<Visit>, v: Visit)
    requires Orderly(l.g, vs + [v])
    ensures !Carries(l, vs, v.path)
  {
    hide Orderly;
    forall k | 0 <= k < |vs| ensures vs[k].path != v.path {
      NewPath(l, vs, v, k);
    }
  }

  lemma BlockedIs(l: Layer, n: Space, vs: seq<Visit>, c: Copying, v: Visit)
    requires Described(l, n, vs, c) && Orderly(l.g, vs + [v]) && v.path != []
    ensures Repeats(l, c, v) && Blocked(c.space, v.path) <==> InTheWay(l, n, vs, v)
  {
    hide Carries, Hidden, Orderly, LinksOk, RootOk, Repeats, Met, Brings;
    RepeatsIs(l, n, vs, c, v);
    NotCarried(l, vs, v);
  }

  lemma RootOnlyFirst(l: Layer, vs: seq<Visit>, v: Visit)
    requires Orderly(l.g, vs + [v])
    ensures v.path == [] <==> vs == []
  {
    var ws := vs + [v];
    assert ws[|vs|] == v;
    if vs != [] {
      assert ws[0] == vs[0];
      NewPath(l, vs, v, 0);
    }
  }

  /** Every visit that spares the names before it, and finds no directory in its way, keeps the description. */
  lemma DescribedStep(l: Layer, n: Space, vs: seq<Visit>, c: Copying, v: Visit)
    requires Sound(n) && Hollow(l) && Orderly(l.g, vs + [v]) && [] in c.space.at && Described(l, n, vs, c)
    requires Spares(l, vs, v) && (!Marks(l, v.path) ==> !InTheWay(l, n, vs, v))
    ensures Described(l, n, vs + [v], Put(l, c, v))
  {
    hide Sound, Hollow, Orderly, NamesOk, InodesOk, LinksOk, Repeats, InTheWay, Marks, Linked, Bring, New, Spares;
    NamesStep(l, n, vs, c, v);
    RootOnlyFirst(l, vs, v);
    if vs == [] {
      NoLinks(l, c);
      RootNoMarker(l, v);
      RootStep(l, n, v);
      assert [] + [v] == [v];
    } else if Marks(l, v.path) {
      MarkNonRoot(l, v.path);
      ErasedLess(c.space, v.path);
      Fewer(l, n, vs, c, v, Put(l, c, v));
    } else {
      RepeatsIs(l, n, vs, c, v);
      BlockedIs(l, n, vs, c, v);
      BringNew(l, n, vs, c, v);
      var x := if Repeats(l, c, v) then c.links[v.to.nid] else Bring(l, c, v);
      PutIs(l, c, v, x);
      MoreInodes(l, n, vs, c, v, x, Put(l, c, v));
      MoreLinks(l, n, vs, c, v, x, Put(l, c, v));
    }
  }

  lemma NoLinks(l: Layer, c: Copying)
    requires LinksOk(l, [], c)
    ensures c.links == map[]
  {
    hide Linked;
    BringsInside(l, []);
    forall d ensures d !in c.links {
    }
  }

  lemma RootNoMarker(l: Layer, v: Visit)
    requires v.path == []
    ensures !Marks(l, v.path)
  {
  }

  lemma MarkNonRoot(l: Layer, p: Path)
    requires Marks(l, p)
    ensures p != [] && IsMarker(p[|p| - 1])
  {
  }

  lemma BringNew(l: Layer, n: Space, vs: seq<Visit>, c: Copying, v: Visit)
    requires InodesOk(l, n, vs, c.space)
    ensures New(l, n, c.space.next + 1, v, Bring(l, c, v)) && Bring(l, c, v).serial == c.space.next
  {
    hide Carries, OneInode;
  }

  lemma PutIs(l: Layer, c: Copying, v: Visit, x: Inode)
    requires [] in c.space.at && !Marks(l, v.path) && v.path != [] && (Repeats(l, c, v) ==> !Blocked(c.space, v.path))
    requires x == if Repeats(l, c, v) then c.links[v.to.nid] else Bring(l, c, v)
    ensures var d := Put(l, c, v); d.space.at == c.space.at[v.path := x] && d.space.next == c.space.next + (if Repeats(l, c, v) then 0 else 1)
    ensures Put(l, c, v).links == if Linked(l, v.to.nid) then c.links[v.to.nid := x] else c.links
  {
    hide Marks, Linked, Alive, Bring;
  }

  lemma UnblockedFront(l: Layer, n: Space, vs: seq<Visit>, k: nat)
    requires Unblocked(l, n, vs) && k <= |vs|
    ensures Unblocked(l, n, vs[..k]) && (Brings(l, vs, k) ==> !InTheWay(l, n, vs[..k], vs[k]))
  {
    hide InTheWay, Marks;
    forall i | Brings(l, vs[..k], i) ensures !InTheWay(l, n, vs[..k][..i], vs[..k][i]) {
      assert Brings(l, vs, i) && vs[..k][..i] == vs[..i];
    }
  }

  lemma FirstUnblocked(l: Layer, n: Space, v: Visit)
    ensures !InTheWay(l, n, [], v)
  {
    BringsInside(l, []);
  }

  /** A merge whose markers come first, and whose further names meet no directory, leaves the overlay's names, each with the inode it should have. */
  lemma {:induction false} MergeMeans(l: Layer, n: Space, vs: seq<Visit>)
    requires Sound(n) && Hollow(l) && Orderly(l.g, vs) && MarkersFirst(l, vs) && Unblocked(l, n, vs)
    ensures Described(l, n, vs, Merged(l, n, vs))
    decreases |vs|
  {
    hide Sound, Hollow, Orderly, MarkersFirst, Unblocked, Described, Put, Spares, InTheWay, Marks;
    RootThere(n);
    if vs == [] {
      Begun(l, n);
    } else {
      var k := |vs| - 1;
      OrderlyFront(l.g, vs, k);
      FirstFront(l, vs, k);
      UnblockedFront(l, n, vs, k);
      MergeMeans(l, n, vs[..k]);
      Spared(l, vs, k);
      assert vs[..k] + [vs[k]] == vs;
      if k == 0 {
        assert vs[..0] == [];
        FirstUnblocked(l, n, vs[0]);
      }
      DescribedStep(l, n, vs[..k], Merged(l, n, vs[..k]), vs[k]);
    }
  }

  // ---- Directories' own order ----

  /** A directory's markers come before the entries of its own they name. */
  predicate KidsInOrder(kids: seq<Kid>) {
    forall x, y :: 0 <= x < y < |kids| && IsMarker(kids[y].name) && !IsMarker(kids[x].name) ==>
      kids[y].name != OPAQUE && kids[y].name[|WHITEOUT|..] != kids[x].name
  }

  /** Markers come first exactly where every directory visited has them so. */
  lemma FirstInFolders(l: Layer, vs: seq<Visit>)
    requires l.merge && Hollow(l) && BreadthFirst(l.g, l.root, vs) && NamedOnce(l.g)
    ensures MarkersFirst(l, vs) <==> forall i :: 0 <= i < |vs| && IsFolder(l.g, vs[i].to.nid) ==> KidsInOrder(l.g[vs[i].to.nid].kids)
  {
    hide BreadthFirst, NamedOnce, MarkersFirst, KidsInOrder, Hollow, FirstTaken;
    if !MarkersFirst(l, vs) {
      WalkOrderly(l.g, l.root, vs);
      var a, b := SomeTaken(l, vs);
      Within(l, vs, a, b);
      SideBySide(l, vs, a, b);
      TakenNonRoot(l, vs, a, b);
      var i, x, y := SameFolder(l.g, l.root, vs, a, b);
      OutOfOrder(l, vs, a, b, i, x, y);
    }
    forall i | 0 <= i < |vs| && IsFolder(l.g, vs[i].to.nid) && !KidsInOrder(l.g[vs[i].to.nid].kids) ensures !MarkersFirst(l, vs) {
      var x, y := Misplaced(l.g[vs[i].to.nid].kids);
      var a, b := SiblingsInOrder(l.g, l.root, vs, i, x, y);
      TakesSibling(l, vs, a, b, i, x, y);
    }
  }

  lemma TakenNonRoot(l: Layer, vs: seq<Visit>, a: nat, b: nat)
    requires Orderly(l.g, vs) && FirstTaken(l, vs, a, b) && vs[a].path != []
    ensures a > 0 && vs[b].path != []
  {
    hide Inside, MarkersFirst, Covers;
  }

  lemma OutOfOrder(l: Layer, vs: seq<Visit>, a: nat, b: nat, i: nat, x: nat, y: nat)
    requires FirstTaken(l, vs, a, b) && x < y && Entered(l.g, vs, a, i, x) && Entered(l.g, vs, b, i, y)
    requires vs[b].path[|vs[b].path| - 1] != OPAQUE ==> vs[a].path == Target(vs[b].path)
    ensures !KidsInOrder(l.g[vs[i].to.nid].kids)
  {
    hide MarkersFirst;
    var kids := l.g[vs[i].to.nid].kids;
    assert vs[a].path[|vs[a].path| - 1] == kids[x].name && vs[b].path[|vs[b].path| - 1] == kids[y].name;
  }

  lemma Misplaced(kids: seq<Kid>) returns (x: nat, y: nat)
    requires !KidsInOrder(kids)
    ensures x < y < |kids| && IsMarker(kids[y].name) && !IsMarker(kids[x].name) && (kids[y].name == OPAQUE || kids[y].name[|WHITEOUT|..] == kids[x].name)
  {
    x, y :| 0 <= x < y < |kids| && IsMarker(kids[y].name) && !IsMarker(kids[x].name)
      && (kids[y].name == OPAQUE || kids[y].name[|WHITEOUT|..] == kids[x].name);
  }

  lemma TakesSibling(l: Layer, vs: seq<Visit>, a: nat, b: nat, i: nat, x: nat, y: nat)
    requires l.merge && a < b && Entered(l.g, vs, a, i, x) && Entered(l.g, vs, b, i, y)
    requires var kids := l.g[vs[i].to.nid].kids;
             IsMarker(kids[y].name) && !IsMarker(kids[x].name) && (kids[y].name == OPAQUE || kids[y].name[|WHITEOUT|..] == kids[x].name)
    ensures !MarkersFirst(l, vs)
  {
    hide IsMarker;
    var kids, p, m := l.g[vs[i].to.nid].kids, vs[a].path, vs[b].path;
    assert p[|p| - 1] == kids[x].name && m[|m| - 1] == kids[y].name;
    assert Dir(p) == vs[i].path && Dir(m) == vs[i].path;
    assert Covers(m, p);
  }

  /** ".a", which sorts before every marker. */
  const DOT_A: Name := [0x2E, 0x61]

  /** An opaque directory with an entry of its own, in name order. */
  const OWN: Layer := Layer(map[0 := Folder([Kid(DOT_A, Ref(1, 1)), Kid(OPAQUE, Ref(2, 1))]), 1 := Leaf(1), 2 := Leaf(1)], 0, (nid: nat) => IMPLICIT, {}, true)

  const OWN_VISITS: seq<Visit> := [Top(0), Visit([DOT_A], Ref(1, 1)), Visit([OPAQUE], Ref(2, 1))]

  lemma OwnSpawns()
    ensures Spawns(OWN.g, OWN_VISITS[0]) == OWN_VISITS[1..] && Spawns(OWN.g, OWN_VISITS[1]) == [] && Spawns(OWN.g, OWN_VISITS[2]) == []
  {
    SpawnIs(OWN.g, OWN_VISITS[0], 0);
    SpawnIs(OWN.g, OWN_VISITS[0], 1);
    assert [] + [DOT_A] == [DOT_A] && [] + [OPAQUE] == [OPAQUE];
  }

  lemma OwnWalk()
    ensures BreadthFirst(OWN.g, 0, OWN_VISITS)
  {
    hide Spawns;
    OwnSpawns();
    var g, vs := OWN.g, OWN_VISITS;
    assert vs[..0] == [] && vs[..1] == vs[..0] + [vs[0]] && vs[..2] == vs[..1] + [vs[1]] && vs == vs[..2] + [vs[2]];
    SpawnedLast(g, vs[..0], vs[0]);
    SpawnedLast(g, vs[..1], vs[1]);
    SpawnedLast(g, vs[..2], vs[2]);
  }

  lemma OwnShape()
    ensures NamedOnce(OWN.g) && Hollow(OWN)
  {
    hide IsMarker;
    assert DOT_A != OPAQUE;
  }

  /** An opaque marker takes an entry its own layer has, where that sorts before it. */
  lemma OwnEntryLost(n: Space)
    requires Sound(n)
    ensures BreadthFirst(OWN.g, 0, OWN_VISITS) && Less(DOT_A, OPAQUE)
    ensures Carries(OWN, OWN_VISITS, [DOT_A]) && [] in n.at && [DOT_A] !in Merged(OWN, n, OWN_VISITS).space.at
  {
    hide BreadthFirst, Sound, Merged, Hollow, NamedOnce, Orderly;
    OwnWalk();
    OwnShape();
    WalkOrderly(OWN.g, 0, OWN_VISITS);
    RootThere(n);
    var vs := OWN_VISITS;
    assert !Marks(OWN, vs[0].path) && !Marks(OWN, vs[1].path);
    assert OPAQUE[..4] == WHITEOUT;
    assert Marks(OWN, vs[2].path);
    assert Covers(vs[2].path, vs[1].path) by { assert Dir(vs[2].path) == []; }
    assert FirstTaken(OWN, vs, 1, 2);
    TakenLost(OWN, n, vs, 1, 2);
  }
}
