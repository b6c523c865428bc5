/** The copy's walk over a source image's directories, whatever graph its dirents make (mkfs_image.go: copyFromImage, parseDirBlock). */
module CopyWalk {
  import opened Bytes
  import opened Names
  import opened Namespace

  const FILE_TYPE_DIR: nat := 2

  /** What a dirent says of its inode: where it is, and its file type. */
  datatype Ref = Ref(nid: nat, ftype: nat)

  datatype Kid = Kid(name: Name, to: Ref)

  /** An inode as the walk sees it: a directory and its entries bar the dot ones, anything else by its file type, or one that does not decode. */
  datatype Node = Folder(kids: seq<Kid>) | Leaf(ftype: LeafType) | Bad

  type LeafType = t: nat | t != FILE_TYPE_DIR witness 1

  /** The inodes by address; an address outside the image is not there. */
  type Graph = map<nat, Node>

  datatype Visit = Visit(path: Path, to: Ref)

  /** The root's queue entry: no dirent names it. */
  function Top(root: nat): Visit {
    Visit([], Ref(root, 0))
  }

  /** modeToFileType. */
  function TypeOf(n: Node): nat {
    match n
    case Folder(_) => FILE_TYPE_DIR
    case Leaf(t) => t
    case Bad => 0
  }

  predicate IsFolder(g: Graph, nid: nat) {
    nid in g && g[nid].Folder?
  }

  /** checkPathLen. */
  predicate PathFits(p: Path) {
    |Join(p)| <= MAX_PATH
  }

  /** Some entry of folder d has this name and leads there. */
  predicate Lists(g: Graph, d: nat, name: Name, to: Ref) {
    IsFolder(g, d) && exists j :: 0 <= j < |g[d].kids| && g[d].kids[j] == Kid(name, to)
  }

  /** Plain lookups along path lead from root to an inode, by the last entry's reference to it. */
  ghost predicate Reaches(g: Graph, root: nat, p: Path, to: Ref)
    decreases |p|
  {
    if p == [] then to == Top(root).to
    else exists d :: Reaches(g, root, Dir(p), d) && Lists(g, d.nid, p[|p| - 1], to)
  }

  /** Some path leads to nid. */
  ghost predicate Reached(g: Graph, root: nat, nid: nat) {
    exists p, to :: Reaches(g, root, p, to) && to.nid == nid
  }

  /** An inode that is there, decodes and is of the type said of it; the root, which has no entry, a directory. */
  predicate Decodes(g: Graph, v: Visit) {
    v.to.nid in g && !g[v.to.nid].Bad? && TypeOf(g[v.to.nid]) == if v.path == [] then FILE_TYPE_DIR else v.to.ftype
  }

  /** What is reachable is usable, under a path that fits. */
  ghost predicate Usable(g: Graph, root: nat) {
    forall p, to :: Reaches(g, root, p, to) ==> Decodes(g, Visit(p, to)) && (p == [] || PathFits(p))
  }

  /** u and w are reachable directories whose entries j and k are one directory. */
  ghost predicate BothList(g: Graph, root: nat, u: nat, j: nat, w: nat, k: nat) {
    && IsFolder(g, u) && IsFolder(g, w) && Reached(g, root, u) && Reached(g, root, w)
    && j < |g[u].kids| && k < |g[w].kids| && g[u].kids[j].to.nid == g[w].kids[k].to.nid && IsFolder(g, g[u].kids[j].to.nid)
  }

  /** Every reachable directory is listed by one entry of one directory, and the root by none. */
  ghost predicate ListedOnce(g: Graph, root: nat) {
    && (forall u: nat, j: nat, w: nat, k: nat :: BothList(g, root, u, j, w, k) ==> u == w && j == k)
    && (forall u: nat, j: nat :: BothList(g, root, u, j, u, j) ==> g[u].kids[j].to.nid != root)
  }

  ghost predicate IsTree(g: Graph, root: nat) {
    IsFolder(g, root) && Usable(g, root) && ListedOnce(g, root)
  }

  lemma RootIsFolder(g: Graph, root: nat)
    requires Usable(g, root)
    ensures IsFolder(g, root)
  {
    assert Reaches(g, root, [], Top(root).to);
  }

  // ---- Invariant ----

  /** Where the walk stands: what it has visited, what it has queued, and which directories it has expanded. */
  datatype State = State(done: seq<Visit>, queue: seq<Visit>, expanded: set<nat>)

  /** The queue entries for a directory's first n kids. */
  function Children(p: Path, kids: seq<Kid>, n: nat): (vs: seq<Visit>)
    requires n <= |kids|
    ensures |vs| == n && forall j :: 0 <= j < n ==> vs[j] == Visit(p + [kids[j].name], kids[j].to)
  {
    seq(n, j requires 0 <= j < n => Visit(p + [kids[j].name], kids[j].to))
  }

  /** What a visit queues. */
  function Spawns(g: Graph, v: Visit): seq<Visit> {
    if IsFolder(g, v.to.nid) then Children(v.path, g[v.to.nid].kids, |g[v.to.nid].kids|) else []
  }

  /** What the visits so far have queued, in order. */
  function Spawned(g: Graph, done: seq<Visit>): seq<Visit> {
    if done == [] then [] else Spawned(g, done[..|done| - 1]) + Spawns(g, done[|done| - 1])
  }

  /** Every visit was queued in its turn: the root, then what each visit spawned. */
  predicate InTurn(g: Graph, root: nat, s: State) {
    s.done + s.queue == [Top(root)] + Spawned(g, s.done)
  }

  /** Every visit and every queue entry is reachable. */
  ghost predicate AllReached(g: Graph, root: nat, s: State) {
    && (forall i :: 0 <= i < |s.done| ==> Reaches(g, root, s.done[i].path, s.done[i].to))
    && (forall i :: 0 <= i < |s.queue| ==> Reaches(g, root, s.queue[i].path, s.queue[i].to))
  }

  predicate GoodVisit(g: Graph, v: Visit) {
    Decodes(g, v) && (v.path == [] || PathFits(v.path))
  }

  /** The expanded addresses are those of the folders visited, each visited once. */
  predicate Once(g: Graph, s: State) {
    && (forall i :: 0 <= i < |s.done| ==> GoodVisit(g, s.done[i]) && (IsFolder(g, s.done[i].to.nid) ==> s.done[i].to.nid in s.expanded))
    && (forall i :: 0 <= i < |s.queue| ==> s.queue[i].path == [] || PathFits(s.queue[i].path))
    && (forall d :: d in s.expanded ==> exists i :: 0 <= i < |s.done| && s.done[i].to.nid == d && IsFolder(g, d))
    && (forall i, j :: 0 <= i < j < |s.done| && IsFolder(g, s.done[i].to.nid) ==> s.done[i].to.nid != s.done[j].to.nid)
  }

  /** No visit was queued by itself or a later one. */
  predicate Fed(g: Graph, done: seq<Visit>) {
    forall i :: 0 <= i < |done| ==> i <= |Spawned(g, done[..i])|
  }

  ghost predicate Walked(g: Graph, root: nat, s: State) {
    InTurn(g, root, s) && AllReached(g, root, s) && Once(g, s) && Fed(g, s.done)
  }

  /** All visits of a walk that has ended, breadth first: the root, then what each visit queues in its turn. */
  predicate BreadthFirst(g: Graph, root: nat, vs: seq<Visit>) {
    vs == [Top(root)] + Spawned(g, vs) && Fed(g, vs)
  }

  // ---- Steps ----

  /** The state after visiting the head of the queue. */
  function Visited(g: Graph, s: State): State
    requires s.queue != []
  {
    var cur := s.queue[0];
    State(s.done + [cur], s.queue[1..] + Spawns(g, cur), s.expanded + if IsFolder(g, cur.to.nid) then {cur.to.nid} else {})
  }

  lemma Begin(g: Graph, root: nat)
    ensures Walked(g, root, State([], [Top(root)], {}))
  {
  }

  lemma TurnStep(g: Graph, root: nat, s: State)
    requires s.queue != [] && InTurn(g, root, s)
    ensures InTurn(g, root, Visited(g, s))
  {
    hide Spawns, Spawned;
    SpawnedLast(g, s.done, s.queue[0]);
    Regrouped(s.done, s.queue, Spawns(g, s.queue[0]));
    Joined([Top(root)], Spawned(g, s.done), Spawns(g, s.queue[0]));
  }

  lemma SpawnedLast(g: Graph, done: seq<Visit>, v: Visit)
    ensures Spawned(g, done + [v]) == Spawned(g, done) + Spawns(g, v)
  {
    hide Spawns;
    assert (done + [v])[..|done|] == done;
  }

  lemma Regrouped(done: seq<Visit>, queue: seq<Visit>, more: seq<Visit>)
    requires queue != []
    ensures done + [queue[0]] + (queue[1..] + more) == done + queue + more
  {
  }

  lemma Joined(a: seq<Visit>, b: seq<Visit>, c: seq<Visit>)
    ensures a + b + c == a + (b + c)
  {
  }

  lemma FedStep(g: Graph, root: nat, s: State)
    requires s.queue != [] && InTurn(g, root, s) && Fed(g, s.done)
    ensures Fed(g, Visited(g, s).done)
  {
    hide Spawns, Spawned;
    var t := Visited(g, s);
    assert |s.done + s.queue| == |[Top(root)] + Spawned(g, s.done)|;
    forall i | 0 <= i < |t.done| ensures i <= |Spawned(g, t.done[..i])| {
      assert t.done[..i] == s.done[..i];
      assert i == |s.done| ==> s.done[..i] == s.done;
    }
  }

  lemma ChildReached(g: Graph, root: nat, v: Visit, j: nat)
    requires Reaches(g, root, v.path, v.to) && IsFolder(g, v.to.nid) && j < |g[v.to.nid].kids|
    ensures Reaches(g, root, v.path + [g[v.to.nid].kids[j].name], g[v.to.nid].kids[j].to)
  {
    var k := g[v.to.nid].kids[j];
    var p := v.path + [k.name];
    assert Dir(p) == v.path;
    assert g[v.to.nid].kids[j] == Kid(k.name, k.to);
    assert Lists(g, v.to.nid, k.name, k.to);
  }

  lemma ReachedStep(g: Graph, root: nat, s: State)
    requires s.queue != [] && AllReached(g, root, s)
    ensures AllReached(g, root, Visited(g, s))
  {
    hide Reaches;
    var cur, t := s.queue[0], Visited(g, s);
    forall i | 0 <= i < |t.queue| ensures Reaches(g, root, t.queue[i].path, t.queue[i].to) {
      var n := |s.queue| - 1;
      if i < n {
        assert t.queue[i] == s.queue[i + 1];
      } else {
        ChildReached(g, root, cur, i - n);
      }
    }
  }

  predicate ChildrenFit(p: Path, kids: seq<Kid>) {
    forall j :: 0 <= j < |kids| ==> PathFits(p + [kids[j].name])
  }

  lemma OnceStep(g: Graph, s: State)
    requires s.queue != [] && Once(g, s) && Decodes(g, s.queue[0])
    requires IsFolder(g, s.queue[0].to.nid) ==> s.queue[0].to.nid !in s.expanded && ChildrenFit(s.queue[0].path, g[s.queue[0].to.nid].kids)
    ensures Once(g, Visited(g, s))
  {
    hide PathFits;
    var cur, t := s.queue[0], Visited(g, s);
    var n := |s.done|;
    forall i | 0 <= i < |t.done| ensures GoodVisit(g, t.done[i]) && (IsFolder(g, t.done[i].to.nid) ==> t.done[i].to.nid in t.expanded) {
      assert t.done[i] == if i < n then s.done[i] else cur;
    }
    forall i | 0 <= i < |t.queue| ensures t.queue[i].path == [] || PathFits(t.queue[i].path) {
      var m := |s.queue| - 1;
      assert i < m ==> t.queue[i] == s.queue[i + 1];
    }
    forall d | d in t.expanded ensures exists i :: 0 <= i < |t.done| && t.done[i].to.nid == d && IsFolder(g, d) {
      if d in s.expanded {
        var i :| 0 <= i < n && s.done[i].to.nid == d && IsFolder(g, d);
        assert t.done[i] == s.done[i];
      } else {
        assert t.done[n].to.nid == d;
      }
    }
    forall i, j | 0 <= i < j < |t.done| && IsFolder(g, t.done[i].to.nid) ensures t.done[i].to.nid != t.done[j].to.nid {
      assert t.done[i] == s.done[i];
      assert j < n ==> t.done[j] == s.done[j];
    }
  }

  lemma VisitStep(g: Graph, root: nat, s: State)
    requires Walked(g, root, s) && s.queue != [] && Decodes(g, s.queue[0])
    requires IsFolder(g, s.queue[0].to.nid) ==> s.queue[0].to.nid !in s.expanded && ChildrenFit(s.queue[0].path, g[s.queue[0].to.nid].kids)
    ensures Walked(g, root, Visited(g, s))
  {
    hide InTurn, AllReached, Once, Visited, ChildrenFit, Fed;
    TurnStep(g, root, s);
    FedStep(g, root, s);
    ReachedStep(g, root, s);
    OnceStep(g, s);
  }

  // ---- Where entries come from ----

  lemma {:induction false} SpawnedPrefix(g: Graph, done: seq<Visit>, i: nat)
    requires i < |done|
    ensures Spawned(g, done[..i]) + Spawns(g, done[i]) <= Spawned(g, done)
    decreases |done|
  {
    hide Spawns;
    var n := |done| - 1;
    if i < n {
      SpawnedPrefix(g, done[..n], i);
      assert done[..n][..i] == done[..i];
    }
  }

  /** The k-th entry spawned is entry j of visit i. */
  predicate From(g: Graph, done: seq<Visit>, k: nat, i: nat, j: nat) {
    i < |done| && j < |Spawns(g, done[i])| && k == |Spawned(g, done[..i])| + j
  }

  lemma {:induction false} HasOrigin(g: Graph, done: seq<Visit>, k: nat)
    requires k < |Spawned(g, done)|
    ensures exists i: nat, j: nat :: From(g, done, k, i, j)
    decreases |done|
  {
    hide Spawns;
    var n := |done| - 1;
    if k < |Spawned(g, done[..n])| {
      HasOrigin(g, done[..n], k);
      var i: nat, j: nat :| From(g, done[..n], k, i, j);
      assert done[..n][..i] == done[..i];
      assert From(g, done, k, i, j);
    } else {
      assert From(g, done, k, n, k - |Spawned(g, done[..n])|);
    }
  }

  /** An entry's place among those spawned, and what it is. */
  lemma OriginIs(g: Graph, done: seq<Visit>, k: nat, i: nat, j: nat)
    requires From(g, done, k, i, j)
    ensures k < |Spawned(g, done)| && Spawned(g, done)[k] == Spawns(g, done[i])[j]
    ensures IsFolder(g, done[i].to.nid) && j < |g[done[i].to.nid].kids| && Spawned(g, done)[k].to == g[done[i].to.nid].kids[j].to
  {
    SpawnedPrefix(g, done, i);
    var front := Spawned(g, done[..i]);
    assert (front + Spawns(g, done[i]))[k] == Spawns(g, done[i])[j];
  }

  /** Two entries for one directory break the tree. */
  lemma TwoEntries(g: Graph, root: nat, s: State, a: nat, b: nat)
    requires Walked(g, root, s) && a < b < |s.done + s.queue|
    requires (s.done + s.queue)[a].to.nid == (s.done + s.queue)[b].to.nid && IsFolder(g, (s.done + s.queue)[a].to.nid)
    ensures !ListedOnce(g, root)
  {
    hide Reaches, Spawned, Spawns, From;
    var all := s.done + s.queue;
    HasOrigin(g, s.done, b - 1);
    var i: nat, j: nat :| From(g, s.done, b - 1, i, j);
    OriginIs(g, s.done, b - 1, i, j);
    FromVisit(g, s.done, b - 1, i, j);
    var u := s.done[i].to.nid;
    assert all[b] == Spawned(g, s.done)[b - 1];
    assert Reached(g, root, u);
    if a == 0 {
      assert all[0] == Top(root);
      assert BothList(g, root, u, j, u, j);
    } else {
      HasOrigin(g, s.done, a - 1);
      var x: nat, y: nat :| From(g, s.done, a - 1, x, y);
      OriginIs(g, s.done, a - 1, x, y);
      FromVisit(g, s.done, a - 1, x, y);
      var w := s.done[x].to.nid;
      assert all[a] == Spawned(g, s.done)[a - 1];
      assert Reached(g, root, w);
      assert BothList(g, root, w, y, u, j);
      SameOrigin(g, s.done, a - 1, b - 1, x, y, i, j);
    }
  }

  lemma FromVisit(g: Graph, done: seq<Visit>, k: nat, i: nat, j: nat)
    requires From(g, done, k, i, j)
    ensures i < |done|
  {
  }

  lemma SameOrigin(g: Graph, done: seq<Visit>, a: nat, b: nat, x: nat, y: nat, i: nat, j: nat)
    requires From(g, done, a, x, y) && From(g, done, b, i, j) && a != b
    ensures x != i || y != j
  {
  }

  // ---- Refusals ----

  lemma Unusable(g: Graph, root: nat, s: State)
    requires Walked(g, root, s) && s.queue != [] && !Decodes(g, s.queue[0])
    ensures !Usable(g, root)
  {
    hide Reaches, InTurn, Once, PathFits;
    assert Reaches(g, root, s.queue[0].path, s.queue[0].to);
  }

  lemma ReachedTwice(g: Graph, root: nat, s: State)
    requires Walked(g, root, s) && s.queue != [] && IsFolder(g, s.queue[0].to.nid) && s.queue[0].to.nid in s.expanded
    ensures !ListedOnce(g, root)
  {
    hide InTurn, AllReached, ListedOnce;
    var i :| 0 <= i < |s.done| && s.done[i].to.nid == s.queue[0].to.nid;
    assert (s.done + s.queue)[i] == s.done[i] && (s.done + s.queue)[|s.done|] == s.queue[0];
    TwoEntries(g, root, s, i, |s.done|);
  }

  lemma TooLong(g: Graph, root: nat, s: State, j: nat)
    requires Walked(g, root, s) && s.queue != [] && IsFolder(g, s.queue[0].to.nid) && j < |g[s.queue[0].to.nid].kids|
    requires !PathFits(s.queue[0].path + [g[s.queue[0].to.nid].kids[j].name])
    ensures !Usable(g, root)
  {
    hide Reaches, InTurn, Once, PathFits;
    ChildReached(g, root, s.queue[0], j);
  }

  // ---- The end ----

  /** With nothing queued, a visit's entries have been visited, each at its own place. */
  lemma ChildVisited(g: Graph, root: nat, s: State, i: nat, j: nat)
    requires Walked(g, root, s) && s.queue == [] && i < |s.done| && IsFolder(g, s.done[i].to.nid) && j < |g[s.done[i].to.nid].kids|
    ensures var k := 1 + |Spawned(g, s.done[..i])| + j; k < |s.done| && s.done[k] == Spawns(g, s.done[i])[j]
  {
    hide Spawned, AllReached, Once;
    var k := |Spawned(g, s.done[..i])| + j;
    assert From(g, s.done, k, i, j);
    OriginIs(g, s.done, k, i, j);
    assert s.done + s.queue == s.done;
  }

  /** With nothing queued, everything reachable has been visited. */
  lemma {:induction false} AllVisited(g: Graph, root: nat, s: State, p: Path, to: Ref) returns (i: nat)
    requires Walked(g, root, s) && s.queue == [] && Reaches(g, root, p, to)
    ensures i < |s.done| && s.done[i] == Visit(p, to)
    decreases |p|
  {
    hide Spawned, Once, AllReached, InTurn, Spawns;
    if p == [] {
      RootFirst(g, root, s);
      i := 0;
    } else {
      var d :| Reaches(g, root, Dir(p), d) && Lists(g, d.nid, p[|p| - 1], to);
      var up := AllVisited(g, root, s, Dir(p), d);
      var j :| 0 <= j < |g[d.nid].kids| && g[d.nid].kids[j] == Kid(p[|p| - 1], to);
      ChildVisited(g, root, s, up, j);
      i := 1 + |Spawned(g, s.done[..up])| + j;
      SpawnIs(g, s.done[up], j);
      assert Dir(p) + [p[|p| - 1]] == p;
    }
  }

  lemma EndUsable(g: Graph, root: nat, s: State)
    requires Walked(g, root, s) && s.queue == []
    ensures Usable(g, root)
    ensures forall p, to :: Visit(p, to) in s.done <==> Reaches(g, root, p, to)
  {
    hide Reaches, InTurn, PathFits, Decodes;
    forall p, to | Reaches(g, root, p, to) ensures Visit(p, to) in s.done && GoodVisit(g, Visit(p, to)) {
      var i := AllVisited(g, root, s, p, to);
    }
  }

  lemma EndListed(g: Graph, root: nat, s: State)
    requires Walked(g, root, s) && s.queue == []
    ensures ListedOnce(g, root)
  {
    hide Reaches, InTurn, AllReached, Spawned;
    forall u: nat, j: nat, w: nat, k: nat | BothList(g, root, u, j, w, k) ensures u == w && j == k {
      OneEntry(g, root, s, u, j, w, k);
    }
    forall u: nat, j: nat | BothList(g, root, u, j, u, j) ensures g[u].kids[j].to.nid != root {
      var p, to :| Reaches(g, root, p, to) && to.nid == u;
      var i := AllVisited(g, root, s, p, to);
      ChildVisited(g, root, s, i, j);
      RootFirst(g, root, s);
    }
  }

  lemma RootFirst(g: Graph, root: nat, s: State)
    requires InTurn(g, root, s) && s.queue == []
    ensures |s.done| > 0 && s.done[0] == Top(root)
  {
    assert s.done + s.queue == s.done;
  }

  lemma OneEntry(g: Graph, root: nat, s: State, u: nat, j: nat, w: nat, k: nat)
    requires Walked(g, root, s) && s.queue == [] && BothList(g, root, u, j, w, k)
    ensures u == w && j == k
  {
    hide Reaches, InTurn, AllReached, Spawned, Spawns;
    var p, x :| Reaches(g, root, p, x) && x.nid == u;
    var q, y :| Reaches(g, root, q, y) && y.nid == w;
    var a := AllVisited(g, root, s, p, x);
    var b := AllVisited(g, root, s, q, y);
    ChildVisited(g, root, s, a, j);
    ChildVisited(g, root, s, b, k);
    SpawnIs(g, s.done[a], j);
    SpawnIs(g, s.done[b], k);
    assert 1 + |Spawned(g, s.done[..a])| + j == 1 + |Spawned(g, s.done[..b])| + k;
    SpawnedApart(g, s.done, a, j, b, k);
  }

  lemma SpawnIs(g: Graph, v: Visit, j: nat)
    requires IsFolder(g, v.to.nid) && j < |g[v.to.nid].kids|
    ensures j < |Spawns(g, v)| && Spawns(g, v)[j] == Visit(v.path + [g[v.to.nid].kids[j].name], g[v.to.nid].kids[j].to)
  {
  }

  lemma Ahead(g: Graph, done: seq<Visit>, a: nat, b: nat)
    requires a < b < |done|
    ensures |Spawned(g, done[..a])| + |Spawns(g, done[a])| <= |Spawned(g, done[..b])|
  {
    hide Spawns, Spawned;
    SpawnedPrefix(g, done[..b], a);
    assert done[..b][..a] == done[..a];
  }

  /** One place, one origin. */
  lemma SpawnedApart(g: Graph, done: seq<Visit>, a: nat, j: nat, b: nat, k: nat)
    requires a < |done| && b < |done| && j < |Spawns(g, done[a])| && k < |Spawns(g, done[b])|
    requires |Spawned(g, done[..a])| + j == |Spawned(g, done[..b])| + k
    ensures a == b && j == k
  {
    hide Spawns, Spawned;
    if a < b {
      Ahead(g, done, a, b);
    } else if b < a {
      Ahead(g, done, b, a);
    }
  }

  /** The entry a path's last step is. */
  lemma LastStep(g: Graph, root: nat, p: Path, d: Ref) returns (u: Ref, j: nat)
    requires p != [] && Reaches(g, root, p, d) && IsFolder(g, d.nid)
    ensures Reaches(g, root, Dir(p), u) && BothList(g, root, u.nid, j, u.nid, j)
    ensures IsFolder(g, u.nid) && j < |g[u.nid].kids| && g[u.nid].kids[j] == Kid(p[|p| - 1], d)
  {
    u :| Reaches(g, root, Dir(p), u) && Lists(g, u.nid, p[|p| - 1], d);
    j :| 0 <= j < |g[u.nid].kids| && g[u.nid].kids[j] == Kid(p[|p| - 1], d);
    assert Reached(g, root, u.nid);
  }

  lemma RootUnlisted(g: Graph, root: nat, p: Path, d: Ref)
    requires ListedOnce(g, root) && p != [] && Reaches(g, root, p, d) && IsFolder(g, d.nid)
    ensures d.nid != root
  {
    hide Reaches;
    var u, j := LastStep(g, root, p, d);
  }

  lemma OneLister(g: Graph, root: nat, u: nat, j: nat, w: nat, k: nat)
    requires ListedOnce(g, root) && BothList(g, root, u, j, u, j) && BothList(g, root, w, k, w, k) && g[u].kids[j].to.nid == g[w].kids[k].to.nid
    ensures u == w && j == k
  {
    hide Reached;
    assert BothList(g, root, u, j, w, k);
  }

  lemma SamePath(p: Path, q: Path)
    requires p != [] && q != [] && Dir(p) == Dir(q) && p[|p| - 1] == q[|q| - 1]
    ensures p == q
  {
    assert p == Dir(p) + [p[|p| - 1]] && q == Dir(q) + [q[|q| - 1]];
  }

  lemma EmptyIsRoot(g: Graph, root: nat, d: Ref)
    ensures Reaches(g, root, [], d) <==> d == Top(root).to
  {
  }

  /** A tree's directories have one path each. */
  lemma {:induction false} OnePath(g: Graph, root: nat, p: Path, q: Path, d: Ref, e: Ref)
    requires ListedOnce(g, root) && Reaches(g, root, p, d) && Reaches(g, root, q, e) && d.nid == e.nid && IsFolder(g, d.nid)
    ensures p == q
    decreases |p|
  {
    hide Reaches, BothList, ListedOnce;
    EmptyIsRoot(g, root, d);
    EmptyIsRoot(g, root, e);
    if p == [] && q == [] {
    } else if p != [] && q != [] {
      var u, j := LastStep(g, root, p, d);
      var w, k := LastStep(g, root, q, e);
      OneLister(g, root, u.nid, j, w.nid, k);
      OnePath(g, root, Dir(p), Dir(q), u, w);
      SamePath(p, q);
    } else if p != [] {
      RootUnlisted(g, root, p, d);
    } else {
      RootUnlisted(g, root, q, e);
    }
  }

  // ---- The walk ----

  /** A directory's entries for the queue, unless one's path is too long. */
  method QueueChildren(p: Path, kids: seq<Kid>) returns (r: Result<seq<Visit>>)
    ensures r.Ok? <==> ChildrenFit(p, kids)
    ensures r.Ok? ==> r.value == Children(p, kids, |kids|)
  {
    hide PathFits;
    var out: seq<Visit> := [];
    for j := 0 to |kids|
      invariant out == Children(p, kids, j) && forall i :: 0 <= i < j ==> PathFits(p + [kids[i].name])
    {
      if !PathFits(p + [kids[j].name]) {
        return Err(Invalid);
      }
      out := out + [Visit(p + [kids[j].name], kids[j].to)];
    }
    return Ok(out);
  }

  lemma LessToExpand(g: Graph, expanded: set<nat>, d: nat)
    requires d in g && d !in expanded
    ensures |g.Keys - (expanded + {d})| < |g.Keys - expanded|
  {
    assert g.Keys - expanded == (g.Keys - (expanded + {d})) + {d};
  }

  lemma VisitedIs(g: Graph, s: State, more: seq<Visit>)
    requires s.queue != [] && more == Spawns(g, s.queue[0])
    ensures var cur := s.queue[0]; var t := Visited(g, s);
            && (IsFolder(g, cur.to.nid) ==> t == State(s.done + [cur], s.queue[1..] + more, s.expanded + {cur.to.nid}))
            && (!IsFolder(g, cur.to.nid) ==> t == State(s.done + [cur], s.queue[1..], s.expanded))
  {
    assert s.expanded + {} == s.expanded;
  }

  /** copyFromImage's walk: it ends on any graph, visits exactly what plain lookups reach, expands no directory twice, and accepts exactly the trees. */
  method Walk(g: Graph, root: nat) returns (r: Result<seq<Visit>>)
    ensures r.Ok? <==> IsTree(g, root)
    ensures r.Ok? ==> forall p, to :: Visit(p, to) in r.value <==> Reaches(g, root, p, to)
    ensures r.Ok? ==> forall i, j :: 0 <= i < j < |r.value| && IsFolder(g, r.value[i].to.nid) ==> r.value[i].to.nid != r.value[j].to.nid
    ensures r.Ok? ==> BreadthFirst(g, root, r.value)
  {
    hide Walked, BreadthFirst, Usable, ListedOnce, Reaches, Visited, PathFits, Spawns;
    var s := State([], [Top(root)], {});
    Begin(g, root);
    while s.queue != []
      invariant Walked(g, root, s)
      decreases |g.Keys - s.expanded|, |s.queue|
    {
      var cur := s.queue[0];
      if cur.to.nid !in g || g[cur.to.nid].Bad? {
        Unusable(g, root, s);
        return Err(Corrupt);
      }
      if cur.path == [] && TypeOf(g[cur.to.nid]) != FILE_TYPE_DIR {
        Unusable(g, root, s);
        return Err(Corrupt);
      }
      if cur.path != [] && cur.to.ftype != TypeOf(g[cur.to.nid]) {
        Unusable(g, root, s);
        return Err(Corrupt);
      }
      if g[cur.to.nid].Folder? {
        if cur.to.nid in s.expanded {
          ReachedTwice(g, root, s);
          return Err(Corrupt);
        }
        var more := QueueChildren(cur.path, g[cur.to.nid].kids);
        if more.Err? {
          ghost var j :| 0 <= j < |g[cur.to.nid].kids| && !PathFits(cur.path + [g[cur.to.nid].kids[j].name]);
          TooLong(g, root, s, j);
          return Err(more.error);
        }
        VisitStep(g, root, s);
        LessToExpand(g, s.expanded, cur.to.nid);
        SpawnsFolder(g, cur);
        VisitedIs(g, s, more.value);
        s := State(s.done + [cur], s.queue[1..] + more.value, s.expanded + {cur.to.nid});
      } else {
        VisitStep(g, root, s);
        VisitedIs(g, s, Spawns(g, cur));
        s := State(s.done + [cur], s.queue[1..], s.expanded);
      }
    }
    EndUsable(g, root, s);
    EndListed(g, root, s);
    RootIsFolder(g, root);
    FoldersOnce(g, root, s);
    EndOrdered(g, root, s);
    return Ok(s.done);
  }

  lemma EndOrdered(g: Graph, root: nat, s: State)
    requires Walked(g, root, s) && s.queue == []
    ensures BreadthFirst(g, root, s.done)
  {
    hide AllReached, Once, Spawned, Fed;
    assert s.done + s.queue == s.done;
  }

  lemma SpawnsFolder(g: Graph, v: Visit)
    requires IsFolder(g, v.to.nid)
    ensures Spawns(g, v) == Children(v.path, g[v.to.nid].kids, |g[v.to.nid].kids|)
  {
  }

  lemma FoldersOnce(g: Graph, root: nat, s: State)
    requires Walked(g, root, s)
    ensures forall i, j :: 0 <= i < j < |s.done| && IsFolder(g, s.done[i].to.nid) ==> s.done[i].to.nid != s.done[j].to.nid
  {
    hide InTurn, AllReached;
  }
}
