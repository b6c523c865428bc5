/** The order the copy's walk visits a tree in: breadth first, a directory's entries together and in its own order (mkfs_image.go: copyFromImage). */
module CopyOrder {
  import opened Bytes
  import opened Names
  import opened Namespace
  import opened CopyWalk

  /** No directory lists a name twice. */
  predicate NamedOnce(g: Graph) {
    forall d, i, j :: d in g && g[d].Folder? && 0 <= i < j < |g[d].kids| ==> g[d].kids[i].name != g[d].kids[j].name
  }

  /** Visit k is entry j of visit i, which came before it. */
  predicate Entered(g: Graph, vs: seq<Visit>, k: nat, i: nat, j: nat) {
    && i < k < |vs| && IsFolder(g, vs[i].to.nid) && j < |g[vs[i].to.nid].kids|
    && vs[k] == Visit(vs[i].path + [g[vs[i].to.nid].kids[j].name], g[vs[i].to.nid].kids[j].to)
  }

  /** Visit k is an entry of a directory visited before it. */
  ghost predicate Inside(g: Graph, vs: seq<Visit>, k: nat) {
    exists i: nat, j: nat :: Entered(g, vs, k, i, j)
  }

  /** Nothing but the root is visited before the directory it is in, nothing deep before anything less deep, and no path twice. */
  ghost predicate Orderly(g: Graph, vs: seq<Visit>) {
    && (vs != [] ==> vs[0].path == [])
    && (forall k :: 0 < k < |vs| ==> Inside(g, vs, k))
    && (forall a, b :: 0 <= a < b < |vs| ==> |vs[a].path| <= |vs[b].path| && vs[a].path != vs[b].path)
  }

  lemma OriginOf(g: Graph, root: nat, vs: seq<Visit>, k: nat) returns (i: nat, j: nat)
    requires BreadthFirst(g, root, vs) && 0 < k < |vs|
    ensures From(g, vs, k - 1, i, j) && Entered(g, vs, k, i, j)
  {
    hide Spawned, Spawns;
    HasOrigin(g, vs, k - 1);
    i, j :| From(g, vs, k - 1, i, j);
    OriginIs(g, vs, k - 1, i, j);
    SpawnIs(g, vs[i], j);
    assert vs[k] == Spawned(g, vs)[k - 1];
  }

  lemma OriginsInOrder(g: Graph, vs: seq<Visit>, a: nat, b: nat, x: nat, y: nat, i: nat, j: nat)
    requires From(g, vs, a, x, y) && From(g, vs, b, i, j) && a < b
    ensures x < i || (x == i && y < j)
  {
    hide Spawned, Spawns;
    if i < x {
      Ahead(g, vs, i, x);
    }
  }

  lemma OneName(p: Path, q: Path, m: Name, n: Name)
    ensures p + [m] == q + [n] ==> p == q && m == n
  {
    assert Dir(p + [m]) == p && Dir(q + [n]) == q && (p + [m])[|p|] == m && (q + [n])[|q|] == n;
  }

  lemma {:induction false} Apart(g: Graph, root: nat, vs: seq<Visit>, a: nat, b: nat)
    requires BreadthFirst(g, root, vs) && NamedOnce(g) && a < b < |vs|
    ensures |vs[a].path| <= |vs[b].path| && vs[a].path != vs[b].path
    decreases b
  {
    hide BreadthFirst, From;
    var i, j := OriginOf(g, root, vs, b);
    if a > 0 {
      var x, y := OriginOf(g, root, vs, a);
      OriginsInOrder(g, vs, a - 1, b - 1, x, y, i, j);
      if x < i {
        Apart(g, root, vs, x, i);
      }
      OneName(vs[x].path, vs[i].path, g[vs[x].to.nid].kids[y].name, g[vs[i].to.nid].kids[j].name);
    } else {
      assert vs[0].path == [] by { RootIsFirst(g, root, vs); }
    }
  }

  lemma RootIsFirst(g: Graph, root: nat, vs: seq<Visit>)
    requires BreadthFirst(g, root, vs)
    ensures |vs| > 0 && vs[0] == Top(root)
  {
    hide Spawned;
  }

  /** The walk is orderly. */
  lemma WalkOrderly(g: Graph, root: nat, vs: seq<Visit>)
    requires BreadthFirst(g, root, vs) && NamedOnce(g)
    ensures Orderly(g, vs)
  {
    hide BreadthFirst, From, NamedOnce;
    RootIsFirst(g, root, vs);
    forall k | 0 < k < |vs| ensures Inside(g, vs, k) {
      var i, j := OriginOf(g, root, vs, k);
    }
    forall a, b | 0 <= a < b < |vs| ensures |vs[a].path| <= |vs[b].path| && vs[a].path != vs[b].path {
      Apart(g, root, vs, a, b);
    }
  }

  /** Entries of one directory are visited in its order, and all of them. */
  lemma SiblingsInOrder(g: Graph, root: nat, vs: seq<Visit>, i: nat, x: nat, y: nat) returns (a: nat, b: nat)
    requires BreadthFirst(g, root, vs) && i < |vs| && IsFolder(g, vs[i].to.nid) && x < y < |g[vs[i].to.nid].kids|
    ensures a < b && Entered(g, vs, a, i, x) && Entered(g, vs, b, i, y)
  {
    hide Spawned, Spawns;
    a, b := 1 + |Spawned(g, vs[..i])| + x, 1 + |Spawned(g, vs[..i])| + y;
    SpawnIs(g, vs[i], x);
    SpawnIs(g, vs[i], y);
    OriginIs(g, vs, a - 1, i, x);
    OriginIs(g, vs, b - 1, i, y);
    assert vs[a] == Spawned(g, vs)[a - 1] && vs[b] == Spawned(g, vs)[b - 1];
  }

  /** Two visits in one directory are two of its entries, in its order. */
  lemma SameFolder(g: Graph, root: nat, vs: seq<Visit>, a: nat, b: nat) returns (i: nat, x: nat, y: nat)
    requires BreadthFirst(g, root, vs) && NamedOnce(g) && 0 < a < b < |vs| && vs[a].path != [] && vs[b].path != [] && Dir(vs[a].path) == Dir(vs[b].path)
    ensures x < y && Entered(g, vs, a, i, x) && Entered(g, vs, b, i, y)
  {
    hide BreadthFirst, From, NamedOnce;
    var u;
    i, x := OriginOf(g, root, vs, a);
    u, y := OriginOf(g, root, vs, b);
    OriginsInOrder(g, vs, a - 1, b - 1, i, x, u, y);
    assert vs[i].path == Dir(vs[a].path) && vs[u].path == Dir(vs[b].path);
    if i < u {
      Apart(g, root, vs, i, u);
    }
  }
}
