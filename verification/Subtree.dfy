/** What emptying a directory leaves alone (mkfs.go: removeSubtree). */
module Subtrees {
  import opened Bytes
  import opened Names
  import opened Namespace
  import opened Entries

  /** The places stay; names only go. */
  ghost predicate Keeps(t: Tree, u: Tree) {
    && |u.ents| == |t.ents| && u.byPath.Keys <= t.byPath.Keys
    && forall i :: 0 <= i < |t.ents| ==> Stays(t, u, i)
  }

  predicate Stays(t: Tree, u: Tree, i: nat)
    requires i < |t.ents| == |u.ents|
  {
    && u.ents[i].path == t.ents[i].path && u.ents[i].inode.kind == t.ents[i].inode.kind && u.ents[i].parent == t.ents[i].parent
    && (t.ents[i].removed ==> u.ents[i].removed)
    && (IsDir(t, i) ==> u.ents[i].children == t.ents[i].children)
  }

  lemma DropsKeeps(t: Tree, u: Tree, e: nat)
    requires Drops(t, u, e)
    ensures Keeps(t, u)
  {
    forall i | 0 <= i < |t.ents| ensures Stays(t, u, i) {
      assert KeepsPlace(t, u, e, i);
    }
  }

  lemma KeepsTwice(t: Tree, u: Tree, v: Tree)
    requires Keeps(t, u) && Keeps(u, v)
    ensures Keeps(t, v)
  {
    forall i | 0 <= i < |t.ents| ensures Stays(t, v, i) {
      assert Stays(t, u, i) && Stays(u, v, i);
    }
  }

  /** w is v less some of the names below p. */
  ghost predicate Trims(v: Space, w: Space, p: Path) {
    && w.next == v.next
    && (forall q :: q in w.at ==> q in v.at && w.at[q] == v.at[q])
    && (forall q :: q in v.at && !(p < q) ==> q in w.at)
  }

  lemma TrimsTwice(u: Space, v: Space, w: Space, p: Path, c: Path)
    requires Trims(u, v, p) && Trims(v, w, c) && p <= c
    ensures Trims(u, w, p)
  {
  }

  /** Dropping a child's names trims its directory. */
  lemma WithoutTrims(v: Space, gone: set<Path>, p: Path)
    requires forall q :: q in gone ==> p < q
    ensures Trims(v, Without(v, gone), p)
  {
  }

  /** No live entry is below p. */
  predicate Empty(t: Tree, p: Path) {
    forall q :: q in t.byPath ==> !(p < q)
  }

  lemma CloseHanging(t: Tree, open: Open, d: Path, e: nat)
    requires Empty(t, d)
    ensures forall p :: p in t.byPath ==> (Hanging(open[d := e], p) <==> Hanging(open, p))
  {
    hide Hanging;
    forall p | p in t.byPath ensures Hanging(open[d := e], p) <==> Hanging(open, p) {
      HangsMore(open, d, e, p);
    }
  }

  lemma CloseParented(t: Tree, open: Open, d: Path, e: nat)
    requires InRange(t) && Indexed(t) && Parented(t, open[d := e]) && Empty(t, d)
    ensures Parented(t, open)
  {
    forall i | 0 < i < |t.ents| && !t.ents[i].removed ensures HeldBy(t, open, i) {
      assert HeldBy(t, open[d := e], i);
      assert t.ents[i].path in t.byPath;
    }
  }

  lemma CloseOpen(t: Tree, open: Open, d: Path, e: nat)
    requires OpenOk(t, open[d := e]) && d !in open
    ensures OpenOk(t, open)
  {
    forall p | p in open ensures p !in t.byPath && p != [] && open[p] < |t.ents| && t.ents[open[p]].path == p && IsDir(t, open[p]) {
      assert p in open[d := e] && open[d := e][p] == open[p];
    }
  }

  lemma CloseView(t: Tree, open: Open, d: Path, e: nat)
    requires InRange(t) && Indexed(t)
    requires forall p :: p in t.byPath ==> (Hanging(open[d := e], p) <==> Hanging(open, p))
    ensures View(t, open) == View(t, open[d := e])
  {
    hide Hanging, InRange, Indexed, Named;
    assert View(t, open).at == View(t, open[d := e]).at;
  }

  /** Once a directory is empty it need no longer be open. */
  lemma Close(t: Tree, open: Open, d: Path, e: nat)
    requires Inv(t, open[d := e]) && Empty(t, d) && d !in open
    ensures Inv(t, open) && View(t, open) == View(t, open[d := e])
  {
    hide InRange, Indexed, Parented, Listed, Linked, Serials, OpenOk, View, Empty, Hanging;
    CloseHanging(t, open, d, e);
    CloseParented(t, open, d, e);
    CloseOpen(t, open, d, e);
    CloseLinked(t, open, d, e);
    CloseView(t, open, d, e);
  }

  lemma CloseLinked(t: Tree, open: Open, d: Path, e: nat)
    requires InRange(t) && Indexed(t) && Linked(t, open[d := e])
    requires forall p :: p in t.byPath ==> (Hanging(open[d := e], p) <==> Hanging(open, p))
    ensures Linked(t, open)
  {
    hide Hanging;
    forall i | 0 <= i < |t.ents| && !t.ents[i].removed && t.ents[i].linkTo.Some? ensures AliasOk(t, open, i) {
      assert AliasOk(t, open[d := e], i);
      assert t.ents[i].path in t.byPath;
    }
  }

  /** e is a directory being emptied, or a live one, and every open directory is above it. */
  predicate Emptying(t: Tree, open: Open, e: nat) {
    && e < |t.ents| && (Live(t, e) || (t.ents[e].path in open && open[t.ents[e].path] == e))
    && forall o :: o in open ==> o <= t.ents[e].path
  }

  /** A live name below e lies at or below one of e's live children. */
  lemma {:induction false} Reach(t: Tree, open: Open, e: nat, p: Path)
    requires Inv(t, open) && Emptying(t, open, e) && p in t.byPath && t.ents[e].path < p
    ensures exists j :: 0 <= j < |t.ents[e].children| && Live(t, t.ents[e].children[j]) && t.ents[t.ents[e].children[j]].path <= p
    decreases |p|
  {
    hide Listed, Linked, Serials;
    var i := t.byPath[p];
    assert i != ROOT;
    assert HeldBy(t, open, i);
    if |p| > |t.ents[e].path| + 1 {
      Reach(t, open, e, Dir(p));
    } else {
      assert Dir(p) == t.ents[e].path;
    }
  }

  /** Where e has no live child, nothing lives below it. */
  lemma Emptied(t: Tree, open: Open, e: nat)
    requires Inv(t, open) && e < |t.ents| && Emptying(t, open, e) && forall j :: 0 <= j < |t.ents[e].children| ==> !Live(t, t.ents[e].children[j])
    ensures Empty(t, t.ents[e].path)
  {
    hide Inv, Emptying;
    if p :| p in t.byPath && t.ents[e].path < p {
      Reach(t, open, e, p);
    }
  }

  /** Names not below p stay. */
  ghost predicate Spares(t: Tree, u: Tree, p: Path) {
    forall q :: q in t.byPath && !(p < q) ==> q in u.byPath
  }

  /** u is t with some of what lay below p gone, and nothing else. */
  ghost predicate Thinned(t: Tree, u: Tree, open: Open, p: Path) {
    Inv(t, open) && Inv(u, open) && Keeps(t, u) && Spares(t, u, p) && Trims(View(t, open), View(u, open), p)
  }

  lemma ThinnedSelf(t: Tree, open: Open, p: Path)
    requires Inv(t, open)
    ensures Thinned(t, t, open, p)
  {
    hide Inv;
  }

  lemma ThinnedTwice(t: Tree, u: Tree, v: Tree, open: Open, p: Path, c: Path)
    requires Thinned(t, u, open, p) && Thinned(u, v, open, c) && p <= c
    ensures Thinned(t, v, open, p)
  {
    hide InRange, Indexed, Parented, Listed, Linked, Serials, OpenOk, View, Keeps, Trims;
    KeepsTwice(t, u, v);
    TrimsTwice(View(t, open), View(u, open), View(v, open), p, c);
  }

  lemma ChildPath(t: Tree, open: Open, e: nat, c: nat)
    requires Inv(t, open) && e < |t.ents| && c in t.ents[e].children && Live(t, c)
    ensures t.ents[e].path < t.ents[c].path && c != ROOT && |t.ents[c].path| == |t.ents[e].path| + 1
  {
    hide Linked, Serials, OpenOk, Indexed;
    var j :| 0 <= j < |t.ents[e].children| && t.ents[e].children[j] == c;
    assert HeldBy(t, open, c);
  }

  /** A child dropped, not a directory. */
  lemma LeafStep(t: Tree, u: Tree, open: Open, e: nat, c: nat)
    requires Inv(t, open) && e < |t.ents| && c in t.ents[e].children && Live(t, c) && !IsDir(t, c) && Drops(t, u, c) && Inv(u, open)
    requires View(u, open) == Without(View(t, open), Gone(t, open, c))
    ensures Thinned(t, u, open, t.ents[e].path) && !Live(u, c)
  {
    hide InRange, Indexed, Parented, Listed, Linked, Serials, OpenOk, View;
    ChildPath(t, open, e, c);
    DropsKeeps(t, u, c);
    assert KeepsPlace(t, u, c, c);
    WithoutTrims(View(t, open), Gone(t, open, c), t.ents[e].path);
  }

  /** A child dropped with all below it. */
  lemma TreeStep(t: Tree, u: Tree, v: Tree, open: Open, e: nat, c: nat)
    requires Inv(t, open) && Emptying(t, open, e) && e < |t.ents| && c in t.ents[e].children && Live(t, c) && IsDir(t, c) && Drops(t, u, c)
    requires Inv(u, Opened(t, open, c)) && View(u, Opened(t, open, c)) == Without(View(t, open), Gone(t, open, c))
    requires Thinned(u, v, Opened(t, open, c), t.ents[c].path) && Empty(v, t.ents[c].path)
    ensures Thinned(t, v, open, t.ents[e].path) && !Live(v, c)
  {
    hide InRange, Indexed, Parented, Listed, Linked, Serials, OpenOk, View, Trims, Empty;
    ChildPath(t, open, e, c);
    DropsKeeps(t, u, c);
    KeepsTwice(t, u, v);
    assert KeepsPlace(t, u, c, c) && Stays(u, v, c);
    var p, d := t.ents[e].path, t.ents[c].path;
    WithoutTrims(View(t, open), Gone(t, open, c), p);
    TrimsTwice(View(t, open), View(u, Opened(t, open, c)), View(v, Opened(t, open, c)), p, d);
    Close(v, open, d, c);
  }

  lemma StillEmptying(t: Tree, u: Tree, open: Open, e: nat)
    requires e < |t.ents| && Thinned(t, u, open, t.ents[e].path) && Emptying(t, open, e)
    ensures Emptying(u, open, e)
  {
    hide InRange, Parented, Listed, Linked, Serials, OpenOk, View, Trims;
    assert Stays(t, u, e);
    if Live(t, e) {
      var p := t.ents[e].path;
      assert p in u.byPath;
      var i := u.byPath[p];
      assert Stays(t, u, i);
    }
  }

  lemma BelowEmptying(t: Tree, u: Tree, open: Open, e: nat, c: nat)
    requires Inv(t, open) && Emptying(t, open, e) && e < |t.ents| && c in t.ents[e].children && Live(t, c) && IsDir(t, c) && Drops(t, u, c)
    ensures Emptying(u, Opened(t, open, c), c) && t.ents[c].path !in open
  {
    hide InRange, Parented, Listed, Linked, Serials, Indexed, OpenOk, Hanging;
    ChildPath(t, open, e, c);
    assert KeepsPlace(t, u, c, c);
  }

  /** The children listed at the start are listed throughout, as far as they live. */
  lemma KidsStay(t: Tree, u: Tree, open: Open, e: nat, j: nat)
    requires e < |t.ents| && Thinned(t, u, open, t.ents[e].path) && j < |t.ents[e].children|
    ensures var c := t.ents[e].children[j];
            c < |u.ents| && e < |u.ents| && u.ents[e].path == t.ents[e].path && (Live(u, c) ==> c in u.ents[e].children)
  {
    hide Parented, Listed, Linked, Serials, OpenOk, View, Trims, Indexed;
    var c := t.ents[e].children[j];
    assert c < |t.ents|;
    assert Stays(t, u, e) && Stays(t, u, c);
    if Live(u, c) {
      ChildInDir(t, open, e, j);
    }
  }

  /** Every child seen is gone. */
  predicate Seen(u: Tree, kids: seq<nat>, j: nat)
    requires j <= |kids|
  {
    forall k :: 0 <= k < j ==> !Live(u, kids[k])
  }

  lemma SeenMore(u: Tree, v: Tree, open: Open, p: Path, kids: seq<nat>, j: nat)
    requires j < |kids| && Seen(u, kids, j) && Thinned(u, v, open, p) && !Live(v, kids[j])
    ensures Seen(v, kids, j + 1)
  {
    hide Inv, View, Trims;
    forall k | 0 <= k < j ensures !Live(v, kids[k]) {
      if kids[k] < |u.ents| {
        assert Stays(u, v, kids[k]);
      }
    }
  }

  lemma AllSeen(t: Tree, u: Tree, open: Open, e: nat)
    requires e < |t.ents| && Thinned(t, u, open, t.ents[e].path) && Emptying(t, open, e) && Seen(u, t.ents[e].children, |t.ents[e].children|)
    ensures Empty(u, t.ents[e].path)
  {
    hide InRange, Parented, Listed, Linked, Serials, OpenOk, View, Trims, Indexed, Emptying, Empty;
    StillEmptying(t, u, open, e);
    assert Stays(t, u, e);
    forall j | 0 <= j < |u.ents[e].children| ensures !Live(u, u.ents[e].children[j]) {
      if Live(u, u.ents[e].children[j]) {
        ChildInDir(u, open, e, j);
      }
    }
    Emptied(u, open, e);
  }

  lemma FewerNames(t: Tree, u: Tree, open: Open, c: nat)
    requires Inv(t, open) && Live(t, c) && Drops(t, u, c)
    ensures |u.byPath| < |t.byPath|
  {
    hide InRange, Parented, Listed, Linked, Serials, OpenOk;
    assert t.ents[c].path in t.byPath;
    assert u.byPath.Keys == t.byPath.Keys - {t.ents[c].path};
    assert |t.byPath| == |t.byPath.Keys| && |u.byPath| == |u.byPath.Keys|;
  }

  lemma NoMoreNames(t: Tree, u: Tree, open: Open, p: Path)
    requires Thinned(t, u, open, p)
    ensures |u.byPath| <= |t.byPath|
  {
    hide Inv, View, Trims;
    SubsetCount(u.byPath.Keys, t.byPath.Keys);
    assert |t.byPath| == |t.byPath.Keys| && |u.byPath| == |u.byPath.Keys|;
  }

  lemma {:induction false} SubsetCount<T>(a: set<T>, b: set<T>)
    requires a <= b
    ensures |a| <= |b|
  {
    assert b == a + (b - a);
  }

  // ---- What the map loses ----

  lemma TrimsBelow(v: Space, w: Space, p: Path)
    requires Trims(v, w, p) && forall q :: q in w.at ==> !(p < q)
    ensures w == Without(v, Below(v, p))
  {
    assert w.at == v.at - Below(v, p);
  }

  /** removeChildren's result, as the map sees it. */
  lemma EmptiedView(t: Tree, u: Tree, p: Path)
    requires Thinned(t, u, NONE, p) && Empty(u, p)
    ensures View(u, NONE) == Without(View(t, NONE), Below(View(t, NONE), p))
  {
    hide InRange, Indexed, Parented, Listed, Linked, Serials, OpenOk, Trims, Keeps;
    TrimsBelow(View(t, NONE), View(u, NONE), p);
  }

  /** removeTree's result for a directory: dropped, emptied and closed. */
  lemma TreeView(t: Tree, u: Tree, v: Tree, e: nat)
    requires Inv(t, NONE) && Live(t, e) && IsDir(t, e) && Drops(t, u, e) && Inv(u, Opened(t, NONE, e))
    requires View(u, Opened(t, NONE, e)) == Without(View(t, NONE), Gone(t, NONE, e))
    requires Thinned(u, v, Opened(t, NONE, e), t.ents[e].path) && Empty(v, t.ents[e].path)
    ensures Inv(v, NONE) && View(v, NONE) == Without(View(t, NONE), Subtree(View(t, NONE), t.ents[e].path))
  {
    hide InRange, Indexed, Parented, Listed, Linked, Serials, OpenOk, View, Trims, Empty, Keeps;
    var p, open := t.ents[e].path, Opened(t, NONE, e);
    Close(v, NONE, p, e);
    TrimsNothing(View(u, open), View(v, open), p);
  }

  lemma TrimsNothing(v: Space, w: Space, p: Path)
    requires Trims(v, w, p) && forall q :: q in v.at ==> !(p < q)
    ensures w == v
  {
    assert w.at == v.at;
  }

  /** Nothing is named below what is no directory. */
  lemma LeafSubtree(t: Tree, e: nat)
    requires Inv(t, NONE) && Live(t, e) && !IsDir(t, e)
    ensures Subtree(View(t, NONE), t.ents[e].path) == {t.ents[e].path}
  {
    hide InRange, Parented, Listed, Linked, Serials, OpenOk, Hanging;
    var v, p := View(t, NONE), t.ents[e].path;
    assert p in v.at by { assert p in t.byPath && !Hanging(NONE, p) by { assert p in t.byPath; NothingHangs(p); } }
    forall q ensures q in Subtree(v, p) ==> q == p {
      if q in v.at && p < q {
        assert q[..|p|] == p;
        Climb(t, NONE, q, |p|);
      }
    }
  }
}
