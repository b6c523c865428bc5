/** addChild, placeEntry's overwrite and the metadata setters on the tree's values (mkfs.go). */
module Growth {
  import opened Bytes
  import opened Names
  import opened Namespace
  import opened Entries

  // ---- addChild ----

  /** A fresh entry: a new inode, or another name for o's. */
  function Fresh(p: Path, inode: Inode, linkTo: Option<nat>): Entry {
    Entry(p, inode, linkTo, 0, ROOT, [], false)
  }

  /** The entry a child at p is attached to: the one at its directory's path, else the root. */
  function Attach(t: Tree, p: Path): nat
    requires p != []
  {
    if Dir(p) in t.byPath then t.byPath[Dir(p)] else ROOT
  }

  function Appended(s: seq<nat>, more: bool, n: nat): (r: seq<nat>)
    ensures s <= r
  {
    if more then s + [n] else s
  }

  function AddedEntry(t: Tree, x: Entry, i: nat): Entry
    requires x.path != [] && i <= |t.ents|
  {
    if i == |t.ents| then x.(parent := Attach(t, x.path))
    else
      t.ents[i].(children := Appended(t.ents[i].children, i == Attach(t, x.path), |t.ents|),
                 extraLinks := t.ents[i].extraLinks + if x.linkTo == Some(i) then 1 else 0)
  }

  /** x attached, and counted by the inode it names. */
  function Added(t: Tree, x: Entry): (u: Tree)
    requires x.path != []
    ensures |u.ents| == |t.ents| + 1 && u.byPath == t.byPath[x.path := |t.ents|]
    ensures u.next == t.next + if x.linkTo.None? then 1 else 0
    ensures forall i :: 0 <= i <= |t.ents| ==> u.ents[i] == AddedEntry(t, x, i)
  {
    Tree(seq(|t.ents| + 1, i requires 0 <= i <= |t.ents| => AddedEntry(t, x, i)), t.byPath[x.path := |t.ents|],
         t.next + if x.linkTo.None? then 1 else 0)
  }

  /** An entry addChild is given: a new path, and a new inode or the type of the live inode it names. */
  predicate MayAdd(t: Tree, x: Entry) {
    && x.path != [] && x.path !in t.byPath && x == Fresh(x.path, x.inode, x.linkTo)
    && match x.linkTo
       case None => x.inode.serial == t.next
       case Some(o) => Live(t, o) && t.ents[o].linkTo.None? && t.ents[o].inode.kind == x.inode.kind != Directory
  }

  predicate HasHome(t: Tree, p: Path)
    requires p != []
  {
    Dir(p) in t.byPath && IsDir(t, t.byPath[Dir(p)])
  }

  lemma AddedShape(t: Tree, x: Entry)
    requires Inv(t, NONE) && MayAdd(t, x) && HasHome(t, x.path)
    ensures var u := Added(t, x); InRange(u) && Live(u, ROOT) && Indexed(u) && OpenOk(u, NONE)
  {
    hide Linked, Serials, Parented, Listed, Added, Appended, Attach;
    var u := Added(t, x);
    assert u.ents[|t.ents|].children == [];
    assert Attach(t, x.path) < |t.ents| by { AttachHome(t, x.path); }
    forall i | 0 <= i < |t.ents| ensures forall j :: 0 <= j < |u.ents[i].children| ==> ROOT < u.ents[i].children[j] < |u.ents| {
      AppendedRange(t.ents[i].children, i == Attach(t, x.path), |t.ents|);
    }
  }

  lemma AppendedRange(s: seq<nat>, more: bool, n: nat)
    requires 0 < n && forall j :: 0 <= j < |s| ==> 0 < s[j] < n
    ensures forall j :: 0 <= j < |Appended(s, more, n)| ==> 0 < Appended(s, more, n)[j] <= n
  {
  }

  lemma AttachHome(t: Tree, p: Path)
    requires Inv(t, NONE) && p != [] && HasHome(t, p)
    ensures var up := Attach(t, p); up < |t.ents| && t.ents[up].path == Dir(p) && Dir(p) in t.byPath && t.byPath[Dir(p)] == up && IsDir(t, up)
  {
    hide Linked, Serials, Parented, Listed, InRange;
  }

  lemma RangeAt(t: Tree, i: nat)
    requires InRange(t) && 0 < i < |t.ents|
    ensures t.ents[i].path != [] && t.ents[i].parent < |t.ents|
  {
  }

  lemma AddedHeld(t: Tree, u: Tree, x: Entry, i: nat)
    requires Inv(t, NONE) && MayAdd(t, x) && HasHome(t, x.path) && u == Added(t, x) && InRange(u)
    requires 0 < i < |u.ents| && u.ents[i].path != [] && u.ents[i].parent < |u.ents| && !u.ents[i].removed
    ensures HeldBy(u, NONE, i)
  {
    hide Linked, Serials, Listed, Added, OpenOk, InRange, Indexed, Attach, HasHome;
    if i < |t.ents| {
      RangeAt(t, i);
      assert HeldBy(t, NONE, i);
      var up := t.ents[i].parent;
      var j :| 0 <= j < |t.ents[up].children| && t.ents[up].children[j] == i;
      assert u.ents[up].children[j] == i;
    } else {
      AttachHome(t, x.path);
      var up := Attach(t, x.path);
      assert u.ents[i] == AddedEntry(t, x, i) && u.ents[up] == AddedEntry(t, x, up);
      assert u.ents[up].children[|t.ents[up].children|] == i;
      assert Dir(x.path) != x.path;
    }
  }

  lemma AddedListed(t: Tree, x: Entry)
    requires Inv(t, NONE) && MayAdd(t, x) && HasHome(t, x.path) && InRange(Added(t, x))
    ensures Listed(Added(t, x))
  {
    hide Linked, Serials, Parented, Added, OpenOk, Indexed;
    var u, n := Added(t, x), |t.ents|;
    forall d, j | 0 <= d < |u.ents| && 0 <= j < |u.ents[d].children| && Live(u, u.ents[d].children[j])
      ensures u.ents[u.ents[d].children[j]].parent == d
      ensures forall k :: 0 <= k < |u.ents[d].children| && u.ents[d].children[k] == u.ents[d].children[j] ==> k == j
    {
      assert d < n;
      var c := u.ents[d].children[j];
      if j < |t.ents[d].children| {
        assert c == t.ents[d].children[j] < n && Live(t, c);
      }
    }
  }

  lemma AddedAlias(t: Tree, u: Tree, x: Entry, i: nat)
    requires Inv(t, NONE) && MayAdd(t, x) && u == Added(t, x) && InRange(u) && Live(u, i) && u.ents[i].linkTo.Some?
    ensures AliasOk(u, NONE, i)
  {
    hide Serials, Parented, Listed, Indexed, Added, OpenOk, Attach, Appended, Hanging;
    NothingHangs(u.ents[i].path);
    if i < |t.ents| {
      assert AliasOk(t, NONE, i);
    }
  }

  lemma NotYetNamed(t: Tree)
    requires InRange(t)
    ensures Aliases(t, |t.ents|) == {}
  {
  }

  lemma AddedAliases(t: Tree, u: Tree, x: Entry, o: nat)
    requires x.path != [] && u == Added(t, x) && !x.removed
    ensures Aliases(u, o) == Aliases(t, o) + if x.linkTo == Some(o) then {|t.ents|} else {}
  {
    hide Added, Attach, Appended;
    forall i: nat ensures i in Aliases(u, o) <==> i in Aliases(t, o) || (i == |t.ents| && x.linkTo == Some(o)) {
      if i <= |t.ents| {
        assert u.ents[i] == AddedEntry(t, x, i);
      }
    }
  }

  lemma AddedCount(t: Tree, u: Tree, x: Entry, o: nat)
    requires Inv(t, NONE) && MayAdd(t, x) && u == Added(t, x) && o < |u.ents| && !u.ents[o].removed && u.ents[o].linkTo.None?
    ensures u.ents[o].extraLinks == |Aliases(u, o)|
  {
    hide InRange, Serials, Parented, Listed, Indexed, Added, OpenOk, AliasOk, Attach, Appended, Aliases;
    assert u.ents[o] == AddedEntry(t, x, o);
    NotYetNamed(t);
    AddedAliases(t, u, x, o);
    assert |t.ents| !in Aliases(t, o) by { NotAnAlias(t, o); }
  }

  lemma NotAnAlias(t: Tree, o: nat)
    ensures |t.ents| !in Aliases(t, o)
  {
  }

  lemma AddedLinked(t: Tree, x: Entry)
    requires Inv(t, NONE) && MayAdd(t, x) && InRange(Added(t, x))
    ensures Linked(Added(t, x), NONE) && Serials(Added(t, x))
  {
    hide InRange, Parented, Listed, Linked, Indexed, Added, OpenOk, AliasOk, Aliases, Attach, Appended;
    var u := Added(t, x);
    forall i | 0 <= i < |u.ents| && !u.ents[i].removed && u.ents[i].linkTo.Some? ensures AliasOk(u, NONE, i) {
      AddedAlias(t, u, x, i);
    }
    forall o | 0 <= o < |u.ents| && !u.ents[o].removed && u.ents[o].linkTo.None? ensures u.ents[o].extraLinks == |Aliases(u, o)| {
      AddedCount(t, u, x, o);
    }
    LinkedIs(u, NONE);
  }

  lemma AddedKeeps(t: Tree, x: Entry)
    requires Inv(t, NONE) && MayAdd(t, x) && HasHome(t, x.path)
    ensures Inv(Added(t, x), NONE)
  {
    hide InRange, Parented, Listed, Linked, Indexed, Added, OpenOk, Serials, MayAdd, HasHome, HeldBy;
    AddedShape(t, x);
    var u := Added(t, x);
    AddedListed(t, x);
    AddedLinked(t, x);
    assert Parented(u, NONE) by {
      forall i | 0 < i < |u.ents| && !u.ents[i].removed
        ensures u.ents[i].path != [] && u.ents[i].parent < |u.ents| && HeldBy(u, NONE, i)
      {
        RangeAt(u, i);
        AddedHeld(t, u, x, i);
      }
      ParentedIs(u);
    }
  }

  lemma ParentedIs(t: Tree)
    requires InRange(t)
    requires forall i :: 0 < i < |t.ents| && !t.ents[i].removed ==> HeldBy(t, NONE, i)
    ensures Parented(t, NONE)
  {
  }

  lemma AddedBreaks(t: Tree, x: Entry)
    requires Inv(t, NONE) && MayAdd(t, x) && Inv(Added(t, x), NONE)
    ensures HasHome(t, x.path)
  {
    hide Listed, Linked, Added, Serials, OpenOk;
    var u, n := Added(t, x), |t.ents|;
    assert u.ents[n].path == x.path != [];
    assert HeldBy(u, NONE, n);
    assert t.ents[ROOT].path == [] && [] in t.byPath;
    assert u.ents[Attach(t, x.path)].path == t.ents[Attach(t, x.path)].path;
  }

  /** addChild keeps the tree sound exactly when the path's directory is there: the fallback to the root does not. */
  lemma AddedInv(t: Tree, x: Entry)
    requires Inv(t, NONE) && MayAdd(t, x)
    ensures Inv(Added(t, x), NONE) <==> HasHome(t, x.path)
  {
    hide Inv, Added, HasHome;
    if HasHome(t, x.path) {
      AddedKeeps(t, x);
    }
    if Inv(Added(t, x), NONE) {
      AddedBreaks(t, x);
    }
  }

  /** The inode a fresh entry's path comes to name. */
  function AddedInode(t: Tree, x: Entry): Inode
    requires MayAdd(t, x)
  {
    if x.linkTo.Some? then t.ents[x.linkTo.value].inode else x.inode
  }

  lemma AddedNamed(t: Tree, x: Entry, p: Path)
    requires Inv(t, NONE) && MayAdd(t, x) && InRange(Added(t, x)) && Indexed(Added(t, x)) && (p in t.byPath || p == x.path)
    ensures Named(Added(t, x), p) == if p == x.path then AddedInode(t, x) else Named(t, p)
  {
    hide Parented, Listed, Linked, Serials, OpenOk, Added, Attach, Appended;
  }

  lemma ViewAt(t: Tree, p: Path)
    requires InRange(t) && Indexed(t)
    ensures p in View(t, NONE).at <==> p in t.byPath
    ensures p in t.byPath ==> View(t, NONE).at[p] == Named(t, p)
  {
    hide InRange, Indexed, Named;
    NothingHangs(p);
  }

  /** The map gains the path: a new inode, or the one named. */
  lemma AddedView(t: Tree, x: Entry)
    requires Inv(t, NONE) && MayAdd(t, x) && InRange(Added(t, x)) && Indexed(Added(t, x))
    ensures View(Added(t, x), NONE) == Space(View(t, NONE).at[x.path := AddedInode(t, x)], Added(t, x).next)
  {
    hide Parented, Listed, Linked, Serials, OpenOk, Added, View, InRange, Indexed, Named, AddedInode, Live, Fresh;
    var u := Added(t, x);
    var v := View(t, NONE).at[x.path := AddedInode(t, x)];
    forall p ensures p in View(u, NONE).at <==> p in v {
      ViewAt(u, p);
      ViewAt(t, p);
    }
    forall p | p in v ensures p in View(u, NONE).at && View(u, NONE).at[p] == v[p] {
      ViewAt(u, p);
      ViewAt(t, p);
      AddedNamed(t, x, p);
    }
    assert View(u, NONE).at == v;
    assert View(u, NONE).next == u.next by { ViewNext(u); }
  }

  lemma ViewNext(t: Tree)
    requires InRange(t) && Indexed(t)
    ensures View(t, NONE).next == t.next
  {
  }

  // ---- An inode rewritten in place ----

  function Rewritten(t: Tree, e: nat, inode: Inode, next: nat): Tree
    requires e < |t.ents|
  {
    t.(ents := t.ents[e := t.ents[e].(inode := inode)], next := next)
  }

  /** e carries an inode, which is replaced by a new one it has to itself or keeps its serial and type. */
  ghost predicate MayRewrite(t: Tree, e: nat, inode: Inode, next: nat) {
    && Live(t, e) && t.ents[e].linkTo.None?
    && (|| (inode.serial == t.next && next == t.next + 1 && t.ents[e].extraLinks == 0 && e != ROOT)
        || (inode.serial == t.ents[e].inode.serial && inode.kind == t.ents[e].inode.kind && next == t.next))
  }

  /** Some live entry's directory is e. */
  predicate HasLive(t: Tree, e: nat) {
    exists c :: 0 < c < |t.ents| && !t.ents[c].removed && t.ents[c].parent == e
  }

  lemma RewrittenShape(t: Tree, e: nat, inode: Inode, next: nat)
    requires Inv(t, NONE) && MayRewrite(t, e, inode, next)
    ensures var u := Rewritten(t, e, inode, next); InRange(u) && Live(u, ROOT) && Indexed(u) && Listed(u) && OpenOk(u, NONE)
  {
    hide Linked, Serials, Parented;
  }

  lemma RewrittenLinked(t: Tree, e: nat, inode: Inode, next: nat)
    requires Inv(t, NONE) && MayRewrite(t, e, inode, next) && InRange(Rewritten(t, e, inode, next))
    ensures Linked(Rewritten(t, e, inode, next), NONE)
  {
    hide Parented, Listed, Indexed, OpenOk, Hanging, Serials;
    var u := Rewritten(t, e, inode, next);
    forall i | 0 <= i < |u.ents| && !u.ents[i].removed && u.ents[i].linkTo.Some? ensures AliasOk(u, NONE, i) {
      assert AliasOk(t, NONE, i);
      assert t.ents[i].linkTo == Some(e) ==> i in Aliases(t, e);
    }
    forall o ensures Aliases(u, o) == Aliases(t, o) {
    }
  }

  lemma RewrittenSerials(t: Tree, e: nat, inode: Inode, next: nat)
    requires Inv(t, NONE) && MayRewrite(t, e, inode, next)
    ensures Serials(Rewritten(t, e, inode, next))
  {
    hide Parented, Listed, Indexed, OpenOk, Hanging, Linked, InRange;
  }

  lemma RewrittenParented(t: Tree, e: nat, inode: Inode, next: nat)
    requires Inv(t, NONE) && MayRewrite(t, e, inode, next) && InRange(Rewritten(t, e, inode, next))
    ensures Parented(Rewritten(t, e, inode, next), NONE) <==> inode.kind == Directory || !HasLive(t, e)
  {
    hide Linked, Serials, Listed, OpenOk, Indexed, InRange;
    var u := Rewritten(t, e, inode, next);
    forall i | 0 < i < |t.ents| && !t.ents[i].removed
      ensures t.ents[i].path != [] && t.ents[i].parent < |t.ents|
      ensures HeldBy(u, NONE, i) <==> t.ents[i].parent != e || inode.kind == Directory
    {
      RangeAt(t, i);
      assert HeldBy(t, NONE, i);
    }
    if HasLive(t, e) && inode.kind != Directory {
      var c :| 0 < c < |t.ents| && !t.ents[c].removed && t.ents[c].parent == e;
      assert !HeldBy(u, NONE, c);
    }
  }

  /** Rewriting in place keeps the tree sound exactly when nothing live is left in what is no longer a directory. */
  lemma RewrittenInv(t: Tree, e: nat, inode: Inode, next: nat)
    requires Inv(t, NONE) && MayRewrite(t, e, inode, next)
    ensures Inv(Rewritten(t, e, inode, next), NONE) <==> inode.kind == Directory || !HasLive(t, e)
  {
    hide InRange, Parented, Listed, Linked, Indexed, Rewritten, OpenOk, Serials, MayRewrite, HasLive;
    RewrittenShape(t, e, inode, next);
    RewrittenLinked(t, e, inode, next);
    RewrittenSerials(t, e, inode, next);
    RewrittenParented(t, e, inode, next);
  }

  lemma RewrittenNamed(t: Tree, e: nat, inode: Inode, next: nat, p: Path)
    requires Inv(t, NONE) && MayRewrite(t, e, inode, next) && InRange(Rewritten(t, e, inode, next)) && Indexed(Rewritten(t, e, inode, next))
    requires p in t.byPath
    ensures Named(Rewritten(t, e, inode, next), p) == if Owner(t, t.byPath[p]) == e then inode else Named(t, p)
  {
    hide Parented, Listed, Serials, OpenOk, Linked;
  }
}
