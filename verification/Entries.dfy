/** A Writer's tree of entries and what keeps it sound while names come and go (mkfs.go). */
module Entries {
  import opened Bytes
  import opened Names
  import opened Namespace

  /** fsEntry. Entries refer to each other by their place in the store. An alias's own inode carries only the type its dirent shows. */
  datatype Entry = Entry(
    path: Path, inode: Inode, linkTo: Option<nat>, extraLinks: nat, parent: nat, children: seq<nat>, removed: bool)

  datatype Tree = Tree(ents: seq<Entry>, byPath: map<Path, nat>, next: nat)

  const ROOT: nat := 0

  predicate Live(t: Tree, i: nat) {
    i < |t.ents| && !t.ents[i].removed
  }

  predicate IsDir(t: Tree, i: nat) {
    i < |t.ents| && t.ents[i].inode.kind == Directory
  }

  /** The entry that carries i's inode. */
  function Owner(t: Tree, i: nat): nat
    requires i < |t.ents|
  {
    if t.ents[i].linkTo.Some? then t.ents[i].linkTo.value else i
  }

  /** The live names of o's inode beside its own. */
  function Aliases(t: Tree, o: nat): set<nat> {
    set i | 0 <= i < |t.ents| && !t.ents[i].removed && t.ents[i].linkTo == Some(o)
  }

  // ---- Invariant ----

  /** Directories being emptied: off the tree, their own live descendants still to go. */
  type Open = map<Path, nat>

  /** p lies below a directory being emptied. */
  predicate Hanging(open: Open, p: Path) {
    exists o :: o in open && o < p
  }

  /** None is being emptied. */
  const NONE: Open := map[]

  lemma NothingHangs(p: Path)
    ensures !Hanging(NONE, p)
  {
  }

  predicate InRange(t: Tree) {
    && ROOT < |t.ents| && t.ents[ROOT].path == [] && t.ents[ROOT].inode.kind == Directory && t.ents[ROOT].linkTo.None?
    && forall i :: 0 <= i < |t.ents| ==>
         && (t.ents[i].path == [] <==> i == ROOT)
         && t.ents[i].parent < |t.ents|
         && (t.ents[i].linkTo.Some? ==> t.ents[i].linkTo.value < |t.ents|)
         && forall j :: 0 <= j < |t.ents[i].children| ==> ROOT < t.ents[i].children[j] < |t.ents|
  }

  /** byPath holds exactly the live entries. */
  predicate Indexed(t: Tree) {
    && (forall p :: p in t.byPath ==> Live(t, t.byPath[p]) && t.ents[t.byPath[p]].path == p)
    && (forall i :: 0 <= i < |t.ents| && !t.ents[i].removed ==> t.ents[i].path in t.byPath && t.byPath[t.ents[i].path] == i)
  }

  /** The entry holding i is the directory its path names. */
  predicate HeldBy(t: Tree, open: Open, i: nat)
    requires i < |t.ents| && t.ents[i].path != [] && t.ents[i].parent < |t.ents|
  {
    var d, up := Dir(t.ents[i].path), t.ents[i].parent;
    && t.ents[up].path == d && t.ents[up].inode.kind == Directory && i in t.ents[up].children
    && (if d in t.byPath then t.byPath[d] == up else d in open && open[d] == up)
  }

  predicate Parented(t: Tree, open: Open)
    requires InRange(t)
  {
    forall i :: 0 < i < |t.ents| && !t.ents[i].removed ==> HeldBy(t, open, i)
  }

  /** A live entry is in one list of children, once. */
  predicate Listed(t: Tree)
    requires InRange(t)
  {
    forall d, j :: 0 <= d < |t.ents| && 0 <= j < |t.ents[d].children| && Live(t, t.ents[d].children[j]) ==>
      && t.ents[t.ents[d].children[j]].parent == d
      && forall k :: 0 <= k < |t.ents[d].children| && t.ents[d].children[k] == t.ents[d].children[j] ==> k == j
  }

  /** i names another entry's inode: never a name itself, never a directory, and alive unless i hangs. */
  predicate AliasOk(t: Tree, open: Open, i: nat)
    requires InRange(t) && i < |t.ents| && t.ents[i].linkTo.Some?
  {
    var o := t.ents[t.ents[i].linkTo.value];
    o.linkTo.None? && o.inode.kind == t.ents[i].inode.kind != Directory && (!Hanging(open, t.ents[i].path) ==> !o.removed)
  }

  predicate Linked(t: Tree, open: Open)
    requires InRange(t)
  {
    && (forall i :: 0 <= i < |t.ents| && !t.ents[i].removed && t.ents[i].linkTo.Some? ==> AliasOk(t, open, i))
    && (forall o :: 0 <= o < |t.ents| && !t.ents[o].removed && t.ents[o].linkTo.None? ==> t.ents[o].extraLinks == |Aliases(t, o)|)
  }

  /** No two live inodes share a serial. */
  predicate Serials(t: Tree) {
    && (forall i :: 0 <= i < |t.ents| && !t.ents[i].removed && t.ents[i].linkTo.None? ==> t.ents[i].inode.serial < t.next)
    && (forall i, j :: 0 <= i < j < |t.ents| && !t.ents[i].removed && !t.ents[j].removed && t.ents[i].linkTo.None? && t.ents[j].linkTo.None? ==>
          t.ents[i].inode.serial != t.ents[j].inode.serial)
  }

  predicate OpenOk(t: Tree, open: Open) {
    forall p :: p in open ==> p !in t.byPath && p != [] && open[p] < |t.ents| && t.ents[open[p]].path == p && IsDir(t, open[p])
  }

  /** The tree of names is sound. */
  predicate Shaped(t: Tree, open: Open) {
    InRange(t) && Live(t, ROOT) && Indexed(t) && Parented(t, open) && Listed(t) && OpenOk(t, open)
  }

  /** So are the inodes they name. */
  predicate Inv(t: Tree, open: Open) {
    Shaped(t, open) && Linked(t, open) && Serials(t)
  }

  // ---- Meaning ----

  /** The inode p names. */
  function Named(t: Tree, p: Path): Inode
    requires InRange(t) && Indexed(t) && p in t.byPath
  {
    t.ents[Owner(t, t.byPath[p])].inode
  }

  /** The tree as a map from its attached names. */
  function View(t: Tree, open: Open): Space
    requires InRange(t) && Indexed(t)
  {
    Space(map p | p in t.byPath && !Hanging(open, p) :: Named(t, p), t.next)
  }

  lemma HangingUp(open: Open, p: Path)
    requires p != []
    ensures Dir(p) in open || Hanging(open, Dir(p)) ==> Hanging(open, p)
  {
    if Dir(p) in open {
      assert Dir(p) < p;
    } else if o :| o in open && o < Dir(p) {
      assert o < p;
    }
  }

  /** Every ancestor of an attached name is one too, and a directory. */
  lemma {:induction false} Climb(t: Tree, open: Open, p: Path, k: nat)
    requires Shaped(t, open) && p in t.byPath && !Hanging(open, p) && k <= |p|
    ensures p[..k] in t.byPath && !Hanging(open, p[..k])
    ensures k < |p| ==> IsDir(t, t.byPath[p[..k]])
    decreases |p|
  {
    hide Listed, Hanging;
    if k == |p| {
      assert p[..k] == p;
    } else {
      assert HeldBy(t, open, t.byPath[p]);
      HangingUp(open, p);
      assert Dir(p)[..k] == p[..k];
      Climb(t, open, Dir(p), k);
      if k == |p| - 1 {
        assert Dir(p) == p[..k];
      }
    }
  }

  /** Only directories have live children. */
  lemma ChildInDir(t: Tree, open: Open, d: nat, j: nat)
    requires Shaped(t, open) && d < |t.ents| && j < |t.ents[d].children| && Live(t, t.ents[d].children[j])
    ensures IsDir(t, d)
  {
    hide OpenOk, Indexed;
    assert HeldBy(t, open, t.ents[d].children[j]);
  }

  // ---- Dropping a name ----

  /** The directories being emptied once e is off the tree. */
  function Opened(t: Tree, open: Open, e: nat): Open
    requires e < |t.ents|
  {
    if IsDir(t, e) then open[t.ents[e].path := e] else open
  }

  /** Entry i keeps its place when e is dropped. */
  predicate KeepsPlace(t: Tree, u: Tree, e: nat, i: nat)
    requires i < |t.ents| == |u.ents|
  {
    && u.ents[i].path == t.ents[i].path && u.ents[i].parent == t.ents[i].parent && u.ents[i].inode.kind == t.ents[i].inode.kind
    && u.ents[i].removed == (t.ents[i].removed || i == e)
    && (IsDir(t, i) ==> u.ents[i].children == t.ents[i].children)
    && (u.ents[i].linkTo.Some? ==> u.ents[i].linkTo.value < |u.ents|)
  }

  /** u is t with the name e dropped, whatever became of the inodes. */
  predicate Drops(t: Tree, u: Tree, e: nat) {
    && e < |t.ents| == |u.ents| && u.next == t.next && u.byPath == t.byPath - {t.ents[e].path}
    && forall i :: 0 <= i < |t.ents| ==> KeepsPlace(t, u, e, i)
  }

  /** An entry that is no directory has no live children after the drop either. */
  predicate LeafLists(t: Tree, u: Tree)
    requires |t.ents| == |u.ents|
  {
    forall i, j :: 0 <= i < |u.ents| && !IsDir(t, i) && 0 <= j < |u.ents[i].children| ==>
      ROOT < u.ents[i].children[j] < |u.ents| && !Live(u, u.ents[i].children[j])
  }

  lemma DropShape(t: Tree, u: Tree, open: Open, e: nat)
    requires Inv(t, open) && Live(t, e) && e != ROOT && Drops(t, u, e) && LeafLists(t, u) && u.ents[ROOT].linkTo.None?
    ensures InRange(u) && Live(u, ROOT) && Indexed(u) && Listed(u)
  {
    hide Linked, Serials, OpenOk, Parented;
    forall i | 0 <= i < |u.ents|
      ensures u.ents[i].path == t.ents[i].path && u.ents[i].parent == t.ents[i].parent && u.ents[i].inode.kind == t.ents[i].inode.kind
      ensures u.ents[i].removed == (t.ents[i].removed || i == e)
      ensures IsDir(t, i) ==> u.ents[i].children == t.ents[i].children
      ensures u.ents[i].linkTo.Some? ==> u.ents[i].linkTo.value < |u.ents|
    {
      assert KeepsPlace(t, u, e, i);
    }
  }

  lemma IndexOf(t: Tree, i: nat)
    requires Indexed(t) && Live(t, i)
    ensures t.ents[i].path in t.byPath && t.byPath[t.ents[i].path] == i
  {
  }

  lemma DropHeld(t: Tree, u: Tree, open: Open, e: nat, i: nat)
    requires Inv(t, open) && Live(t, e) && Drops(t, u, e) && InRange(u) && 0 < i < |u.ents| && !u.ents[i].removed
    ensures HeldBy(u, Opened(t, open, e), i)
  {
    hide Linked, Serials, Listed, Indexed, OpenOk;
    var up := t.ents[i].parent;
    assert KeepsPlace(t, u, e, i) && KeepsPlace(t, u, e, up);
    assert HeldBy(t, open, i);
    IndexOf(t, e);
  }

  lemma DropOpen(t: Tree, u: Tree, open: Open, e: nat)
    requires Inv(t, open) && Live(t, e) && e != ROOT && Drops(t, u, e)
    ensures OpenOk(u, Opened(t, open, e))
  {
    hide Linked, Serials, Listed, Parented;
    var after := Opened(t, open, e);
    forall p | p in after
      ensures p !in u.byPath && p != [] && after[p] < |u.ents| && u.ents[after[p]].path == p && IsDir(u, after[p])
    {
      assert KeepsPlace(t, u, e, after[p]);
    }
  }

  lemma DropParented(t: Tree, u: Tree, open: Open, e: nat)
    requires Inv(t, open) && Live(t, e) && e != ROOT && Drops(t, u, e) && InRange(u)
    ensures Parented(u, Opened(t, open, e)) && OpenOk(u, Opened(t, open, e))
  {
    hide Inv, Drops, HeldBy, Opened, OpenOk;
    DropOpen(t, u, open, e);
    forall i | 0 < i < |u.ents| && !u.ents[i].removed ensures HeldBy(u, Opened(t, open, e), i) {
      DropHeld(t, u, open, e, i);
    }
  }

  /** The names that go with e: its own, and those below it. */
  function Gone(t: Tree, open: Open, e: nat): set<Path>
    requires InRange(t) && Indexed(t) && e < |t.ents|
  {
    if IsDir(t, e) then Subtree(View(t, open), t.ents[e].path) else {t.ents[e].path}
  }

  lemma HangsMore(open: Open, d: Path, e: nat, p: Path)
    ensures Hanging(open[d := e], p) <==> Hanging(open, p) || d < p
  {
    if d < p {
      assert d in open[d := e];
    } else if o :| o in open && o < p {
      assert o in open[d := e];
    }
  }

  /** Where every name left denotes what it did, the drop takes away exactly e's names. */
  lemma DropView(t: Tree, u: Tree, open: Open, e: nat)
    requires Inv(t, open) && Live(t, e) && Drops(t, u, e) && InRange(u) && Indexed(u)
    requires forall p :: p in u.byPath && !Hanging(open, p) ==> Named(u, p) == Named(t, p)
    ensures View(u, Opened(t, open, e)) == Without(View(t, open), Gone(t, open, e))
  {
    hide Named, InRange, KeepsPlace, Hanging, Parented, Listed, Linked, Serials, OpenOk;
    assert t.ents[e].path in t.byPath;
    var after := Opened(t, open, e);
    var v, w := View(u, after), Without(View(t, open), Gone(t, open, e));
    forall p ensures p in v.at <==> p in w.at {
      HangsMore(open, t.ents[e].path, e, p);
      assert t.ents[e].path <= p <==> t.ents[e].path == p || t.ents[e].path < p;
      if IsDir(t, e) {
        assert p in Gone(t, open, e) <==> p in View(t, open).at && t.ents[e].path <= p;
      }
    }
    forall p | p in v.at ensures v.at[p] == w.at[p] {
      HangsMore(open, t.ents[e].path, e, p);
    }
    assert v.at == w.at;
  }

  lemma LinkedIs(t: Tree, open: Open)
    requires InRange(t)
    requires forall i :: 0 <= i < |t.ents| && !t.ents[i].removed && t.ents[i].linkTo.Some? ==> AliasOk(t, open, i)
    requires forall o :: 0 <= o < |t.ents| && !t.ents[o].removed && t.ents[o].linkTo.None? ==> t.ents[o].extraLinks == |Aliases(t, o)|
    ensures Linked(t, open)
  {
  }
}
