/** What the tree's entries say of the map, and the map of them. */
module TreeFacts {
  import opened Bytes
  import opened Names
  import opened Namespace
  import opened Entries
  import opened Growth

  ghost function Map(t: Tree): Space
    requires Inv(t, NONE)
  {
    View(t, NONE)
  }

  lemma At(t: Tree, p: Path)
    requires Inv(t, NONE)
    ensures p in Map(t).at <==> p in t.byPath
    ensures p in t.byPath ==> Live(t, t.byPath[p]) && t.ents[t.byPath[p]].path == p && Owner(t, t.byPath[p]) < |t.ents|
    ensures p in t.byPath ==> Map(t).at[p] == t.ents[Owner(t, t.byPath[p])].inode
    ensures p in t.byPath ==> Live(t, Owner(t, t.byPath[p])) && t.ents[Owner(t, t.byPath[p])].linkTo.None?
    ensures p in t.byPath ==> t.ents[t.byPath[p]].inode.kind == Map(t).at[p].kind
    ensures p in t.byPath && t.ents[t.byPath[p]].linkTo.Some? ==> Map(t).at[p].kind != Directory
  {
    hide Parented, Listed, Serials, OpenOk;
    ViewAt(t, p);
    NothingHangs(p);
    if p in t.byPath && t.ents[t.byPath[p]].linkTo.Some? {
      assert AliasOk(t, NONE, t.byPath[p]);
    }
  }

  lemma RootAt(t: Tree)
    requires Inv(t, NONE)
    ensures [] in t.byPath && t.byPath[[]] == ROOT && [] in Map(t).at && Map(t).at[[]] == t.ents[ROOT].inode && IsDir(t, ROOT)
    ensures Map(t).next == t.next
  {
    hide Parented, Listed, Linked, Serials, OpenOk;
    ViewAt(t, []);
  }

  /** A live child of e is a name directly below it. */
  lemma ChildNamed(t: Tree, e: nat, j: nat)
    requires Inv(t, NONE) && Live(t, e) && j < |t.ents[e].children| && Live(t, t.ents[e].children[j])
    ensures HasChild(Map(t), t.ents[e].path)
  {
    hide Linked, Serials, OpenOk;
    var c := t.ents[e].children[j];
    assert HeldBy(t, NONE, c);
    At(t, t.ents[c].path);
    assert t.ents[c].path in Map(t).at;
  }

  /** A name directly below a live e is a child of it. */
  lemma NamedChild(t: Tree, e: nat)
    requires Inv(t, NONE) && Live(t, e) && HasChild(Map(t), t.ents[e].path)
    ensures HasLive(t, e) && exists j :: 0 <= j < |t.ents[e].children| && Live(t, t.ents[e].children[j])
  {
    hide Linked, Serials, OpenOk, Listed;
    var q :| q in Map(t).at && q != [] && Dir(q) == t.ents[e].path;
    At(t, q);
    var c := t.byPath[q];
    assert HeldBy(t, NONE, c);
    assert t.byPath[Dir(q)] == e == t.ents[c].parent;
  }

  lemma LiveNamed(t: Tree, e: nat)
    requires Inv(t, NONE) && Live(t, e) && HasLive(t, e)
    ensures HasChild(Map(t), t.ents[e].path)
  {
    hide Linked, Serials, OpenOk, Listed;
    var c :| 0 < c < |t.ents| && !t.ents[c].removed && t.ents[c].parent == e;
    assert HeldBy(t, NONE, c);
    At(t, t.ents[c].path);
    assert t.ents[c].path in Map(t).at;
  }

  /** The tree means a sound map. */
  lemma MapSound(t: Tree)
    requires Inv(t, NONE)
    ensures Sound(Map(t))
  {
    hide Linked, Serials, OpenOk, Listed, Parented, Indexed, InRange, View;
    var n := Map(t);
    RootAt(t);
    forall p | p in n.at && p != [] ensures Dir(p) in n.at && n.at[Dir(p)].kind == Directory {
      HomeOf(t, p);
    }
    forall p | p in n.at ensures n.at[p].serial < n.next {
      At(t, p);
      SerialOf(t, Owner(t, t.byPath[p]));
    }
    forall p, q | p in n.at && q in n.at && n.at[p].serial == n.at[q].serial ensures n.at[p] == n.at[q] && (n.at[p].kind == Directory ==> p == q) {
      At(t, p);
      At(t, q);
      SameSerial(t, Owner(t, t.byPath[p]), Owner(t, t.byPath[q]));
    }
  }

  lemma HomeOf(t: Tree, p: Path)
    requires Inv(t, NONE) && p in Map(t).at && p != []
    ensures Dir(p) in Map(t).at && Map(t).at[Dir(p)].kind == Directory && HasHome(t, p)
  {
    hide Linked, Serials, OpenOk, Listed;
    At(t, p);
    assert HeldBy(t, NONE, t.byPath[p]);
    At(t, Dir(p));
  }

  lemma SerialOf(t: Tree, o: nat)
    requires Inv(t, NONE) && Live(t, o) && t.ents[o].linkTo.None?
    ensures t.ents[o].inode.serial < t.next
  {
    hide Linked, OpenOk, Listed, Parented, Indexed, InRange;
  }

  lemma SameSerial(t: Tree, a: nat, b: nat)
    requires Inv(t, NONE) && Live(t, a) && Live(t, b) && t.ents[a].linkTo.None? && t.ents[b].linkTo.None?
    requires t.ents[a].inode.serial == t.ents[b].inode.serial
    ensures a == b
  {
    hide Linked, OpenOk, Listed, Parented, Indexed, InRange;
  }

  // ---- ensureParent ----

  lemma {:induction false} NearestIs(at: map<Path, Inode>, p: Path, k: nat)
    requires [] in at && k <= |p| && p[..k] in at && forall i :: k < i <= |p| ==> p[..i] !in at
    ensures Nearest(at, p) == p[..k]
  {
    var a := Nearest(at, p);
    assert a == p[..|a|];
  }

  lemma {:induction false} MadeDirs(n: Space, p: Path, k: nat, j: nat)
    requires k <= j <= |p| && p[..k] in n.at && n.at[p[..k]].kind == Directory && forall i :: k < i <= |p| ==> p[..i] !in n.at
    ensures var m := MakeDirs(n, p[..j]);
            && p[..j] in m.at && m.at[p[..j]].kind == Directory
            && (forall i :: j < i <= |p| ==> p[..i] !in m.at)
            && (forall q :: q in n.at ==> q in m.at && m.at[q] == n.at[q])
    decreases j
  {
    if k < j {
      MadeDirs(n, p, k, j - 1);
      assert Dir(p[..j]) == p[..j - 1];
      assert forall i :: j < i <= |p| ==> |p[..i]| > j;
    }
  }

  lemma MakeStep(n: Space, p: Path, k: nat, j: nat)
    requires k <= j < |p| && p[..k] in n.at && n.at[p[..k]].kind == Directory && forall i :: k < i <= |p| ==> p[..i] !in n.at
    ensures var m := MakeDirs(n, p[..j]);
            MakeDirs(n, p[..j + 1]) == Space(m.at[p[..j + 1] := Inode(m.next, Directory, IMPLICIT)], m.next + 1)
  {
    assert Dir(p[..j + 1]) == p[..j];
  }

  // ---- An inode rewritten ----

  lemma RewrittenAt(t: Tree, e: nat, inode: Inode, next: nat, p: Path)
    requires Inv(t, NONE) && e < |t.ents| && MayRewrite(t, e, inode, next) && Inv(Rewritten(t, e, inode, next), NONE)
    ensures var u := Rewritten(t, e, inode, next);
            && (p in Map(u).at <==> p in Map(t).at)
            && (p in Map(t).at ==> Map(u).at[p] == if Map(t).at[p].serial == t.ents[e].inode.serial then inode else Map(t).at[p])
  {
    hide Parented, Listed, Serials, OpenOk, Linked, InRange, Indexed, MayRewrite, Rewritten, Map;
    var u := Rewritten(t, e, inode, next);
    RewrittenIndex(t, e, inode, next);
    At(t, p);
    At(u, p);
    if p in t.byPath {
      RewrittenNamed(t, e, inode, next, p);
      Naming(t, p);
      Naming(u, p);
      if Map(t).at[p].serial == t.ents[e].inode.serial {
        SameSerial(t, Owner(t, t.byPath[p]), e);
      }
    }
  }

  lemma RewrittenIndex(t: Tree, e: nat, inode: Inode, next: nat)
    requires MayRewrite(t, e, inode, next)
    ensures Rewritten(t, e, inode, next).byPath == t.byPath && Live(t, e) && t.ents[e].linkTo.None?
    ensures Rewritten(t, e, inode, next).next == next
  {
  }

  lemma Naming(t: Tree, p: Path)
    requires Inv(t, NONE) && p in t.byPath
    ensures p in Map(t).at && Map(t).at[p] == Named(t, p)
  {
    hide InRange, Indexed, Parented, Listed, Linked, Serials, OpenOk, Named;
    ViewAt(t, p);
  }

  /** A new inode in the place of one with no other name. */
  lemma Replaced(t: Tree, e: nat, inode: Inode)
    requires Inv(t, NONE) && e < |t.ents| && MayRewrite(t, e, inode, t.next + 1) && t.ents[e].extraLinks == 0 && Inv(Rewritten(t, e, inode, t.next + 1), NONE)
    ensures Map(Rewritten(t, e, inode, t.next + 1)) == Space(Map(t).at[t.ents[e].path := inode], Map(t).next + 1)
  {
    hide Parented, Listed, Serials, OpenOk, Linked, InRange, Indexed, MayRewrite, Rewritten, Map;
    var u := Rewritten(t, e, inode, t.next + 1);
    var v := Map(t).at[t.ents[e].path := inode];
    RewrittenIndex(t, e, inode, t.next + 1);
    forall p ensures (p in Map(u).at <==> p in v) && (p in v ==> Map(u).at[p] == v[p]) {
      RewrittenAt(t, e, inode, t.next + 1, p);
      At(t, p);
      OwnPath(t, e, p);
    }
    assert Map(u).at == v;
    RootAt(t);
    RootAt(u);
  }

  /** An entry with no other name is denoted by its own path alone. */
  lemma OwnPath(t: Tree, e: nat, p: Path)
    requires Inv(t, NONE) && Live(t, e) && t.ents[e].linkTo.None? && t.ents[e].extraLinks == 0
    ensures p == t.ents[e].path ==> p in Map(t).at
    ensures p in Map(t).at ==> (Map(t).at[p].serial == t.ents[e].inode.serial <==> p == t.ents[e].path)
  {
    hide Parented, Listed, OpenOk, InRange, Map;
    At(t, p);
    assert Aliases(t, e) == {};
    if p in t.byPath {
      var i := t.byPath[p];
      assert t.ents[i].linkTo == Some(e) ==> i in Aliases(t, e);
    }
  }

  /** New metadata for an inode: all its names see it. */
  lemma Reset(t: Tree, e: nat, meta: Meta, p: Path)
    requires Inv(t, NONE) && p in t.byPath && e == Owner(t, t.byPath[p]) && e < |t.ents|
    ensures var u := Rewritten(t, e, t.ents[e].inode.(meta := meta), t.next);
            Inv(u, NONE) && SetMeta(Map(t), p, meta) == Outcome(Map(u), None)
  {
    hide Parented, Listed, Serials, OpenOk, Linked, InRange, Indexed, MayRewrite, Rewritten, Map, HasLive;
    At(t, p);
    var inode := t.ents[e].inode.(meta := meta);
    assert MayRewrite(t, e, inode, t.next) by { MayReset(t, e, meta); }
    RewrittenInv(t, e, inode, t.next);
    if inode.kind != Directory && HasLive(t, e) {
      OnlyDirs(t, e);
    }
    var u := Rewritten(t, e, inode, t.next);
    var v := SetMeta(Map(t), p, meta).space.at;
    forall q ensures (q in Map(u).at <==> q in v) && (q in v ==> Map(u).at[q] == v[q]) {
      RewrittenAt(t, e, inode, t.next, q);
      At(t, q);
      if q in t.byPath && Map(t).at[q].serial == t.ents[e].inode.serial {
        SameSerial(t, Owner(t, t.byPath[q]), e);
      }
    }
    assert Map(u).at == v;
    RewrittenIndex(t, e, inode, t.next);
    RootAt(t);
    RootAt(u);
  }

  lemma MayReset(t: Tree, e: nat, meta: Meta)
    requires Live(t, e) && t.ents[e].linkTo.None?
    ensures MayRewrite(t, e, t.ents[e].inode.(meta := meta), t.next)
  {
  }

  lemma OnlyDirs(t: Tree, e: nat)
    requires Inv(t, NONE) && Live(t, e) && HasLive(t, e)
    ensures IsDir(t, e)
  {
    hide Listed, Linked, Serials, OpenOk, Indexed;
    var c :| 0 < c < |t.ents| && !t.ents[c].removed && t.ents[c].parent == e;
    assert HeldBy(t, NONE, c);
  }
}
