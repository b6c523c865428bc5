/** unlinkEntry on the tree's values: an alias goes, an owner goes, or an owner goes and an alias takes its inode over (mkfs.go). */
module Unlink {
  import opened Bytes
  import opened Names
  import opened Namespace
  import opened Entries

  // ---- unlinkEntry: an alias ----

  /** A 32-bit count down, as an entry that is already gone may see it. */
  function Decrement(n: nat): nat {
    if n == 0 then 0xFFFF_FFFF else n - 1
  }

  function AliasEntry(t: Tree, e: nat, i: nat): Entry
    requires e < |t.ents| && i < |t.ents|
  {
    if i == e then t.ents[i].(removed := true)
    else if t.ents[e].linkTo == Some(i) then t.ents[i].(extraLinks := Decrement(t.ents[i].extraLinks))
    else t.ents[i]
  }

  function AliasDropped(t: Tree, e: nat): (u: Tree)
    requires e < |t.ents|
    ensures |u.ents| == |t.ents| && u.byPath == t.byPath - {t.ents[e].path} && u.next == t.next
    ensures forall i :: 0 <= i < |t.ents| ==> u.ents[i] == AliasEntry(t, e, i)
  {
    t.(ents := seq(|t.ents|, i requires 0 <= i < |t.ents| => AliasEntry(t, e, i)), byPath := t.byPath - {t.ents[e].path})
  }

  lemma AliasFacts(t: Tree, open: Open, e: nat)
    requires Inv(t, open) && Live(t, e) && t.ents[e].linkTo.Some?
    ensures AliasOk(t, open, e) && e != ROOT && t.ents[e].linkTo.value != e && !IsDir(t, e)
  {
    hide Serials, OpenOk, Indexed, Parented, Listed, Hanging;
    assert AliasOk(t, open, e);
  }

  lemma AliasDroppedPlace(t: Tree, open: Open, e: nat)
    requires Inv(t, open) && Live(t, e) && t.ents[e].linkTo.Some?
    ensures var u := AliasDropped(t, e); Drops(t, u, e) && LeafLists(t, u) && u.ents[ROOT].linkTo.None?
  {
    hide Serials, OpenOk, Indexed, Parented, Listed, Linked, AliasDropped;
    AliasFacts(t, open, e);
    var u := AliasDropped(t, e);
    forall i, j | 0 <= i < |u.ents| && !IsDir(t, i) && 0 <= j < |u.ents[i].children|
      ensures ROOT < u.ents[i].children[j] < |u.ents| && !Live(u, u.ents[i].children[j])
    {
      if Live(t, t.ents[i].children[j]) {
        ChildInDir(t, open, i, j);
      }
    }
  }

  lemma AliasDroppedAlias(t: Tree, u: Tree, open: Open, e: nat, i: nat)
    requires Inv(t, open) && Live(t, e) && t.ents[e].linkTo.Some? && InRange(u) && u == AliasDropped(t, e)
    requires Live(u, i) && u.ents[i].linkTo.Some?
    ensures AliasOk(u, open, i)
  {
    hide OpenOk, Indexed, Parented, Listed, Hanging, Serials, AliasDropped;
    AliasFacts(t, open, e);
    assert AliasOk(t, open, i);
  }

  lemma AliasDroppedCount(t: Tree, open: Open, e: nat, x: nat)
    requires Inv(t, open) && Live(t, e) && t.ents[e].linkTo.Some?
    requires x < |t.ents| && x != e && t.ents[x].linkTo.None? && !t.ents[x].removed
    ensures AliasDropped(t, e).ents[x].extraLinks == |Aliases(AliasDropped(t, e), x)|
  {
    hide OpenOk, Indexed, Parented, Listed, Hanging, Serials, AliasDropped, AliasOk;
    AliasFacts(t, open, e);
    assert Aliases(AliasDropped(t, e), x) == Aliases(t, x) - {e};
    assert t.ents[e].linkTo == Some(x) <==> e in Aliases(t, x);
  }

  lemma AliasDroppedLinked(t: Tree, open: Open, e: nat)
    requires Inv(t, open) && Live(t, e) && t.ents[e].linkTo.Some? && InRange(AliasDropped(t, e))
    ensures Linked(AliasDropped(t, e), open) && Serials(AliasDropped(t, e))
  {
    hide InRange, OpenOk, Indexed, Parented, Listed, Hanging, Linked, AliasDropped, AliasOk, Aliases;
    var u := AliasDropped(t, e);
    assert Linked(u, open) by {
      forall i | 0 <= i < |u.ents| && !u.ents[i].removed && u.ents[i].linkTo.Some? ensures AliasOk(u, open, i) {
        AliasDroppedAlias(t, u, open, e, i);
      }
      forall x | 0 <= x < |u.ents| && !u.ents[x].removed && u.ents[x].linkTo.None? ensures u.ents[x].extraLinks == |Aliases(u, x)| {
        AliasDroppedCount(t, open, e, x);
      }
      LinkedIs(u, open);
    }
  }

  /** Dropping an alias drops its name and nothing else. */
  lemma AliasDroppedInv(t: Tree, open: Open, e: nat)
    requires Inv(t, open) && Live(t, e) && t.ents[e].linkTo.Some?
    ensures var u := AliasDropped(t, e);
            && Drops(t, u, e) && Opened(t, open, e) == open && Inv(u, open)
            && View(u, open) == Without(View(t, open), {t.ents[e].path})
  {
    hide Drops, LeafLists, AliasDropped, Hanging, InRange, Indexed, Parented, Listed, Linked, Serials, OpenOk, View, AliasOk;
    var u := AliasDropped(t, e);
    AliasFacts(t, open, e);
    AliasDroppedPlace(t, open, e);
    DropShape(t, u, open, e);
    DropParented(t, u, open, e);
    AliasDroppedLinked(t, open, e);
    forall p | p in u.byPath && !Hanging(open, p) ensures Named(u, p) == Named(t, p) {
      AliasDroppedNamed(t, open, e, p);
    }
    DropView(t, u, open, e);
  }

  lemma AliasDroppedNamed(t: Tree, open: Open, e: nat, p: Path)
    requires Inv(t, open) && Live(t, e) && InRange(AliasDropped(t, e)) && Indexed(AliasDropped(t, e))
    requires p in AliasDropped(t, e).byPath
    ensures Named(AliasDropped(t, e), p) == Named(t, p)
  {
    hide Parented, Listed, Serials, OpenOk, Linked, AliasDropped;
  }

  // ---- An owner with no attached alias ----

  function OwnerEntry(t: Tree, e: nat, i: nat): Entry
    requires e < |t.ents| && i < |t.ents|
  {
    if i == e then t.ents[i].(removed := true, extraLinks := 0) else t.ents[i]
  }

  function OwnerDropped(t: Tree, e: nat): (u: Tree)
    requires e < |t.ents|
    ensures |u.ents| == |t.ents| && u.byPath == t.byPath - {t.ents[e].path} && u.next == t.next
    ensures forall i :: 0 <= i < |t.ents| ==> u.ents[i] == OwnerEntry(t, e, i)
  {
    t.(ents := seq(|t.ents|, i requires 0 <= i < |t.ents| => OwnerEntry(t, e, i)), byPath := t.byPath - {t.ents[e].path})
  }

  lemma OwnerDroppedPlace(t: Tree, open: Open, e: nat)
    requires Inv(t, open) && Live(t, e) && t.ents[e].linkTo.None? && e != ROOT
    ensures var u := OwnerDropped(t, e); Drops(t, u, e) && LeafLists(t, u) && u.ents[ROOT].linkTo.None?
  {
    hide Serials, OpenOk, Indexed, Parented, Listed, Linked, OwnerDropped;
    var u := OwnerDropped(t, e);
    forall i, j | 0 <= i < |u.ents| && !IsDir(t, i) && 0 <= j < |u.ents[i].children|
      ensures ROOT < u.ents[i].children[j] < |u.ents| && !Live(u, u.ents[i].children[j])
    {
      if Live(t, t.ents[i].children[j]) {
        ChildInDir(t, open, i, j);
      }
    }
  }

  /** Every live alias of e hangs. */
  predicate AllHang(t: Tree, open: Open, e: nat) {
    forall a :: a in Aliases(t, e) ==> Hanging(open, t.ents[a].path)
  }

  lemma HangsStill(open: Open, d: Path, e: nat, p: Path)
    requires Hanging(open, p)
    ensures Hanging(open[d := e], p)
  {
    var o :| o in open && o < p;
    assert o in open[d := e];
  }

  lemma OwnerDroppedAlias(t: Tree, u: Tree, open: Open, e: nat, i: nat)
    requires Inv(t, open) && Live(t, e) && t.ents[e].linkTo.None? && AllHang(t, open, e) && InRange(u) && u == OwnerDropped(t, e)
    requires Live(u, i) && u.ents[i].linkTo.Some?
    ensures AliasOk(u, Opened(t, open, e), i)
  {
    hide OpenOk, Indexed, Parented, Listed, Hanging, Serials, OwnerDropped;
    assert AliasOk(t, open, i);
    if t.ents[i].linkTo == Some(e) {
      assert i in Aliases(t, e);
    }
    if Hanging(open, t.ents[i].path) {
      HangsStill(open, t.ents[e].path, e, t.ents[i].path);
    }
  }

  lemma OwnerDroppedLinked(t: Tree, open: Open, e: nat)
    requires Inv(t, open) && Live(t, e) && t.ents[e].linkTo.None? && AllHang(t, open, e) && InRange(OwnerDropped(t, e))
    ensures Linked(OwnerDropped(t, e), Opened(t, open, e)) && Serials(OwnerDropped(t, e))
  {
    hide InRange, OpenOk, Indexed, Parented, Listed, Hanging, OwnerDropped, AliasOk, AllHang, Opened;
    var u := OwnerDropped(t, e);
    forall i | 0 <= i < |u.ents| && !u.ents[i].removed && u.ents[i].linkTo.Some? ensures AliasOk(u, Opened(t, open, e), i) {
      OwnerDroppedAlias(t, u, open, e, i);
    }
    forall x | 0 <= x < |u.ents| && !u.ents[x].removed && u.ents[x].linkTo.None? ensures u.ents[x].extraLinks == |Aliases(u, x)| {
      assert Aliases(u, x) == Aliases(t, x);
    }
  }

  lemma OwnerDroppedNamed(t: Tree, open: Open, e: nat, p: Path)
    requires Inv(t, open) && Live(t, e) && InRange(OwnerDropped(t, e)) && Indexed(OwnerDropped(t, e))
    requires p in OwnerDropped(t, e).byPath
    ensures Named(OwnerDropped(t, e), p) == Named(t, p)
  {
    hide Parented, Listed, Serials, OpenOk, Linked, OwnerDropped;
  }

  /** Dropping an owner no attached name needs drops its name, and opens it if it is a directory. */
  lemma OwnerDroppedInv(t: Tree, open: Open, e: nat)
    requires Inv(t, open) && Live(t, e) && t.ents[e].linkTo.None? && e != ROOT && AllHang(t, open, e)
    ensures var u := OwnerDropped(t, e);
            && Drops(t, u, e) && Inv(u, Opened(t, open, e))
            && View(u, Opened(t, open, e)) == Without(View(t, open), Gone(t, open, e))
  {
    hide Drops, LeafLists, OwnerDropped, Hanging, InRange, Indexed, Parented, Listed, Linked, Serials, OpenOk, View, AliasOk, AllHang, Opened, Gone;
    var u := OwnerDropped(t, e);
    OwnerDroppedPlace(t, open, e);
    DropShape(t, u, open, e);
    DropParented(t, u, open, e);
    OwnerDroppedLinked(t, open, e);
    forall p | p in u.byPath && !Hanging(open, p) ensures Named(u, p) == Named(t, p) {
      OwnerDroppedNamed(t, open, e, p);
    }
    DropView(t, u, open, e);
  }

  // ---- promoteAlias ----

  /** The attached live aliases of e. */
  ghost predicate Heirs(t: Tree, open: Open, e: nat, all: set<nat>) {
    forall a :: a in all <==> a in Aliases(t, e) && !Hanging(open, t.ents[a].path)
  }

  function HandedEntry(t: Tree, e: nat, all: set<nat>, h: nat, i: nat): Entry
    requires e < |t.ents| && i < |t.ents| && h in all
  {
    if i == h then
      t.ents[e].(path := t.ents[h].path, parent := t.ents[h].parent, linkTo := None, removed := false, extraLinks := |all| - 1)
    else if i == e then t.ents[i].(removed := true, extraLinks := 0, children := [])
    else if i in all then t.ents[i].(linkTo := Some(h))
    else t.ents[i]
  }

  function Handed(t: Tree, e: nat, all: set<nat>, h: nat): (u: Tree)
    requires e < |t.ents| && h in all
    ensures |u.ents| == |t.ents| && u.byPath == t.byPath - {t.ents[e].path} && u.next == t.next
    ensures forall i :: 0 <= i < |t.ents| ==> u.ents[i] == HandedEntry(t, e, all, h, i)
  {
    t.(ents := seq(|t.ents|, i requires 0 <= i < |t.ents| => HandedEntry(t, e, all, h, i)), byPath := t.byPath - {t.ents[e].path})
  }

  ghost predicate Hands(t: Tree, open: Open, e: nat, all: set<nat>, h: nat) {
    Inv(t, open) && Live(t, e) && t.ents[e].linkTo.None? && Heirs(t, open, e, all) && h in all
  }

  lemma HandsFacts(t: Tree, open: Open, e: nat, all: set<nat>, h: nat)
    requires Hands(t, open, e, all, h)
    ensures Live(t, h) && t.ents[h].linkTo == Some(e) && h != e && AliasOk(t, open, h) && !IsDir(t, e) && e != ROOT && h != ROOT
    ensures forall a :: a in all ==> Live(t, a) && t.ents[a].linkTo == Some(e) && a != e
  {
    hide Serials, OpenOk, Indexed, Parented, Listed, Hanging;
    assert h in Aliases(t, e);
    assert AliasOk(t, open, h);
  }

  lemma HandedPlace(t: Tree, open: Open, e: nat, all: set<nat>, h: nat)
    requires Hands(t, open, e, all, h)
    ensures var u := Handed(t, e, all, h); Drops(t, u, e) && LeafLists(t, u) && u.ents[ROOT].linkTo.None?
  {
    hide Serials, OpenOk, Indexed, Parented, Listed, Linked, Handed, Heirs;
    HandsFacts(t, open, e, all, h);
    var u := Handed(t, e, all, h);
    forall i, j | 0 <= i < |u.ents| && !IsDir(t, i) && 0 <= j < |u.ents[i].children|
      ensures ROOT < u.ents[i].children[j] < |u.ents| && !Live(u, u.ents[i].children[j])
    {
      var from := if i == h then e else i;
      if Live(t, t.ents[from].children[j]) {
        ChildInDir(t, open, from, j);
      }
    }
  }

  lemma HandedAlias(t: Tree, u: Tree, open: Open, e: nat, all: set<nat>, h: nat, i: nat)
    requires Hands(t, open, e, all, h) && InRange(u) && u == Handed(t, e, all, h)
    requires Live(u, i) && u.ents[i].linkTo.Some?
    ensures AliasOk(u, open, i)
  {
    hide OpenOk, Indexed, Parented, Listed, Hanging, Serials, Handed;
    HandsFacts(t, open, e, all, h);
    assert AliasOk(t, open, i);
    assert t.ents[i].linkTo == Some(e) ==> i in Aliases(t, e);
  }

  lemma NamesOwner(t: Tree, open: Open, i: nat, o: nat)
    requires Inv(t, open) && i in Aliases(t, o)
    ensures o < |t.ents| && t.ents[o].linkTo.None?
  {
    hide OpenOk, Indexed, Parented, Listed, Hanging, Serials;
    assert AliasOk(t, open, i);
  }

  /** Nothing names an alias. */
  lemma NoChains(t: Tree, open: Open, a: nat)
    requires Inv(t, open) && a < |t.ents| && t.ents[a].linkTo.Some?
    ensures Aliases(t, a) == {}
  {
    hide Inv;
    if i :| i in Aliases(t, a) {
      NamesOwner(t, open, i, a);
    }
  }

  lemma HandedCount(t: Tree, u: Tree, open: Open, e: nat, all: set<nat>, h: nat, x: nat)
    requires Hands(t, open, e, all, h) && u == Handed(t, e, all, h)
    requires x < |u.ents| && !u.ents[x].removed && u.ents[x].linkTo.None?
    ensures u.ents[x].extraLinks == |Aliases(u, x)|
  {
    hide OpenOk, Indexed, Parented, Listed, Hanging, Serials, Handed, Heirs;
    HandsFacts(t, open, e, all, h);
    if x == h {
      NoChains(t, open, h);
      assert Aliases(u, h) == all - {h};
    } else {
      assert Aliases(u, x) == Aliases(t, x);
    }
  }

  lemma HandedLinked(t: Tree, open: Open, e: nat, all: set<nat>, h: nat)
    requires Hands(t, open, e, all, h) && InRange(Handed(t, e, all, h))
    ensures Linked(Handed(t, e, all, h), open)
  {
    hide InRange, Inv, Handed, AliasOk, Aliases, Heirs;
    var u := Handed(t, e, all, h);
    forall i | 0 <= i < |u.ents| && !u.ents[i].removed && u.ents[i].linkTo.Some? ensures AliasOk(u, open, i) {
      HandedAlias(t, u, open, e, all, h, i);
    }
    forall x | 0 <= x < |u.ents| && !u.ents[x].removed && u.ents[x].linkTo.None? ensures u.ents[x].extraLinks == |Aliases(u, x)| {
      HandedCount(t, u, open, e, all, h, x);
    }
    LinkedIs(u, open);
  }

  lemma HandedSerials(t: Tree, open: Open, e: nat, all: set<nat>, h: nat)
    requires Hands(t, open, e, all, h)
    ensures Serials(Handed(t, e, all, h))
  {
    hide InRange, OpenOk, Indexed, Parented, Listed, Hanging, Handed, AliasOk, Aliases, Heirs, Linked;
    HandsFacts(t, open, e, all, h);
  }

  lemma HandedNamed(t: Tree, open: Open, e: nat, all: set<nat>, h: nat, p: Path)
    requires Hands(t, open, e, all, h) && InRange(Handed(t, e, all, h)) && Indexed(Handed(t, e, all, h))
    requires p in Handed(t, e, all, h).byPath && !Hanging(open, p)
    ensures Named(Handed(t, e, all, h), p) == Named(t, p)
  {
    hide Parented, Listed, Serials, OpenOk, Handed, Hanging;
    HandsFacts(t, open, e, all, h);
    var i := t.byPath[p];
    if t.ents[i].linkTo.Some? {
      assert AliasOk(t, open, i);
      assert t.ents[i].linkTo == Some(e) ==> i in Aliases(t, e);
    }
  }

  /** An owner hands its inode to an heir: every attached name left denotes what it did. */
  lemma HandedInv(t: Tree, open: Open, e: nat, all: set<nat>, h: nat)
    requires Hands(t, open, e, all, h)
    ensures var u := Handed(t, e, all, h);
            && Drops(t, u, e) && Opened(t, open, e) == open && Inv(u, open)
            && View(u, open) == Without(View(t, open), {t.ents[e].path})
  {
    hide Drops, LeafLists, Handed, Hanging, InRange, Indexed, Parented, Listed, Linked, Serials, OpenOk, View, AliasOk, Heirs;
    var u := Handed(t, e, all, h);
    HandsFacts(t, open, e, all, h);
    HandedPlace(t, open, e, all, h);
    DropShape(t, u, open, e);
    DropParented(t, u, open, e);
    HandedLinked(t, open, e, all, h);
    HandedSerials(t, open, e, all, h);
    forall p | p in u.byPath && !Hanging(open, p) ensures Named(u, p) == Named(t, p) {
      HandedNamed(t, open, e, all, h, p);
    }
    DropView(t, u, open, e);
  }
}
