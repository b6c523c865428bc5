/** The Writer: its tree of names and every operation on it, against the map from paths to inodes (mkfs.go). */
module WriterTree {
  import opened Bytes
  import opened Names
  import opened Namespace
  import opened Entries
  import opened Unlink
  import opened Growth
  import opened AliasWalk
  import opened Subtrees
  import opened TreeFacts

  /** t with e marked removed and off the index, its inode untouched. */
  function Released(t: Tree, e: nat): Tree
    requires e < |t.ents|
  {
    t.(ents := t.ents[e := t.ents[e].(removed := true)], byPath := t.byPath - {t.ents[e].path})
  }

  lemma ReleasedShaped(t: Tree, open: Open, e: nat)
    requires Inv(t, open) && Live(t, e) && t.ents[e].linkTo.None? && e != ROOT && !IsDir(t, e)
    ensures var u := Released(t, e); Shaped(u, open) && Aliases(u, e) == Aliases(t, e)
  {
    hide Parented, Linked, Serials, Listed, OpenOk, Indexed;
    var u := Released(t, e);
    forall i | 0 <= i < |t.ents| ensures KeepsPlace(t, u, e, i) {
    }
    forall i, j | 0 <= i < |u.ents| && !IsDir(t, i) && 0 <= j < |u.ents[i].children|
      ensures ROOT < u.ents[i].children[j] < |u.ents| && !Live(u, u.ents[i].children[j])
    {
      if Live(t, t.ents[i].children[j]) {
        ChildInDir(t, open, i, j);
      }
    }
    DropShape(t, u, open, e);
    DropParented(t, u, open, e);
  }

  lemma RootEntered(t: Tree, open: Open)
    requires Shaped(t, open)
    ensures Entered(t, open, ROOT)
  {
    hide Parented, Listed, Indexed, OpenOk;
  }

  /** What the walk from the root finds are the heirs. */
  lemma FoundHeirs(t: Tree, open: Open, e: nat, found: seq<nat>)
    requires Inv(t, open) && Live(t, e) && t.ents[e].linkTo.None? && e != ROOT && !IsDir(t, e)
    requires FoundAll(Released(t, e), open, ROOT, e, found)
    ensures Heirs(t, open, e, Elems(found)) && |Elems(found)| == |found| && forall a :: a in found ==> a < |t.ents|
  {
    hide Parented, Linked, Serials, Listed, OpenOk, Indexed, Hanging;
    var u := Released(t, e);
    ReleasedShaped(t, open, e);
    DistinctCount(found);
    forall a ensures a in Elems(found) <==> a in Aliases(t, e) && !Hanging(open, t.ents[a].path) {
      if a in Aliases(t, e) {
        assert u.ents[a].path == t.ents[a].path && a != e;
        assert a != ROOT && u.ents[ROOT].path == [];
      }
    }
  }

  /** u is t with e gone and its inode handed to h, the least of its attached aliases. */
  ghost predicate HandsOver(t: Tree, u: Tree, open: Open, e: nat, all: set<nat>, h: nat)
    requires e < |t.ents|
  {
    h in all && Heirs(t, open, e, all) && IsLeast(t, all, h) && u == Handed(t, e, all, h)
  }

  class Writer {
    var ents: seq<Entry>
    var byPath: map<Path, nat>
    var next: nat

    ghost function State(): Tree
      reads this
    {
      Tree(ents, byPath, next)
    }

    ghost predicate Valid()
      reads this
    {
      Inv(State(), NONE)
    }

    /** The map from paths to inodes this Writer stands for. */
    ghost function Names(): Space
      requires Valid()
      reads this
    {
      Map(State())
    }

    constructor ()
      ensures Valid() && Names() == Space(map[[] := Inode(0, Directory, IMPLICIT)], 1)
    {
      ents := [Entry([], Inode(0, Directory, IMPLICIT), None, 0, ROOT, [], false)];
      byPath := map[[] := ROOT];
      next := 1;
      new;
      NewTree();
    }

    // ---- Creation ----

    /** addChild, with the count an alias adds to the inode it names. */
    method AddChild(x: Entry)
      requires InRange(State()) && Indexed(State()) && MayAdd(State(), x)
      modifies this
      ensures State() == Added(old(State()), x)
    {
      hide Added, InRange, Indexed;
      ghost var t := State();
      AttachRange(t, x.path);
      var up := if Dir(x.path) in byPath then byPath[Dir(x.path)] else ROOT;
      var id := |ents|;
      ents := ents[up := ents[up].(children := ents[up].children + [id])] + [x.(parent := up)];
      byPath := byPath[x.path := id];
      if x.linkTo.Some? {
        var o := x.linkTo.value;
        ents := ents[o := ents[o].(extraLinks := ents[o].extraLinks + 1)];
      } else {
        next := next + 1;
      }
      forall i | 0 <= i < |ents| ensures ents[i] == AddedEntry(t, x, i) {
      }
      assert ents == Added(t, x).ents;
    }

    /** ensureParent: the directories above p that are missing, unless what is there is no directory. */
    method EnsureParent(p: Path) returns (err: Option<Error>)
      requires Valid() && p != []
      modifies this
      ensures Valid()
      ensures [] in old(Names()).at && match Namespace.EnsureParent(old(Names()), p)
              case Ok(m) => err == None && Names() == m
              case Err(e) => err == Some(e) && Names() == old(Names())
      ensures Extends(old(State()), State())
    {
      hide Inv, Map, MakeDirs, Nearest;
      ghost var t := State();
      RootAt(t);
      var dir := Dir(p);
      var k := |dir|;
      assert dir[..k] == dir;
      while k > 0 && dir[..k] !in byPath
        invariant State() == t && 0 <= k <= |dir|
        invariant forall i :: k < i <= |dir| ==> dir[..i] !in Map(t).at
      {
        At(t, dir[..k]);
        k := k - 1;
      }
      At(t, dir[..k]);
      assert dir[..0] == [];
      NearestIs(Map(t).at, dir, k);
      if ents[byPath[dir[..k]]].inode.kind != Directory {
        return Some(NotDirectory);
      }
      MakeNone(Map(t), dir[..k]);
      for j := k to |dir|
        invariant Valid() && Names() == MakeDirs(Map(t), dir[..j]) && Extends(t, State())
      {
        ghost var u := State();
        var d := dir[..j + 1];
        assert Dir(d) == dir[..j];
        MadeDirs(Map(t), dir, k, j);
        MakeStep(Map(t), dir, k, j);
        Homely(u, d);
        ExtendsMore(t, u, d, Inode(next, Directory, IMPLICIT));
        AddChild(Fresh(d, Inode(next, Directory, IMPLICIT), None));
        AddedOwner(u, State(), d, Inode(u.next, Directory, IMPLICIT));
      }
      return None;
    }

    /** Create, Mkdir, Symlink and Mknod. */
    method Make(p: Path, kind: Kind, meta: Meta) returns (err: Option<Error>)
      requires Valid()
      modifies this
      ensures Valid() && [] in old(Names()).at && Outcome(Names(), err) == Namespace.Make(old(Names()), p, kind, meta)
    {
      hide Inv, Map, MakeDirs, Nearest, Fits;
      ghost var t := State();
      RootAt(t);
      if p == [] {
        if kind != Directory {
          return Some(Exists);
        }
        ents := ents[ROOT := ents[ROOT].(inode := ents[ROOT].inode.(meta := ents[ROOT].inode.meta.(mode := meta.mode)))];
        RootReset(t, State(), meta.mode);
        return None;
      }
      if !Fits(p) {
        return Some(Invalid);
      }
      At(t, p);
      if p in byPath {
        return Some(Exists);
      }
      err := EnsureParent(p);
      if err.Some? {
        return;
      }
      ghost var u := State();
      ParentMade(Map(t), p);
      Homely(u, p);
      AddChild(Fresh(p, Inode(next, kind, meta), None));
      AddedOwner(u, State(), p, Inode(u.next, kind, meta));
    }

    /** Link. */
    method Link(from: Path, p: Path) returns (err: Option<Error>)
      requires Valid()
      modifies this
      ensures Valid() && [] in old(Names()).at && Outcome(Names(), err) == Namespace.Link(old(Names()), from, p)
    {
      hide Inv, Map, MakeDirs, Nearest, Fits;
      ghost var t := State();
      RootAt(t);
      if p == [] {
        return Some(Exists);
      }
      At(t, from);
      if from !in byPath {
        return Some(NotExist);
      }
      var target := if ents[byPath[from]].linkTo.Some? then ents[byPath[from]].linkTo.value else byPath[from];
      if ents[target].inode.kind == Directory {
        return Some(IsDirectory);
      }
      if !Fits(p) {
        return Some(Invalid);
      }
      At(t, p);
      if p in byPath {
        return Some(Exists);
      }
      err := EnsureParent(p);
      if err.Some? {
        return;
      }
      ghost var u := State();
      ParentMade(Map(t), p);
      Homely(u, p);
      assert SameName(t.ents[target], u.ents[target]);
      AddChild(Fresh(p, AliasInode(ents[target].inode.kind), Some(target)));
      AddedLink(u, State(), p, target);
    }

    /** Chmod, Chown, Chtimes, Setxattr and SetNlink. */
    method SetMeta(p: Path, meta: Meta) returns (err: Option<Error>)
      requires Valid()
      modifies this
      ensures Valid() && Outcome(Names(), err) == Namespace.SetMeta(old(Names()), p, meta)
    {
      hide Inv, Map, Namespace.SetMeta;
      ghost var t := State();
      At(t, p);
      if p !in byPath {
        NoMeta(Map(t), p, meta);
        return Some(NotExist);
      }
      var e := if ents[byPath[p]].linkTo.Some? then ents[byPath[p]].linkTo.value else byPath[p];
      ents := ents[e := ents[e].(inode := ents[e].inode.(meta := meta))];
      Reset(t, e, meta, p);
      return None;
    }

    // ---- Overwriting ----

    /** placeEntry: p comes to name a new inode, whatever it named, and the tree stays sound exactly if nothing lived in a directory that is one no more. */
    method PlaceEntry(p: Path, kind: Kind, meta: Meta)
      requires Valid() && p != [] && HasHome(State(), p)
      modifies this
      ensures Valid() <==> MayPlace(old(Names()), p, kind)
      ensures Valid() ==> Names() == Space(old(Names()).at[p := Inode(old(next), kind, meta)], old(next) + 1)
    {
      hide Inv, Map, MayPlace, Drops, View, Gone, Opened, HandsOver, HasChild, HasLive, HasHome, Live, IsDir;
      ghost var t := State();
      At(t, p);
      RootAt(t);
      var inode := Inode(next, kind, meta);
      if p !in byPath {
        NothingThere(t, p, kind);
        AddChild(Fresh(p, inode, None));
        AddedOwner(t, State(), p, inode);
        return;
      }
      var e := byPath[p];
      LiveAt(t, p);
      if ents[e].linkTo.Some? || ents[e].extraLinks > 0 {
        ManyNames(t, e, kind);
        UnlinkEntry(e, NONE);
        ghost var u := State();
        Removed(t, u, e);
        StillHome(t, u, p);
        AddChild(Fresh(p, inode, None));
        AddedOwner(u, State(), p, inode);
        PutBack(Map(t), p, inode);
      } else {
        ents := ents[e := ents[e].(inode := inode, linkTo := None, extraLinks := 0, removed := false)];
        next := next + 1;
        assert ents == Rewritten(t, e, inode, t.next + 1).ents by { SameRecord(t, e, inode); }
        InPlace(t, e, kind, meta);
      }
    }

    /** add, where the source has not named the inode before. */
    method Place(p: Path, kind: Kind, meta: Meta) returns (err: Option<Error>)
      requires Valid()
      modifies this
      ensures [] in old(Names()).at
      ensures Valid() <==> err.Some? || p == [] || MayPlace(old(Names()), p, kind)
      ensures Valid() ==> Outcome(Names(), err) == Namespace.Place(old(Names()), p, kind, meta)
    {
      hide Inv, Map, MayPlace, MakeDirs, Nearest, HasHome, Fits, Namespace.SetMeta;
      ghost var t := State();
      RootAt(t);
      if !Fits(p) {
        return Some(Invalid);
      }
      if p == [] {
        err := SetMeta([], meta.(nlink := ents[ROOT].inode.meta.nlink));
        return;
      }
      err := EnsureParent(p);
      if err.Some? {
        return;
      }
      ghost var u := State();
      RootAt(u);
      ParentThere(Map(t), p);
      HomeThere(u, p);
      SameChildren(Map(t), p, kind);
      PlaceEntry(p, kind, meta);
    }

    /** addAlias: p becomes another name of target's inode, whatever it named, unless that was a directory. */
    method AddAlias(p: Path, target: nat) returns (err: Option<Error>)
      requires Valid() && p != [] && HasHome(State(), p) && Live(State(), target) && !IsDir(State(), target)
      modifies this
      ensures Valid() && old(ents[target].path) in old(Names()).at
      ensures err == if p in old(Names()).at && old(Names()).at[p].kind == Directory then Some(IsDirectory) else None
      ensures Names() == if err.Some? then old(Names()) else old(Names()).(at := old(Names()).at[p := old(Names()).at[old(ents[target].path)]])
    {
      hide Inv, Map, Drops, View, Gone, Opened, HandsOver, HasChild, HasHome, OwnersStay, Without;
      ghost var t, q := State(), ents[target].path;
      NamedAt(t, target);
      At(t, q);
      At(t, p);
      var o := if ents[target].linkTo.Some? then ents[target].linkTo.value else target;
      if p in byPath {
        var e := byPath[p];
        LiveAt(t, p);
        if e == o {
          assert Map(t).at[p := Map(t).at[q]] == Map(t).at;
          return None;
        }
        if ents[e].inode.kind == Directory {
          return Some(IsDirectory);
        }
        UnlinkEntry(e, NONE);
        ghost var u := State();
        Removed(t, u, e);
        StillHome(t, u, p);
        OwnerLives(t, u, e, o);
        AddChild(Fresh(p, AliasInode(ents[o].inode.kind), Some(o)));
        AddedLink(u, State(), p, o);
        PutBack(Map(t), p, t.ents[o].inode);
      } else {
        NothingThere(t, p, Directory);
        AddChild(Fresh(p, AliasInode(ents[o].inode.kind), Some(o)));
        AddedLink(t, State(), p, o);
      }
      return None;
    }

    /** add, for a further name of an inode the source has named at the entry prior. */
    method PlaceLink(p: Path, prior: nat) returns (err: Option<Error>)
      requires Valid() && p != [] && Live(State(), prior) && !IsDir(State(), prior)
      modifies this
      ensures [] in old(Names()).at && old(ents[prior].path) in old(Names()).at
      ensures Valid() && Outcome(Names(), err) == Namespace.PlaceLink(old(Names()), old(ents[prior].path), p)
    {
      hide Inv, Map, MakeDirs, Nearest, HasHome;
      ghost var t, q := State(), ents[prior].path;
      RootAt(t);
      NamedAt(t, prior);
      At(t, q);
      if !Fits(p) {
        return Some(Invalid);
      }
      err := EnsureParent(p);
      if err.Some? {
        return;
      }
      ghost var u := State();
      RootAt(u);
      ParentThere(Map(t), p);
      HomeThere(u, p);
      assert SameName(t.ents[prior], u.ents[prior]);
      if p in Map(t).at {
        MapSound(t);
        ParentAlready(Map(t), p);
      }
      err := AddAlias(p, prior);
    }

    // ---- Removal ----

    /** RemoveAll. */
    method RemoveAll(p: Path) returns (err: Option<Error>)
      requires Valid()
      modifies this
      ensures [] in old(Names()).at && Valid() && Outcome(Names(), err) == Namespace.RemoveAll(old(Names()), p)
    {
      hide Inv, Map, Nearest, Subtree;
      ghost var t := State();
      RootAt(t);
      if p == [] {
        return Some(Invalid);
      }
      At(t, p);
      if p !in byPath {
        var dir := Dir(p);
        var k := |dir|;
        assert dir[..k] == dir;
        while k > 0 && dir[..k] !in byPath
          invariant State() == t && 0 <= k <= |dir|
          invariant forall i :: k < i <= |dir| ==> dir[..i] !in Map(t).at
        {
          At(t, dir[..k]);
          k := k - 1;
        }
        At(t, dir[..k]);
        assert dir[..0] == [];
        NearestIs(Map(t).at, dir, k);
        if k > 0 && ents[byPath[dir[..k]]].inode.kind != Directory {
          return Some(NotDirectory);
        }
        return None;
      }
      RemoveTree(p);
      return None;
    }

    /** Remove. */
    method Remove(p: Path) returns (err: Option<Error>)
      requires Valid()
      modifies this
      ensures Valid() && Outcome(Names(), err) == Namespace.Remove(old(Names()), p)
    {
      hide Inv, Map, Drops, View, Gone, Opened, HandsOver, HasChild, Live, IsDir;
      if p == [] {
        return Some(Invalid);
      }
      At(State(), p);
      if p !in byPath {
        return Some(NotExist);
      }
      var e := byPath[p];
      ghost var t := State();
      RootAt(t);
      LiveAt(t, p);
      if ents[e].inode.kind == Directory {
        var kids := ents[e].children;
        for j := 0 to |kids|
          invariant State() == t && Seen(t, kids, j)
        {
          KidRange(t, e, j);
          if !ents[kids[j]].removed {
            LiveKid(t, e, j);
            return Some(NotEmpty);
          }
          Dead(t, kids[j]);
        }
        NoKids(t, e);
      }
      UnlinkEntry(e, NONE);
      Removed(t, State(), e);
      return None;
    }

    /** removeTree. */
    method RemoveTree(p: Path)
      requires Valid() && p != []
      modifies this
      ensures Valid() && Names() == Namespace.RemoveTree(old(Names()), p)
    {
      hide Inv, Map, Drops, View, Gone, Opened, HandsOver, Subtree, Thinned, Empty;
      At(State(), p);
      if p !in byPath {
        return;
      }
      var e := byPath[p];
      ghost var t := State();
      RootAt(t);
      LiveAt(t, p);
      UnlinkEntry(e, NONE);
      ghost var u := State();
      DroppedAt(t, u, e);
      if ents[e].inode.kind == Directory {
        OpenedEmptying(t, u, e);
        RemoveSubtree(e, Opened(t, NONE, e));
        TreeView(t, u, State(), e);
        MapIs(t);
        MapIs(State());
      } else {
        LeafGone(t, NONE, e);
        LeafSubtree(t, e);
        MapIs(t);
        MapIs(u);
      }
    }

    /** removeChildren. */
    method RemoveChildren(p: Path)
      requires Valid()
      modifies this
      ensures Valid() && Names() == Namespace.RemoveChildren(old(Names()), p)
    {
      hide Inv, Map, View, Below, Thinned, Empty;
      At(State(), p);
      if p !in byPath {
        return;
      }
      var e := byPath[p];
      ghost var t := State();
      LiveAt(t, p);
      RemoveSubtree(e, NONE);
      ThinnedInv(t, State(), NONE, p);
      EmptiedView(t, State(), p);
      MapIs(t);
      MapIs(State());
    }

    /** unlinkEntry: e's name goes and nothing else does, bar what lies in e itself; the least attached alias carries on an inode e owned. */
    method UnlinkEntry(e: nat, ghost open: Open)
      requires Inv(State(), open) && Live(State(), e) && e != ROOT
      modifies this
      ensures Drops(old(State()), State(), e) && Inv(State(), Opened(old(State()), open, e))
      ensures View(State(), Opened(old(State()), open, e)) == Without(View(old(State()), open), Gone(old(State()), open, e))
      ensures old(State()).ents[e].linkTo.None? && !AllHang(old(State()), open, e) ==>
                exists all, h :: HandsOver(old(State()), State(), open, e, all, h)
      ensures OwnersStay(old(State()), State(), e)
    {
      hide OwnersStay, Inv, Drops, Heirs, View, Gone, Opened, Handed, OwnerDropped, AliasDropped, Hanging, AllHang, IsLeast;
      ghost var t := State();
      if ents[e].linkTo.Some? {
        var o := ents[e].linkTo.value;
        AliasRange(t, open, e);
        byPath := byPath - {ents[e].path};
        ents := ents[e := ents[e].(removed := true)];
        ents := ents[o := ents[o].(extraLinks := Decrement(ents[o].extraLinks))];
        assert ents == AliasDropped(t, e).ents;
        AliasDroppedInv(t, open, e);
        AliasStay(t, e);
        LeafGone(t, open, e);
        return;
      }
      byPath := byPath - {ents[e].path};
      ents := ents[e := ents[e].(removed := true)];
      OwnerCount(t, open, e);
      if ents[e].extraLinks > 0 {
        assert State() == Released(t, e);
        PromoteAlias(e, t, open);
      } else {
        assert ents == OwnerDropped(t, e).ents;
      }
      if AllHang(t, open, e) {
        OwnerDroppedInv(t, open, e);
        OwnerStay(t, e);
      } else {
        ghost var all, h :| HandsOver(t, State(), open, e, all, h);
        HandedInv(t, open, e, all, h);
        HandedStay(t, open, e, all, h);
        LeafGone(t, open, e);
      }
    }

    /** removeSubtree: all below e goes, and nothing else. */
    method RemoveSubtree(e: nat, ghost open: Open)
      requires e < |ents| && Inv(State(), open) && Emptying(State(), open, e)
      modifies this
      ensures Thinned(old(State()), State(), open, old(ents[e].path)) && Empty(State(), old(ents[e].path))
      decreases |byPath|
    {
      hide Inv, Emptying, Thinned, Empty, Drops, View, Seen, Gone, HandsOver;
      ghost var t, p := State(), ents[e].path;
      ThinnedSelf(t, open, p);
      var kids := ents[e].children;
      assert Seen(t, kids, 0) by { NoneSeen(t, kids); }
      for j := 0 to |kids|
        invariant Thinned(t, State(), open, p) && Seen(State(), kids, j)
      {
        ghost var u := State();
        var c := kids[j];
        KidsStay(t, u, open, e, j);
        StillEmptying(t, u, open, e);
        NoMoreNames(t, u, open, p);
        ThinnedInv(t, u, open, p);
        if !ents[c].removed {
          ChildPath(u, open, e, c);
          UnlinkEntry(c, open);
          ghost var v := State();
          FewerNames(u, v, open, c);
          DroppedAt(u, v, c);
          if ents[c].inode.kind == Directory {
            BelowEmptying(u, v, open, e, c);
            RemoveSubtree(c, Opened(u, open, c));
            TreeStep(u, v, State(), open, e, c);
          } else {
            LeafStep(u, v, open, e, c);
          }
        } else {
          ThinnedSelf(u, open, p);
        }
        SeenMore(u, State(), open, p, kids, j);
        ThinnedTwice(t, u, State(), open, p, p);
      }
      AllSeen(t, State(), open, e);
    }

    /** promoteAlias: e's inode goes to the least of its attached aliases, if any. */
    method PromoteAlias(e: nat, ghost t: Tree, ghost open: Open)
      requires Inv(t, open) && Live(t, e) && t.ents[e].linkTo.None? && e != ROOT && !IsDir(t, e) && State() == Released(t, e)
      modifies this
      ensures AllHang(t, open, e) ==> State() == OwnerDropped(t, e)
      ensures !AllHang(t, open, e) ==>
                exists all, h :: HandsOver(t, State(), open, e, all, h)
    {
      hide Inv, Heirs, Finds, Handed, OwnerDropped, Hanging, AllHang, IsLeast, FoundAll, Shaped, Entered, Shallow, Elems;
      var now := Tree(ents, byPath, next);
      ReleasedShaped(t, open, e);
      RootEntered(now, open);
      ShallowRoot(now, open);
      var found := Walk(now, ROOT, e, open, Deepest(now.ents));
      FoundHeirs(t, open, e, found);
      if found == [] {
        ents := ents[e := ents[e].(extraLinks := 0)];
        NoHeirs(t, open, e, found);
        assert ents == OwnerDropped(t, e).ents;
        return;
      }
      SomeHeir(t, open, e, found);
      assert forall i :: 0 <= i < |found| ==> found[i] in found;
      var h := Least(now, found);
      LeastReleased(t, e, Elems(found), h);
      HeirFacts(t, open, e, found, h);
      TakeOver(e, h, found, t);
      assert HandsOver(t, State(), open, e, Elems(found), h);
    }

    /** The heir takes the inode, the other names are pointed at it, and e is left with nothing. */
    method TakeOver(e: nat, h: nat, found: seq<nat>, ghost t: Tree)
      requires e < |t.ents| && State() == Released(t, e) && h in found && h < |t.ents| && h != e && |Elems(found)| == |found|
      requires forall a :: a in found ==> a < |t.ents| && a != e
      modifies this
      ensures h in Elems(found) && State() == Handed(t, e, Elems(found), h)
    {
      hide Handed, Elems;
      ElemsIn(found, h);
      ents := ents[h := ents[e].(path := ents[h].path, parent := ents[h].parent, linkTo := None, removed := false, extraLinks := |found| - 1)];
      ghost var taken := ents;
      for j := 0 to |found|
        invariant byPath == old(byPath) && next == old(next) && |ents| == |taken|
        invariant forall i :: 0 <= i < |ents| ==> ents[i] == if i in found[..j] && i != h then taken[i].(linkTo := Some(h)) else taken[i]
      {
        assert found[j] in found;
        if found[j] != h {
          ents := ents[found[j] := ents[found[j]].(linkTo := Some(h))];
        }
      }
      assert found[..|found|] == found;
      ents := ents[e := ents[e].(extraLinks := 0, children := [])];
      forall i | 0 <= i < |ents| ensures ents[i] == HandedEntry(t, e, Elems(found), h, i) {
        ElemsIn(found, i);
      }
      assert ents == Handed(t, e, Elems(found), h).ents;
    }
  }

  lemma AttachRange(t: Tree, p: Path)
    requires InRange(t) && Indexed(t) && p != []
    ensures Attach(t, p) < |t.ents|
  {
  }

  lemma MakeNone(n: Space, p: Path)
    requires p in n.at
    ensures MakeDirs(n, p) == n
  {
  }

  /** The map knows p's directory, and so does the tree. */
  lemma Homely(t: Tree, p: Path)
    requires Inv(t, NONE) && p != [] && Dir(p) in Map(t).at && Map(t).at[Dir(p)].kind == Directory && p !in Map(t).at
    ensures HasHome(t, p) && p !in t.byPath && InRange(t) && Indexed(t) && t.next == Map(t).next
  {
    hide Parented, Listed, Linked, Serials, OpenOk, Map;
    At(t, p);
    At(t, Dir(p));
    RootAt(t);
  }

  lemma AddedOwner(t: Tree, u: Tree, p: Path, inode: Inode)
    requires Inv(t, NONE) && p != [] && MayAdd(t, Fresh(p, inode, None)) && HasHome(t, p) && u == Added(t, Fresh(p, inode, None))
    ensures Inv(u, NONE) && Map(u) == Space(Map(t).at[p := inode], Map(t).next + 1)
  {
    hide InRange, Indexed, Parented, Listed, Linked, Serials, OpenOk, Added, View, HasHome;
    AddedKeeps(t, Fresh(p, inode, None));
    AddedView(t, Fresh(p, inode, None));
    RootAt(t);
  }

  /** Once its parent is ensured, p itself is still missing and has a directory to go in. */
  lemma ParentMade(n: Space, p: Path)
    requires p != [] && [] in n.at && p !in n.at && EnsureParent(n, p).Ok?
    ensures var m := EnsureParent(n, p).value;
            && p !in m.at && Dir(p) in m.at && m.at[Dir(p)].kind == Directory
            && forall q :: q in n.at ==> q in m.at && m.at[q] == n.at[q]
  {
    hide MakeDirs;
    var d := Dir(p);
    var k := |Nearest(n.at, d)|;
    assert Nearest(n.at, d) == d[..k] == p[..k];
    assert forall i :: k < i <= |d| ==> p[..i] == d[..i];
    assert p[..|p|] == p;
    MadeDirs(n, p, k, |d|);
    assert p[..|d|] == d;
  }

  lemma RootReset(t: Tree, u: Tree, mode: nat)
    requires Inv(t, NONE) && ROOT < |t.ents|
    requires u == Rewritten(t, ROOT, t.ents[ROOT].inode.(meta := t.ents[ROOT].inode.meta.(mode := mode)), t.next)
    ensures Inv(u, NONE) && [] in Map(t).at
    ensures Map(u) == Map(t).(at := Map(t).at[[] := Map(t).at[[]].(meta := Map(t).at[[]].meta.(mode := mode))])
  {
    hide Inv, Map;
    RootAt(t);
    At(t, []);
    var meta := t.ents[ROOT].inode.meta.(mode := mode);
    RootOwner(t);
    Reset(t, ROOT, meta, []);
    var v := Map(t).at[[] := Map(t).at[[]].(meta := meta)];
    RootAlone(t);
    assert SetMeta(Map(t), [], meta).space.at == v;
  }

  lemma RootOwner(t: Tree)
    requires Inv(t, NONE)
    ensures [] in t.byPath && t.byPath[[]] == ROOT && t.ents[ROOT].linkTo.None?
  {
    hide Parented, Listed, Linked, Serials, OpenOk;
  }

  lemma RootAlone(t: Tree)
    requires Inv(t, NONE)
    ensures [] in Map(t).at && forall q :: q in Map(t).at && Map(t).at[q].serial == Map(t).at[[]].serial ==> q == []
  {
    hide Inv, Map;
    RootAt(t);
    MapSound(t);
  }

  /** Entries there before are as they were, bar the children they have gained. */
  ghost predicate Extends(t: Tree, u: Tree) {
    |t.ents| <= |u.ents| && forall i :: 0 <= i < |t.ents| ==> SameName(t.ents[i], u.ents[i])
  }

  predicate SameName(x: Entry, y: Entry) {
    x.path == y.path && x.inode == y.inode && x.linkTo == y.linkTo && x.removed == y.removed && x.extraLinks == y.extraLinks
  }

  lemma ExtendsMore(t: Tree, u: Tree, p: Path, inode: Inode)
    requires p != [] && Extends(t, u)
    ensures Extends(t, Added(u, Fresh(p, inode, None)))
  {
    hide Added;
    var v := Added(u, Fresh(p, inode, None));
    forall i | 0 <= i < |t.ents| ensures SameName(t.ents[i], v.ents[i]) {
      assert SameName(t.ents[i], u.ents[i]);
      assert v.ents[i] == AddedEntry(u, Fresh(p, inode, None), i);
    }
  }

  /** Every entry that carries an inode still does, e aside. */
  ghost predicate OwnersStay(t: Tree, u: Tree, e: nat) {
    |u.ents| == |t.ents| && forall i :: 0 <= i < |t.ents| && i != e && t.ents[i].linkTo.None? ==>
      u.ents[i].linkTo.None? && u.ents[i].inode == t.ents[i].inode
  }

  lemma AliasStay(t: Tree, e: nat)
    requires e < |t.ents|
    ensures OwnersStay(t, AliasDropped(t, e), e)
  {
  }

  lemma OwnerStay(t: Tree, e: nat)
    requires e < |t.ents|
    ensures OwnersStay(t, OwnerDropped(t, e), e)
  {
  }

  lemma HandedStay(t: Tree, open: Open, e: nat, all: set<nat>, h: nat)
    requires Hands(t, open, e, all, h)
    ensures OwnersStay(t, Handed(t, e, all, h), e)
  {
    hide Inv, Heirs;
    HandsFacts(t, open, e, all, h);
  }

  lemma AddedLink(t: Tree, u: Tree, p: Path, o: nat)
    requires Inv(t, NONE) && p != [] && Live(t, o) && MayAdd(t, Fresh(p, AliasInode(t.ents[o].inode.kind), Some(o))) && HasHome(t, p)
    requires u == Added(t, Fresh(p, AliasInode(t.ents[o].inode.kind), Some(o)))
    ensures Inv(u, NONE) && Map(u) == Space(Map(t).at[p := t.ents[o].inode], Map(t).next)
  {
    hide InRange, Indexed, Parented, Listed, Linked, Serials, OpenOk, Added, View, HasHome;
    AddedKeeps(t, Fresh(p, AliasInode(t.ents[o].inode.kind), Some(o)));
    AddedView(t, Fresh(p, AliasInode(t.ents[o].inode.kind), Some(o)));
    RootAt(t);
  }

  /** What an alias's own entry holds: the type its dirent shows. */
  function AliasInode(kind: Kind): Inode {
    Inode(0, kind, Meta(0, [], None))
  }

  lemma NoMeta(n: Space, p: Path, meta: Meta)
    requires p !in n.at
    ensures SetMeta(n, p, meta) == Refuse(n, NotExist)
  {
  }

  lemma NothingThere(t: Tree, p: Path, kind: Kind)
    requires Inv(t, NONE) && p !in t.byPath
    ensures MayPlace(Map(t), p, kind) && InRange(t) && Indexed(t) && t.next == Map(t).next
  {
    hide Parented, Listed, Linked, Serials, OpenOk, Map;
    MapSound(t);
    At(t, p);
    RootAt(t);
  }

  /** What has several names is no directory. */
  lemma ManyNames(t: Tree, e: nat, kind: Kind)
    requires Inv(t, NONE) && Live(t, e) && (t.ents[e].linkTo.Some? || t.ents[e].extraLinks > 0)
    ensures !IsDir(t, e) && MayPlace(Map(t), t.ents[e].path, kind)
  {
    hide Inv, Map, HasChild;
    if t.ents[e].linkTo.Some? {
      AliasRange(t, NONE, e);
    } else {
      OwnerCount(t, NONE, e);
    }
    if HasChild(Map(t), t.ents[e].path) {
      NamedChild(t, e);
      OnlyDirs(t, e);
    }
  }

  lemma StillHome(t: Tree, u: Tree, p: Path)
    requires Inv(t, NONE) && Inv(u, NONE) && p != [] && HasHome(t, p) && Map(u) == Without(Map(t), {p})
    ensures HasHome(u, p) && p !in u.byPath && InRange(u) && Indexed(u) && u.next == t.next
  {
    hide Parented, Listed, Linked, Serials, OpenOk, Map;
    At(t, Dir(p));
    At(u, Dir(p));
    At(u, p);
    RootAt(t);
    RootAt(u);
  }

  lemma SameRecord(t: Tree, e: nat, inode: Inode)
    requires Live(t, e) && t.ents[e].linkTo.None? && t.ents[e].extraLinks == 0
    ensures Rewritten(t, e, inode, t.next + 1).ents == t.ents[e := t.ents[e].(inode := inode, linkTo := None, extraLinks := 0, removed := false)]
  {
  }

  lemma InPlace(t: Tree, e: nat, kind: Kind, meta: Meta)
    requires Inv(t, NONE) && Live(t, e) && e != ROOT && t.ents[e].linkTo.None? && t.ents[e].extraLinks == 0
    ensures var u := Rewritten(t, e, Inode(t.next, kind, meta), t.next + 1);
            && (Inv(u, NONE) <==> MayPlace(Map(t), t.ents[e].path, kind))
            && (Inv(u, NONE) ==> Map(u) == Space(Map(t).at[t.ents[e].path := Inode(t.next, kind, meta)], t.next + 1))
  {
    hide Inv, Map, HasChild, HasLive, Rewritten;
    var inode := Inode(t.next, kind, meta);
    var u := Rewritten(t, e, inode, t.next + 1);
    RewrittenInv(t, e, inode, t.next + 1);
    if HasLive(t, e) {
      LiveNamed(t, e);
    }
    if HasChild(Map(t), t.ents[e].path) {
      NamedChild(t, e);
    }
    if Inv(u, NONE) {
      Replaced(t, e, inode);
      RootAt(t);
    }
  }

  lemma PutBack(n: Space, p: Path, x: Inode)
    ensures Without(n, {p}).at[p := x] == n.at[p := x] && Without(n, {p}).next == n.next
  {
  }

  lemma NamedAt(t: Tree, e: nat)
    requires Inv(t, NONE) && Live(t, e)
    ensures t.ents[e].path in t.byPath && t.byPath[t.ents[e].path] == e
  {
    hide InRange, Parented, Listed, Linked, Serials, OpenOk;
  }

  lemma OwnerLives(t: Tree, u: Tree, e: nat, o: nat)
    requires Live(t, o) && t.ents[o].linkTo.None? && o != e && Drops(t, u, e) && OwnersStay(t, u, e)
    ensures Live(u, o) && u.ents[o].linkTo.None? && u.ents[o].inode == t.ents[o].inode
  {
    assert KeepsPlace(t, u, e, o);
  }

  /** Once its parent is ensured, p has a directory to go in; p itself and the rest are untouched. */
  lemma ParentThere(n: Space, p: Path)
    requires p != [] && [] in n.at && EnsureParent(n, p).Ok?
    ensures var m := EnsureParent(n, p).value;
            && Dir(p) in m.at && m.at[Dir(p)].kind == Directory && (p in m.at <==> p in n.at)
            && forall q :: q in n.at ==> q in m.at && m.at[q] == n.at[q]
  {
    hide MakeDirs;
    var d := Dir(p);
    var k := |Nearest(n.at, d)|;
    assert Nearest(n.at, d) == d[..k];
    MadeDirs(n, d, k, |d|);
    assert d[..|d|] == d;
    if p !in n.at {
      ParentMade(n, p);
    }
  }

  /** Where p is, so are its directories. */
  lemma ParentAlready(n: Space, p: Path)
    requires Sound(n) && p in n.at && p != []
    ensures EnsureParent(n, p) == Ok(n)
  {
  }

  lemma HomeThere(t: Tree, p: Path)
    requires Inv(t, NONE) && p != [] && Dir(p) in Map(t).at && Map(t).at[Dir(p)].kind == Directory
    ensures HasHome(t, p)
  {
    hide Inv, Map;
    At(t, Dir(p));
  }

  /** Making p's directories puts nothing below p. */
  lemma SameChildren(n: Space, p: Path, kind: Kind)
    requires p != [] && [] in n.at && EnsureParent(n, p).Ok?
    ensures MayPlace(EnsureParent(n, p).value, p, kind) <==> MayPlace(n, p, kind)
  {
    hide MakeDirs, Nearest;
    ParentThere(n, p);
    MadeAbove(n, Dir(p));
    var m := EnsureParent(n, p).value;
    if HasChild(m, p) {
      var q :| q in m.at && q != [] && Dir(q) == p;
      assert q in n.at;
    }
    if HasChild(n, p) {
      var q :| q in n.at && q != [] && Dir(q) == p;
      assert q in m.at;
    }
  }

  lemma {:induction false} MadeAbove(n: Space, d: Path)
    ensures forall q :: q in MakeDirs(n, d).at && q !in n.at ==> |q| <= |d|
    decreases |d|
  {
    if d !in n.at && d != [] {
      MadeAbove(n, Dir(d));
    }
  }

  /** A Writer's first tree: the root alone. */
  function Start(): Tree {
    Tree([Entry([], Inode(0, Directory, IMPLICIT), None, 0, ROOT, [], false)], map[[] := ROOT], 1)
  }

  lemma NewTree()
    ensures Inv(Start(), NONE) && Map(Start()) == Space(map[[] := Inode(0, Directory, IMPLICIT)], 1)
  {
    hide Hanging;
    var t := Start();
    NewShaped();
    NewLinked();
    forall p ensures p in View(t, NONE).at <==> p == [] {
      NothingHangs(p);
    }
    assert Map(t).at == map[[] := Inode(0, Directory, IMPLICIT)];
  }

  lemma NewShaped()
    ensures Shaped(Start(), NONE)
  {
  }

  lemma NewLinked()
    ensures InRange(Start()) && Linked(Start(), NONE) && Serials(Start())
  {
    var t := Start();
    assert |t.ents| == 1 && t.ents[ROOT].linkTo.None?;
    forall o ensures Aliases(t, o) == {} {
    }
  }

  lemma MapIs(t: Tree)
    requires Inv(t, NONE)
    ensures Map(t) == View(t, NONE)
  {
  }

  lemma LiveAt(t: Tree, p: Path)
    requires Inv(t, NONE) && p in t.byPath
    ensures var e := t.byPath[p]; Live(t, e) && e < |t.ents| && t.ents[e].path == p && (p != [] <==> e != ROOT) && Emptying(t, NONE, e)
    ensures p in Map(t).at && Map(t).at[p].kind == t.ents[t.byPath[p]].inode.kind
    ensures IsDir(t, t.byPath[p]) <==> t.ents[t.byPath[p]].inode.kind == Directory
  {
    hide Parented, Listed, Linked, Serials, OpenOk, Map;
    At(t, p);
  }

  lemma KidRange(t: Tree, e: nat, j: nat)
    requires Inv(t, NONE) && e < |t.ents| && j < |t.ents[e].children|
    ensures t.ents[e].children[j] < |t.ents|
  {
    hide Parented, Listed, Linked, Serials, OpenOk, Indexed;
  }

  lemma LiveKid(t: Tree, e: nat, j: nat)
    requires Inv(t, NONE) && Live(t, e) && j < |t.ents[e].children| && t.ents[e].children[j] < |t.ents| && !t.ents[t.ents[e].children[j]].removed
    ensures HasChild(Map(t), t.ents[e].path)
  {
    hide Inv, HasChild, Map;
    ChildNamed(t, e, j);
  }

  lemma NoKids(t: Tree, e: nat)
    requires Inv(t, NONE) && Live(t, e) && Seen(t, t.ents[e].children, |t.ents[e].children|)
    ensures !HasChild(Map(t), t.ents[e].path)
  {
    hide Inv, HasChild, Map, HasLive;
    if HasChild(Map(t), t.ents[e].path) {
      NamedChild(t, e);
    }
  }

  /** A name with nothing below it, dropped. */
  lemma Removed(t: Tree, u: Tree, e: nat)
    requires Inv(t, NONE) && Live(t, e) && e != ROOT && Drops(t, u, e) && (IsDir(t, e) ==> !HasChild(Map(t), t.ents[e].path))
    requires Inv(u, Opened(t, NONE, e)) && View(u, Opened(t, NONE, e)) == Without(View(t, NONE), Gone(t, NONE, e))
    ensures Inv(u, NONE) && Map(u) == Without(Map(t), {t.ents[e].path})
  {
    hide Parented, Listed, Linked, Serials, OpenOk, InRange, Indexed, Hanging, View;
    if IsDir(t, e) {
      ChildlessGone(t, e);
      ChildlessEmpty(t, u, e);
      Close(u, NONE, t.ents[e].path, e);
    }
  }

  lemma ChildlessGone(t: Tree, e: nat)
    requires Inv(t, NONE) && Live(t, e) && !HasChild(Map(t), t.ents[e].path)
    ensures Subtree(View(t, NONE), t.ents[e].path) == {t.ents[e].path} && Empty(t, t.ents[e].path)
  {
    hide Parented, Listed, Linked, Serials, OpenOk, InRange, Hanging, HasChild;
    var p := t.ents[e].path;
    At(t, p);
    forall q | q in t.byPath ensures !(p < q) {
      NothingHangs(q);
      if p < q {
        Climb(t, NONE, q, |p| + 1);
        At(t, q[..|p| + 1]);
        FirstStep(Map(t), p, q);
      }
    }
    forall q ensures q in Subtree(View(t, NONE), p) <==> q == p {
      At(t, q);
      assert p <= q <==> p == q || p < q;
    }
  }

  lemma FirstStep(n: Space, p: Path, q: Path)
    requires p < q && q[..|p| + 1] in n.at
    ensures HasChild(n, p)
  {
    assert Dir(q[..|p| + 1]) == p;
  }

  lemma ChildlessEmpty(t: Tree, u: Tree, e: nat)
    requires Drops(t, u, e) && Empty(t, t.ents[e].path)
    ensures Empty(u, t.ents[e].path)
  {
  }

  lemma OpenedEmptying(t: Tree, u: Tree, e: nat)
    requires Inv(t, NONE) && Live(t, e) && IsDir(t, e) && Drops(t, u, e)
    ensures Emptying(u, Opened(t, NONE, e), e)
  {
    hide Inv;
    assert KeepsPlace(t, u, e, e);
  }

  lemma NoneSeen(t: Tree, kids: seq<nat>)
    ensures Seen(t, kids, 0)
  {
  }

  lemma ThinnedInv(t: Tree, u: Tree, open: Open, p: Path)
    requires Thinned(t, u, open, p)
    ensures Inv(t, open) && Inv(u, open)
  {
  }

  lemma DroppedAt(t: Tree, u: Tree, c: nat)
    requires Drops(t, u, c)
    ensures |u.ents| == |t.ents| && u.ents[c].inode.kind == t.ents[c].inode.kind && u.ents[c].path == t.ents[c].path
  {
    assert KeepsPlace(t, u, c, c);
  }

  lemma AliasRange(t: Tree, open: Open, e: nat)
    requires Inv(t, open) && Live(t, e) && t.ents[e].linkTo.Some?
    ensures t.ents[e].linkTo.value < |t.ents| && t.ents[e].linkTo.value != e && !IsDir(t, e)
  {
    hide InRange, Parented, Listed, Indexed, OpenOk, Linked;
    AliasFacts(t, open, e);
    AliasInRange(t, e);
  }

  lemma AliasInRange(t: Tree, e: nat)
    requires InRange(t) && e < |t.ents| && t.ents[e].linkTo.Some?
    ensures t.ents[e].linkTo.value < |t.ents|
  {
  }

  lemma LeafGone(t: Tree, open: Open, e: nat)
    requires Inv(t, open) && Live(t, e) && !IsDir(t, e)
    ensures Gone(t, open, e) == {t.ents[e].path} && Opened(t, open, e) == open
  {
    hide InRange, Parented, Listed, Indexed, OpenOk, Linked, Serials;
  }

  lemma OwnerCount(t: Tree, open: Open, e: nat)
    requires Inv(t, open) && Live(t, e) && t.ents[e].linkTo.None?
    ensures t.ents[e].extraLinks == 0 ==> AllHang(t, open, e)
    ensures t.ents[e].extraLinks > 0 ==> !IsDir(t, e)
  {
    hide InRange, Parented, Listed, Indexed, OpenOk, Serials, Hanging;
    if t.ents[e].extraLinks > 0 {
      var a :| a in Aliases(t, e);
      assert AliasOk(t, open, a);
    }
  }

  lemma ElemsIn(found: seq<nat>, i: nat)
    ensures i in Elems(found) <==> i in found
  {
  }

  lemma NoHeirs(t: Tree, open: Open, e: nat, found: seq<nat>)
    requires Heirs(t, open, e, Elems(found)) && found == []
    ensures AllHang(t, open, e)
  {
  }

  lemma SomeHeir(t: Tree, open: Open, e: nat, found: seq<nat>)
    requires Heirs(t, open, e, Elems(found)) && found != []
    ensures !AllHang(t, open, e)
  {
    hide Hanging, Aliases;
    assert found[0] in Elems(found);
  }

  lemma LeastReleased(t: Tree, e: nat, all: set<nat>, h: nat)
    requires e < |t.ents| && IsLeast(Released(t, e), all, h)
    ensures IsLeast(t, all, h)
  {
    hide Leq, Join;
    forall i | 0 <= i < |t.ents| ensures Released(t, e).ents[i].path == t.ents[i].path {
    }
  }

  lemma HeirFacts(t: Tree, open: Open, e: nat, found: seq<nat>, h: nat)
    requires Inv(t, open) && Live(t, e) && t.ents[e].linkTo.None? && Heirs(t, open, e, Elems(found)) && IsLeast(t, Elems(found), h)
    ensures h in found && h in Elems(found) && h < |t.ents| && h != e
    ensures forall a :: a in found ==> a < |t.ents| && a != e && t.ents[a].linkTo == Some(e)
  {
    hide Inv;
    HandsFacts(t, open, e, Elems(found), h);
    forall a | a in found ensures a < |t.ents| && a != e && t.ents[a].linkTo == Some(e) {
      assert a in Elems(found);
    }
  }

  lemma ShallowRoot(t: Tree, open: Open)
    requires Shaped(t, open)
    ensures ROOT < |t.ents| && Shallow(t, ROOT, Deepest(t.ents))
  {
    hide Parented, Listed, Indexed, OpenOk;
  }
}
