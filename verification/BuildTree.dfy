/** The walk that turns a Writer's tree into the entries to be laid out (mkfs.go: buildErofsTree, linkCount). */
module BuildTree {
  import opened Bytes
  import opened Namespace
  import opened Entries
  import opened Growth
  import opened AliasWalk
  import opened TreeFacts

  /** The live entries bar the root: each is one dirent of the image. */
  function Others(t: Tree): set<nat> {
    set i | 0 < i < |t.ents| && !t.ents[i].removed
  }

  /** The live subdirectories of d. */
  function Subdirs(t: Tree, d: nat): set<nat> {
    set i | i in Others(t) && t.ents[i].parent == d && t.ents[i].inode.kind == Directory
  }

  /** The dirents that name o's inode. */
  function NamesOf(t: Tree, o: nat): set<nat> {
    set i | i in Others(t) && Owner(t, i) == o
  }

  /** The link count o's inode should have. */
  function LinksOf(t: Tree, o: nat): nat
    requires o < |t.ents|
  {
    match t.ents[o].inode.meta.nlink
    case Some(n) => n
    case None => if t.ents[o].inode.kind == Directory then 2 + |Subdirs(t, o)| else |NamesOf(t, o)|
  }

  lemma NamesCount(t: Tree, o: nat)
    requires Inv(t, NONE) && Live(t, o) && t.ents[o].linkTo.None? && o != ROOT
    ensures |NamesOf(t, o)| == 1 + t.ents[o].extraLinks
  {
    hide Parented, Listed, Serials, OpenOk, Indexed;
    assert o !in Aliases(t, o);
    assert NamesOf(t, o) == Aliases(t, o) + {o};
  }

  /** linkCount. */
  method LinkCount(t: Tree, e: nat) returns (n: nat)
    requires Inv(t, NONE) && Live(t, e) && t.ents[e].linkTo.None?
    ensures n == LinksOf(t, e)
  {
    hide Inv, Subdirs, NamesOf;
    var x := t.ents[e];
    if x.inode.meta.nlink.Some? {
      return x.inode.meta.nlink.value;
    }
    if x.inode.kind == Directory {
      var subdirs := 0;
      for j := 0 to |x.children|
        invariant subdirs == |SeenDirs(t, e, j)|
      {
        KidInside(t, e, j);
        SeenDirsStep(t, e, j);
        var c := x.children[j];
        if !t.ents[c].removed && t.ents[c].inode.kind == Directory {
          subdirs := subdirs + 1;
        }
      }
      AllDirsSeen(t, e);
      return 2 + subdirs;
    }
    NotRoot(t, e);
    NamesCount(t, e);
    return 1 + x.extraLinks;
  }

  /** The live subdirectories among d's first j children. */
  function SeenDirs(t: Tree, d: nat, j: nat): set<nat>
    requires d < |t.ents| && j <= |t.ents[d].children|
  {
    set i | i in t.ents[d].children[..j] && Live(t, i) && IsDir(t, i)
  }

  lemma SeenDirsStep(t: Tree, d: nat, j: nat)
    requires Inv(t, NONE) && d < |t.ents| && j < |t.ents[d].children|
    ensures var c := t.ents[d].children[j];
            |SeenDirs(t, d, j + 1)| == |SeenDirs(t, d, j)| + if Live(t, c) && IsDir(t, c) then 1 else 0
  {
    hide Parented, Linked, Serials, OpenOk, Indexed;
    var kids, c := t.ents[d].children, t.ents[d].children[j];
    assert kids[..j + 1] == kids[..j] + [c];
    if Live(t, c) && IsDir(t, c) {
      assert c !in kids[..j];
      assert SeenDirs(t, d, j + 1) == SeenDirs(t, d, j) + {c};
    } else {
      assert SeenDirs(t, d, j + 1) == SeenDirs(t, d, j);
    }
  }

  lemma AllDirsSeen(t: Tree, d: nat)
    requires Inv(t, NONE) && Live(t, d)
    ensures SeenDirs(t, d, |t.ents[d].children|) == Subdirs(t, d)
  {
    hide Linked, Serials, OpenOk, Indexed;
    var kids := t.ents[d].children;
    assert kids[..|kids|] == kids;
    forall i ensures i in SeenDirs(t, d, |kids|) <==> i in Subdirs(t, d) {
      if i in Subdirs(t, d) {
        assert HeldBy(t, NONE, i);
      }
    }
  }

  lemma KidInside(t: Tree, e: nat, j: nat)
    requires Inv(t, NONE) && e < |t.ents| && j < |t.ents[e].children|
    ensures ROOT < t.ents[e].children[j] < |t.ents|
  {
    hide Parented, Listed, Linked, Serials, OpenOk, Indexed;
  }

  lemma NotRoot(t: Tree, e: nat)
    requires Inv(t, NONE) && e < |t.ents| && t.ents[e].inode.kind != Directory
    ensures e != ROOT
  {
    hide Parented, Listed, Linked, Serials, OpenOk, Indexed;
  }

  // ---- The walk ----

  /** The live ones of d's first j children, in order. */
  function LiveKids(t: Tree, d: nat, j: nat): seq<nat>
    requires d < |t.ents| && j <= |t.ents[d].children|
  {
    if j == 0 then []
    else LiveKids(t, d, j - 1) + if Live(t, t.ents[d].children[j - 1]) then [t.ents[d].children[j - 1]] else []
  }

  /** The directories among them. */
  function DirKids(t: Tree, d: nat, j: nat): seq<nat>
    requires d < |t.ents| && j <= |t.ents[d].children|
  {
    if j == 0 then []
    else
      var c := t.ents[d].children[j - 1];
      DirKids(t, d, j - 1) + if Live(t, c) && IsDir(t, c) then [c] else []
  }

  lemma {:induction false} KidsAre(t: Tree, d: nat, j: nat)
    requires Inv(t, NONE) && d < |t.ents| && j <= |t.ents[d].children|
    ensures Distinct(LiveKids(t, d, j)) && forall i :: i in LiveKids(t, d, j) <==> i in t.ents[d].children[..j] && Live(t, i)
  {
    hide Inv, Live, Distinct;
    if j > 0 {
      KidsAre(t, d, j - 1);
      var kids, c := t.ents[d].children, t.ents[d].children[j - 1];
      assert kids[..j] == kids[..j - 1] + [c];
      if Live(t, c) {
        Once(t, d, j - 1);
        OneMore(LiveKids(t, d, j - 1), c);
      } else {
        assert LiveKids(t, d, j) == LiveKids(t, d, j - 1);
      }
    } else {
      Nothing();
    }
  }

  lemma {:induction false} DirsAre(t: Tree, d: nat, j: nat)
    requires Inv(t, NONE) && d < |t.ents| && j <= |t.ents[d].children|
    ensures Distinct(DirKids(t, d, j)) && forall i :: i in DirKids(t, d, j) <==> i in t.ents[d].children[..j] && Live(t, i) && IsDir(t, i)
  {
    hide Inv, Live, Distinct, IsDir;
    if j > 0 {
      DirsAre(t, d, j - 1);
      var kids, c := t.ents[d].children, t.ents[d].children[j - 1];
      assert kids[..j] == kids[..j - 1] + [c];
      if Live(t, c) && IsDir(t, c) {
        Once(t, d, j - 1);
        OneMore(DirKids(t, d, j - 1), c);
      } else {
        assert DirKids(t, d, j) == DirKids(t, d, j - 1);
      }
    } else {
      Nothing();
    }
  }

  lemma OneMore(s: seq<nat>, c: nat)
    requires Distinct(s) && c !in s
    ensures Distinct(s + [c])
  {
  }

  lemma Nothing()
    ensures Distinct([])
  {
  }

  lemma Once(t: Tree, d: nat, j: nat)
    requires Inv(t, NONE) && d < |t.ents| && j < |t.ents[d].children| && Live(t, t.ents[d].children[j])
    ensures t.ents[d].children[j] !in t.ents[d].children[..j]
  {
    hide Parented, Linked, Serials, OpenOk, Indexed;
  }

  lemma KidsOf(t: Tree, d: nat, i: nat)
    requires Inv(t, NONE) && d < |t.ents|
    ensures i in t.ents[d].children && Live(t, i) <==> i in Others(t) && t.ents[i].parent == d
  {
    hide Linked, Serials, OpenOk, Indexed;
    if i in Others(t) && t.ents[i].parent == d {
      assert HeldBy(t, NONE, i);
    }
  }

  /** rows are the dirents of the directories done; queue holds the directories met and not done. */
  ghost predicate Walked(t: Tree, done: set<nat>, queue: seq<nat>, rows: seq<nat>) {
    && Distinct(rows) && Distinct(queue)
    && (forall i :: i in rows <==> i in Others(t) && t.ents[i].parent in done)
    && (forall d :: d in queue <==> d !in done && Live(t, d) && IsDir(t, d) && (d == ROOT || d in rows))
    && (forall d :: d in done ==> d < |t.ents| && (d == ROOT || d in rows))
  }

  lemma WalkStart(t: Tree)
    requires Inv(t, NONE)
    ensures Walked(t, {}, [ROOT], [])
  {
    hide Parented, Listed, Linked, Serials, OpenOk, Indexed;
  }

  lemma WalkStep(t: Tree, done: set<nat>, queue: seq<nat>, rows: seq<nat>)
    requires Inv(t, NONE) && Walked(t, done, queue, rows) && queue != [] && queue[0] < |t.ents|
    ensures var d, n := queue[0], |t.ents[queue[0]].children|;
            && d !in done
            && Walked(t, done + {d}, queue[1..] + DirKids(t, d, n), rows + LiveKids(t, d, n))
  {
    hide Inv, LiveKids, DirKids;
    var d, n := queue[0], |t.ents[queue[0]].children|;
    var kids := t.ents[d].children;
    assert kids[..n] == kids;
    KidsAre(t, d, n);
    DirsAre(t, d, n);
    var live, dirs := LiveKids(t, d, n), DirKids(t, d, n);
    assert d in queue;
    forall i: nat ensures i in live <==> i in Others(t) && t.ents[i].parent == d {
      KidsOf(t, d, i);
    }
    DistinctConcat(rows, live);
    assert forall i :: i in dirs ==> i in live;
    assert ROOT !in live by { RootNoChild(t); }
    forall i | i in dirs ensures i !in queue[1..] && i !in done {
      assert i !in rows;
    }
    DistinctConcat(queue[1..], dirs);
  }

  lemma RootNoChild(t: Tree)
    ensures ROOT !in Others(t)
  {
  }

  /** With nothing left to do, every live entry has been met. */
  lemma {:induction false} WalkEnd(t: Tree, done: set<nat>, rows: seq<nat>, i: nat)
    requires Inv(t, NONE) && Walked(t, done, [], rows) && i in Others(t)
    ensures i in rows
    decreases |t.ents[i].path|
  {
    hide Listed, Linked, Serials, OpenOk;
    assert HeldBy(t, NONE, i);
    var up := t.ents[i].parent;
    if up != ROOT {
      WalkEnd(t, done, rows, up);
    }
    assert up in done;
  }

  /** What the walk keeps beside the dirents: link counts, the owners other names may want, and those names. */
  datatype Notes = Notes(links: map<nat, nat>, converted: set<nat>, aliases: seq<nat>)

  ghost predicate Noted(t: Tree, rows: seq<nat>, notes: Notes) {
    && (forall i :: i in rows ==> i < |t.ents|)
    && (forall i :: (i == ROOT || i in rows) && i < |t.ents| && t.ents[i].linkTo.None? ==> i in notes.links && notes.links[i] == LinksOf(t, i))
    && (forall i :: i in rows && i < |t.ents| && t.ents[i].linkTo.None? && t.ents[i].extraLinks > 0 ==> i in notes.converted)
    && (forall i :: i in notes.aliases <==> i in rows && i < |t.ents| && t.ents[i].linkTo.Some?)
  }

  lemma NoteAlias(t: Tree, rows: seq<nat>, notes: Notes, c: nat)
    requires Noted(t, rows, notes) && c < |t.ents| && t.ents[c].linkTo.Some? && t.ents[ROOT].linkTo.None?
    ensures Noted(t, rows + [c], notes.(aliases := notes.aliases + [c]))
  {
    hide LinksOf;
  }

  lemma NoteOwner(t: Tree, rows: seq<nat>, notes: Notes, c: nat)
    requires Noted(t, rows, notes) && c < |t.ents| && t.ents[c].linkTo.None?
    ensures Noted(t, rows + [c], notes.(links := notes.links[c := LinksOf(t, c)], converted := notes.converted + if t.ents[c].extraLinks > 0 then {c} else {}))
  {
    hide LinksOf;
  }

  /** One directory: its live children become dirents, its subdirectories are queued. */
  method ListDir(t: Tree, d: nat, queue0: seq<nat>, rows0: seq<nat>, notes0: Notes) returns (queue: seq<nat>, rows: seq<nat>, notes: Notes)
    requires Inv(t, NONE) && d < |t.ents| && Noted(t, rows0, notes0)
    ensures queue == queue0 + DirKids(t, d, |t.ents[d].children|) && rows == rows0 + LiveKids(t, d, |t.ents[d].children|)
    ensures Noted(t, rows, notes)
  {
    hide Inv, Noted, LinksOf, LiveKids, DirKids;
    queue, rows, notes := queue0, rows0, notes0;
    var kids := t.ents[d].children;
    KidsZero(t, d);
    for j := 0 to |kids|
      invariant queue == queue0 + DirKids(t, d, j) && rows == rows0 + LiveKids(t, d, j) && Noted(t, rows, notes)
    {
      var c := kids[j];
      KidInside(t, d, j);
      KidsNext(t, d, j);
      if !t.ents[c].removed {
        if t.ents[c].linkTo.Some? {
          AliasIsLeaf(t, c);
          NoteAlias(t, rows, notes, c);
          notes := notes.(aliases := notes.aliases + [c]);
        } else {
          var n := LinkCount(t, c);
          NoteOwner(t, rows, notes, c);
          notes := notes.(links := notes.links[c := n], converted := notes.converted + if t.ents[c].extraLinks > 0 then {c} else {});
          if t.ents[c].inode.kind == Directory {
            queue := queue + [c];
          }
        }
        rows := rows + [c];
      }
    }
  }

  lemma KidsZero(t: Tree, d: nat)
    requires d < |t.ents|
    ensures LiveKids(t, d, 0) == [] && DirKids(t, d, 0) == []
  {
  }

  lemma KidsNext(t: Tree, d: nat, j: nat)
    requires d < |t.ents| && j < |t.ents[d].children| && t.ents[d].children[j] < |t.ents|
    ensures var x := t.ents[t.ents[d].children[j]];
            && LiveKids(t, d, j + 1) == LiveKids(t, d, j) + (if x.removed then [] else [t.ents[d].children[j]])
            && DirKids(t, d, j + 1) == DirKids(t, d, j) + (if x.removed || x.inode.kind != Directory then [] else [t.ents[d].children[j]])
  {
  }

  lemma AliasIsLeaf(t: Tree, c: nat)
    requires Inv(t, NONE) && c < |t.ents| && !t.ents[c].removed && t.ents[c].linkTo.Some?
    ensures t.ents[c].inode.kind != Directory && t.ents[ROOT].linkTo.None?
  {
    hide Parented, Listed, Serials, OpenOk, Indexed, Hanging;
    assert AliasOk(t, NONE, c);
  }

  /** An alias's target carries an inode, and counts it. */
  lemma TargetConverted(t: Tree, rows: seq<nat>, notes: Notes, a: nat)
    requires Inv(t, NONE) && Noted(t, rows, notes) && (forall i :: i in rows <==> i in Others(t)) && a in notes.aliases
    ensures a < |t.ents| && t.ents[a].linkTo.Some? && t.ents[a].linkTo.value in notes.converted
  {
    hide Parented, Listed, Serials, OpenOk, Indexed, Hanging, LinksOf;
    NothingHangs(t.ents[a].path);
    assert AliasOk(t, NONE, a);
    var o := t.ents[a].linkTo.value;
    assert a in Aliases(t, o);
    assert o in rows;
  }

  /** buildErofsTree: each live name is one dirent, each alias is wired to the entry that carries its inode, none is left without one, and each inode gets its link count. */
  method Build(t: Tree) returns (rows: seq<nat>, links: map<nat, nat>, wired: map<nat, nat>, missing: bool)
    requires Inv(t, NONE)
    ensures Distinct(rows) && forall i :: i in rows <==> i in Others(t)
    ensures !missing
    ensures forall a :: a in rows && a < |t.ents| && t.ents[a].linkTo.Some? ==> a in wired && wired[a] == Owner(t, a)
    ensures forall o :: 0 <= o < |t.ents| && !t.ents[o].removed && t.ents[o].linkTo.None? ==> o in links && links[o] == LinksOf(t, o)
  {
    hide Inv, Walked, Noted, LinksOf, Others, Distinct, Live, Subdirs, NamesOf;
    RootFacts(t);
    var n := LinkCount(t, ROOT);
    var queue, notes := [ROOT], Notes(map[ROOT := n], {}, []);
    rows := [];
    ghost var done: set<nat> := {};
    WalkStart(t);
    NotedStart(t, notes);
    while queue != []
      invariant Walked(t, done, queue, rows) && Noted(t, rows, notes)
      decreases |AllIds(t) - done|
    {
      var d := queue[0];
      QueueHead(t, done, queue, rows);
      WalkStep(t, done, queue, rows);
      LessToDo(t, done, d);
      done := done + {d};
      queue, rows, notes := ListDir(t, d, queue[1..], rows, notes);
    }
    AllMet(t, done, rows);
    links, missing, wired := notes.links, false, map[];
    for j := 0 to |notes.aliases|
      invariant !missing
      invariant forall k :: 0 <= k < j ==> Wired(t, wired, notes.aliases[k])
    {
      var a := notes.aliases[j];
      TargetConverted(t, rows, notes, a);
      var o := t.ents[a].linkTo.value;
      if o !in notes.converted {
        missing := true;
      } else {
        wired := wired[a := o];
      }
    }
    Finished(t, rows, notes, wired);
  }

  predicate Wired(t: Tree, wired: map<nat, nat>, a: nat) {
    a < |t.ents| && a in wired && wired[a] == Owner(t, a)
  }

  predicate IsId(t: Tree, i: nat) {
    i < |t.ents|
  }

  function AllIds(t: Tree): set<nat> {
    set i | 0 <= i < |t.ents| && IsId(t, i)
  }

  lemma LessToDo(t: Tree, done: set<nat>, d: nat)
    requires d < |t.ents| && d !in done
    ensures |AllIds(t) - (done + {d})| < |AllIds(t) - done|
  {
    assert IsId(t, d);
    assert AllIds(t) - done == (AllIds(t) - (done + {d})) + {d};
  }

  lemma RootFacts(t: Tree)
    requires Inv(t, NONE)
    ensures ROOT < |t.ents| && Live(t, ROOT) && t.ents[ROOT].linkTo.None?
  {
    hide Parented, Listed, Linked, Serials, OpenOk, Indexed;
  }

  lemma NotedStart(t: Tree, notes: Notes)
    requires ROOT < |t.ents| && notes.links == map[ROOT := LinksOf(t, ROOT)] && notes.converted == {} && notes.aliases == []
    ensures Noted(t, [], notes)
  {
  }

  lemma QueueHead(t: Tree, done: set<nat>, queue: seq<nat>, rows: seq<nat>)
    requires Walked(t, done, queue, rows) && queue != []
    ensures queue[0] < |t.ents|
  {
    assert queue[0] in queue;
  }

  lemma AllMet(t: Tree, done: set<nat>, rows: seq<nat>)
    requires Inv(t, NONE) && Walked(t, done, [], rows)
    ensures Distinct(rows) && forall i :: i in rows <==> i in Others(t)
  {
    hide Inv, Others;
    forall i: nat | i in Others(t) ensures i in rows {
      WalkEnd(t, done, rows, i);
    }
  }

  lemma Finished(t: Tree, rows: seq<nat>, notes: Notes, wired: map<nat, nat>)
    requires Inv(t, NONE) && Noted(t, rows, notes) && (forall i :: i in rows <==> i in Others(t))
    requires forall k :: 0 <= k < |notes.aliases| ==> Wired(t, wired, notes.aliases[k])
    ensures forall a :: a in rows && a < |t.ents| && t.ents[a].linkTo.Some? ==> a in wired && wired[a] == Owner(t, a)
    ensures forall o :: 0 <= o < |t.ents| && !t.ents[o].removed && t.ents[o].linkTo.None? ==> o in notes.links && notes.links[o] == LinksOf(t, o)
  {
    hide Inv, LinksOf;
    forall a | a in rows && a < |t.ents| && t.ents[a].linkTo.Some? ensures Wired(t, wired, a) {
      assert a in notes.aliases;
    }
  }
}
