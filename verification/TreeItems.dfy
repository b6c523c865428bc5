/** A Writer's tree as the items of an image: the order they are collected in, what each is, and where paths lead among them (mkfs.go: buildErofsTree; layout.go: planLayout). */
module TreeItems {
  import opened Bytes
  import opened Names
  import opened Namespace
  import opened Entries
  import opened TreeFacts
  import opened AliasWalk
  import opened BuildTree
  import D = DirCodec
  import W = ImageWriter
  import P = ImagePaths

  // ---- Link counts, said of the map ----

  /** The names of an inode. */
  function PathsOf(n: Space, serial: nat): set<Path> {
    set p | p in n.at && n.at[p].serial == serial
  }

  /** The directories in the directory p. */
  function DirsIn(n: Space, p: Path): set<Path> {
    set q | q in n.at && q != [] && Dir(q) == p && n.at[q].kind == Directory
  }

  /** The link count of the inode at p: what was set by hand, two and the directories inside, or the number of its names. */
  function CountAt(n: Space, p: Path): nat
    requires p in n.at
  {
    match n.at[p].meta.nlink
    case Some(k) => k
    case None => if n.at[p].kind == Directory then 2 + |DirsIn(n, p)| else |PathsOf(n, n.at[p].serial)|
  }

  /** Live entries are as many as their paths. */
  lemma {:induction false} AsMany(t: Tree, ids: set<nat>, paths: set<Path>)
    requires Indexed(t)
    requires forall i :: i in ids ==> Live(t, i) && t.ents[i].path in paths
    requires forall p :: p in paths ==> p in t.byPath && t.byPath[p] in ids
    ensures |ids| == |paths|
  {
    if ids == {} {
      assert paths == {};
    } else {
      var i :| i in ids;
      var p := t.ents[i].path;
      assert t.byPath[p] == i;
      forall j | j in ids - {i} ensures t.ents[j].path in paths - {p} {
        assert t.byPath[t.ents[j].path] == j;
      }
      forall q | q in paths - {p} ensures t.byPath[q] in ids - {i} {
        assert t.ents[t.byPath[q]].path == q;
      }
      AsMany(t, ids - {i}, paths - {p});
      assert |ids| == |ids - {i}| + 1 && |paths| == |paths - {p}| + 1;
    }
  }

  lemma NamesMean(t: Tree, p: Path)
    requires Inv(t, NONE) && p in Map(t).at && Map(t).at[p].kind != Directory
    ensures p in t.byPath && |NamesOf(t, Owner(t, t.byPath[p]))| == |PathsOf(Map(t), Map(t).at[p].serial)|
  {
    hide Parented, Listed, Linked, Serials, OpenOk, InRange, Indexed, Map;
    At(t, p);
    var o, s := Owner(t, t.byPath[p]), Map(t).at[p].serial;
    var ids, paths := NamesOf(t, o), PathsOf(Map(t), s);
    RootAt(t);
    forall i | i in ids ensures Live(t, i) && t.ents[i].path in paths {
      IndexOf(t, i);
      At(t, t.ents[i].path);
    }
    forall q | q in paths ensures q in t.byPath && t.byPath[q] in ids {
      At(t, q);
      SameSerial(t, Owner(t, t.byPath[q]), o);
      MapSound(t);
    }
    AsMany(t, ids, paths);
  }

  lemma DirsMean(t: Tree, p: Path)
    requires Inv(t, NONE) && p in Map(t).at && Map(t).at[p].kind == Directory
    ensures p in t.byPath && |Subdirs(t, t.byPath[p])| == |DirsIn(Map(t), p)|
  {
    hide Listed, Linked, Serials, OpenOk, Indexed, Map;
    At(t, p);
    var d := t.byPath[p];
    var ids, paths := Subdirs(t, d), DirsIn(Map(t), p);
    forall i | i in ids ensures Live(t, i) && t.ents[i].path in paths {
      IndexOf(t, i);
      At(t, t.ents[i].path);
      assert HeldBy(t, NONE, i);
    }
    forall q | q in paths ensures q in t.byPath && t.byPath[q] in ids {
      At(t, q);
      assert HeldBy(t, NONE, t.byPath[q]);
    }
    AsMany(t, ids, paths);
  }

  /** The count the walk gives an inode is the one the map says it has. */
  lemma CountMeans(t: Tree, p: Path)
    requires Inv(t, NONE) && p in Map(t).at
    ensures p in t.byPath && Owner(t, t.byPath[p]) < |t.ents| && LinksOf(t, Owner(t, t.byPath[p])) == CountAt(Map(t), p)
  {
    hide Inv, Map, NamesOf, Subdirs, PathsOf, DirsIn;
    At(t, p);
    if Map(t).at[p].kind == Directory {
      DirsMean(t, p);
    } else {
      NamesMean(t, p);
    }
  }

  // ---- A directory's names in order ----

  /** The last element of an entry's path. */
  function NameOf(t: Tree, i: nat): Name {
    if i < |t.ents| && t.ents[i].path != [] then t.ents[i].path[|t.ents[i].path| - 1] else []
  }

  function InsertId(t: Tree, i: nat, ids: seq<nat>): seq<nat> {
    if ids == [] || Less(NameOf(t, i), NameOf(t, ids[0])) then [i] + ids else [ids[0]] + InsertId(t, i, ids[1..])
  }

  /** The entries by name. */
  function SortIds(t: Tree, ids: seq<nat>): seq<nat> {
    if ids == [] then [] else InsertId(t, ids[0], SortIds(t, ids[1..]))
  }

  /** Names never fall. */
  predicate Ascends(t: Tree, ids: seq<nat>) {
    forall i, j :: 0 <= i < j < |ids| ==> Leq(NameOf(t, ids[i]), NameOf(t, ids[j]))
  }

  lemma {:induction false} InsertIs(t: Tree, i: nat, ids: seq<nat>)
    requires Distinct(ids) && i !in ids && Ascends(t, ids)
    ensures Distinct(InsertId(t, i, ids)) && Ascends(t, InsertId(t, i, ids))
    ensures forall k :: k in InsertId(t, i, ids) <==> k == i || k in ids
  {
    hide Less, NameOf;
    if ids == [] {
    } else if Less(NameOf(t, i), NameOf(t, ids[0])) {
      forall k | 0 <= k < |ids| ensures Leq(NameOf(t, i), NameOf(t, ids[k])) {
        BeforeAll(NameOf(t, i), NameOf(t, ids[0]), NameOf(t, ids[k]));
      }
    } else {
      var x, rest := ids[0], ids[1..];
      assert ids == [x] + rest && x !in rest;
      InsertIs(t, i, rest);
      NotLess(NameOf(t, i), NameOf(t, x));
      var r := InsertId(t, i, rest);
      forall k | 0 <= k < |r| ensures x != r[k] && Leq(NameOf(t, x), NameOf(t, r[k])) {
        assert r[k] in r;
        if r[k] in rest {
          var m :| 0 <= m < |rest| && rest[m] == r[k];
          assert ids[m + 1] == r[k];
        }
      }
    }
  }

  lemma BeforeAll(a: Name, b: Name, c: Name)
    requires Less(a, b) && Leq(b, c)
    ensures Leq(a, c)
  {
    hide Less;
    if b != c {
      Transitive(a, b, c);
    }
  }

  lemma NotLess(a: Name, b: Name)
    requires !Less(a, b)
    ensures Leq(b, a)
  {
    Trichotomy(a, b);
  }

  lemma {:induction false} SortIs(t: Tree, ids: seq<nat>)
    requires Distinct(ids)
    ensures Distinct(SortIds(t, ids)) && Ascends(t, SortIds(t, ids)) && forall k :: k in SortIds(t, ids) <==> k in ids
  {
    hide NameOf, InsertId;
    if ids != [] {
      assert ids == [ids[0]] + ids[1..] && ids[0] !in ids[1..];
      SortIs(t, ids[1..]);
      InsertIs(t, ids[0], SortIds(t, ids[1..]));
    }
  }

  /** The live names in the directory e, by name. */
  function Listing(t: Tree, e: nat): seq<nat>
    requires e < |t.ents|
  {
    SortIds(t, LiveKids(t, e, |t.ents[e].children|))
  }

  lemma ListingIs(t: Tree, e: nat)
    requires Inv(t, NONE) && e < |t.ents|
    ensures Distinct(Listing(t, e)) && Ascends(t, Listing(t, e))
    ensures forall i :: i in Listing(t, e) <==> i in t.ents[e].children && Live(t, i)
  {
    hide Inv, LiveKids, SortIds, Ascends, Distinct;
    var n := |t.ents[e].children|;
    KidsAre(t, e, n);
    assert t.ents[e].children[..n] == t.ents[e].children;
    SortIs(t, LiveKids(t, e, n));
  }

  // ---- The order of the inodes ----

  /** i carries an inode at or below e. */
  predicate Under(t: Tree, e: nat, i: nat)
    requires e < |t.ents|
  {
    Live(t, i) && t.ents[i].linkTo.None? && t.ents[e].path <= t.ents[i].path
  }

  /** No live path is longer than e's by more than room. */
  ghost predicate Room(t: Tree, e: nat, room: nat)
    requires e < |t.ents|
  {
    forall i :: 0 <= i < |t.ents| && !t.ents[i].removed ==> |t.ents[i].path| <= |t.ents[e].path| + room
  }

  /** Nothing lies below what is no directory, and what lies below a directory lies at or below one of its children. */
  lemma Below(t: Tree, e: nat, i: nat)
    requires Inv(t, NONE) && Live(t, e) && Live(t, i) && t.ents[e].path <= t.ents[i].path && i != e
    ensures IsDir(t, e) && t.ents[e].linkTo.None?
    ensures exists c :: c in Listing(t, e) && c < |t.ents| && t.ents[c].path <= t.ents[i].path
  {
    hide Listed, Linked, Serials, OpenOk, Parented, InRange, Listing, Hanging;
    var p, q := t.ents[e].path, t.ents[i].path;
    IndexOf(t, e);
    IndexOf(t, i);
    assert p != q;
    NothingHangs(q);
    Climb(t, NONE, q, |p|);
    Climb(t, NONE, q, |p| + 1);
    assert q[..|p|] == p;
    At(t, p);
    var c := t.byPath[q[..|p| + 1]];
    ChildOf(t, e, c);
  }

  lemma ChildOf(t: Tree, e: nat, c: nat)
    requires Inv(t, NONE) && Live(t, e) && Live(t, c) && t.ents[c].path != [] && Dir(t.ents[c].path) == t.ents[e].path
    ensures c in Listing(t, e)
  {
    hide Listed, Linked, Serials, OpenOk, Listing;
    IndexOf(t, e);
    assert HeldBy(t, NONE, c);
    ListingIs(t, e);
  }

  lemma KidPath(t: Tree, e: nat, c: nat)
    requires Inv(t, NONE) && Live(t, e) && c in Listing(t, e)
    ensures Live(t, c) && t.ents[c].path != [] && Dir(t.ents[c].path) == t.ents[e].path && c < |t.ents|
  {
    hide Linked, Serials, OpenOk, Listing, Indexed;
    ListingIs(t, e);
    KidsOf(t, e, c);
    assert HeldBy(t, NONE, c);
  }

  /** Two children with something in common below them are one. */
  lemma KidsApart(t: Tree, e: nat, a: nat, b: nat, i: nat)
    requires Inv(t, NONE) && Live(t, e) && i < |t.ents|
    requires a in Listing(t, e) && b in Listing(t, e) && a < |t.ents| && b < |t.ents|
    requires t.ents[a].path <= t.ents[i].path && t.ents[b].path <= t.ents[i].path
    ensures a == b
  {
    hide Inv, Listing;
    KidPath(t, e, a);
    KidPath(t, e, b);
    var n := |t.ents[e].path| + 1;
    assert t.ents[a].path == t.ents[i].path[..n] == t.ents[b].path;
    SameIndex(t, a, b);
  }

  lemma SameIndex(t: Tree, a: nat, b: nat)
    requires Inv(t, NONE) && Live(t, a) && Live(t, b) && t.ents[a].path == t.ents[b].path
    ensures a == b
  {
    hide Listed, Linked, Serials, OpenOk, Parented, InRange;
  }

  /** Paths element by element, a directory before what lies below it. */
  predicate PathLess(p: Path, q: Path) {
    q != [] && (p == [] || Less(p[0], q[0]) || (p[0] == q[0] && PathLess(p[1..], q[1..])))
  }

  /** The entries come in the order of their paths. */
  predicate InPathOrder(t: Tree, ids: seq<nat>) {
    forall i, j :: 0 <= i < j < |ids| && ids[i] < |t.ents| && ids[j] < |t.ents| ==> PathLess(t.ents[ids[i]].path, t.ents[ids[j]].path)
  }

  lemma {:induction false} PrefixLess(p: Path, q: Path)
    requires p < q
    ensures PathLess(p, q)
  {
    hide Less;
    if p != [] {
      assert p[0] == q[0] && p[1..] < q[1..];
      PrefixLess(p[1..], q[1..]);
    }
  }

  /** Paths that part below a common directory are in the order of the names they part by. */
  lemma {:induction false} PartLess(d: Path, p: Path, q: Path)
    requires d < p && d < q && Less(p[|d|], q[|d|])
    ensures PathLess(p, q)
  {
    hide Less;
    if d != [] {
      assert p[0] == d[0] == q[0] && d[1..] < p[1..] && d[1..] < q[1..];
      PartLess(d[1..], p[1..], q[1..]);
    }
  }

  /** What lies under an earlier child comes before what lies under a later one. */
  lemma KidsOrdered(t: Tree, e: nat, j: nat, k: nat, x: nat, y: nat)
    requires Inv(t, NONE) && Live(t, e) && j < k < |Listing(t, e)| && Listing(t, e)[j] < |t.ents| && Listing(t, e)[k] < |t.ents|
    requires Under(t, Listing(t, e)[j], x) && Under(t, Listing(t, e)[k], y)
    ensures PathLess(t.ents[x].path, t.ents[y].path)
  {
    hide Inv, Listing, Less, PathLess;
    var a, b, d := Listing(t, e)[j], Listing(t, e)[k], t.ents[e].path;
    KidPath(t, e, a);
    KidPath(t, e, b);
    ListingIs(t, e);
    var p, q := t.ents[x].path, t.ents[y].path;
    assert p[|d|] == NameOf(t, a) && q[|d|] == NameOf(t, b);
    if NameOf(t, a) == NameOf(t, b) {
      assert t.ents[a].path == d + [NameOf(t, a)] && t.ents[b].path == d + [NameOf(t, b)];
      SameIndex(t, a, b);
    }
    assert d < p && d < q;
    PartLess(d, p, q);
  }

  /** What the first j children of e and e itself contribute. */
  ghost predicate Collected(t: Tree, e: nat, kids: seq<nat>, j: nat, out: seq<nat>)
    requires e < |t.ents| && j <= |kids| && forall k :: 0 <= k < |kids| ==> kids[k] < |t.ents|
  {
    && Distinct(out) && out != [] && out[0] == e && InPathOrder(t, out)
    && forall i :: i in out <==> i == e || exists k :: 0 <= k < j && Under(t, kids[k], i)
  }

  lemma CollectStep(t: Tree, e: nat, j: nat, out: seq<nat>, more: seq<nat>)
    requires Inv(t, NONE) && Live(t, e)
    requires var kids := Listing(t, e);
             && j < |kids| && (forall k :: 0 <= k < |kids| ==> kids[k] < |t.ents|)
             && Collected(t, e, kids, j, out) && Distinct(more) && InPathOrder(t, more) && forall i :: i in more <==> Under(t, kids[j], i)
    ensures Collected(t, e, Listing(t, e), j + 1, out + more)
  {
    hide Inv, Listing;
    var kids := Listing(t, e);
    ListingIs(t, e);
    forall i | i in more ensures i !in out {
      KidPath(t, e, kids[j]);
      if k :| 0 <= k < j && Under(t, kids[k], i) {
        KidsApart(t, e, kids[k], kids[j], i);
      }
    }
    DistinctConcat(out, more);
    forall x: nat, y: nat | x < |out| && y < |more| ensures Before(t, out[x], more[y]) {
      CollectedBefore(t, e, j, out, more, x, y);
    }
    OrderConcat(t, out, more);
  }

  predicate Before(t: Tree, a: nat, b: nat) {
    a < |t.ents| && b < |t.ents| && PathLess(t.ents[a].path, t.ents[b].path)
  }

  lemma CollectedBefore(t: Tree, e: nat, j: nat, out: seq<nat>, more: seq<nat>, x: nat, y: nat)
    requires Inv(t, NONE) && Live(t, e)
    requires var kids := Listing(t, e);
             && j < |kids| && (forall k :: 0 <= k < |kids| ==> kids[k] < |t.ents|)
             && Collected(t, e, kids, j, out) && forall i :: i in more <==> Under(t, kids[j], i)
    requires x < |out| && y < |more|
    ensures Before(t, out[x], more[y])
  {
    hide Inv, Listing, PathLess, InPathOrder, Distinct;
    var kids := Listing(t, e);
    assert out[x] in out && more[y] in more;
    assert Under(t, kids[j], more[y]);
    if out[x] == e {
      KidPath(t, e, kids[j]);
      PrefixLess(t.ents[e].path, t.ents[more[y]].path);
    } else {
      var k :| 0 <= k < j && Under(t, kids[k], out[x]);
      KidsOrdered(t, e, k, j, out[x], more[y]);
    }
  }

  lemma OrderConcat(t: Tree, a: seq<nat>, b: seq<nat>)
    requires InPathOrder(t, a) && InPathOrder(t, b)
    requires forall x: nat, y: nat :: x < |a| && y < |b| ==> Before(t, a[x], b[y])
    ensures InPathOrder(t, a + b)
  {
    hide PathLess;
    var s := a + b;
    forall i, j | 0 <= i < j < |s| && s[i] < |t.ents| && s[j] < |t.ents| ensures PathLess(t.ents[s[i]].path, t.ents[s[j]].path) {
      if j < |a| {
        assert s[i] == a[i] && s[j] == a[j];
      } else if i >= |a| {
        assert s[i] == b[i - |a|] && s[j] == b[j - |a|];
      } else {
        assert s[i] == a[i] && s[j] == b[j - |a|] && Before(t, a[i], b[j - |a|]);
      }
    }
  }

  /** planLayout's walk: each inode once, in the order of the paths they are found at, aliases passed over. */
  method Collect(t: Tree, e: nat, ghost room: nat) returns (out: seq<nat>)
    requires Inv(t, NONE) && Live(t, e) && t.ents[e].linkTo.None? && Room(t, e, room)
    ensures Distinct(out) && out != [] && out[0] == e && InPathOrder(t, out) && forall i :: i in out <==> Under(t, e, i)
    decreases room
  {
    hide Inv, Listing, Collected, Under, Room, Distinct, InPathOrder;
    out := [e];
    SelfOnly(t, e);
    if t.ents[e].inode.kind == Directory {
      var kids := Listing(t, e);
      KidsInside(t, e);
      NoneCollected(t, e, kids);
      for j := 0 to |kids|
        invariant Collected(t, e, kids, j, out)
      {
        KidPath(t, e, kids[j]);
        var more: seq<nat> := [];
        if t.ents[kids[j]].linkTo.None? {
          LessRoom(t, e, kids[j], room);
          more := Collect(t, kids[j], room - 1);
        } else {
          AliasLeaf(t, kids[j]);
        }
        CollectStep(t, e, j, out, more);
        out := out + more;
      }
      AllCollected(t, e, out);
    } else {
      LeafOnly(t, e);
    }
  }

  lemma SelfOnly(t: Tree, e: nat)
    requires Live(t, e) && t.ents[e].linkTo.None?
    ensures Under(t, e, e) && Distinct([e]) && Distinct([]) && InPathOrder(t, [e]) && InPathOrder(t, [])
  {
  }

  lemma KidsInside(t: Tree, e: nat)
    requires Inv(t, NONE) && Live(t, e)
    ensures forall k :: 0 <= k < |Listing(t, e)| ==> Listing(t, e)[k] < |t.ents|
  {
    hide Inv, Listing;
    var kids := Listing(t, e);
    forall k | 0 <= k < |kids| ensures kids[k] < |t.ents| {
      KidPath(t, e, kids[k]);
    }
  }

  lemma NoneCollected(t: Tree, e: nat, kids: seq<nat>)
    requires e < |t.ents| && forall k :: 0 <= k < |kids| ==> kids[k] < |t.ents|
    ensures Collected(t, e, kids, 0, [e])
  {
  }

  lemma LessRoom(t: Tree, e: nat, c: nat, room: nat)
    requires e < |t.ents| && c < |t.ents| && Live(t, c) && Room(t, e, room) && t.ents[c].path != [] && Dir(t.ents[c].path) == t.ents[e].path
    ensures room > 0 && Room(t, c, room - 1)
  {
  }

  lemma AliasLeaf(t: Tree, c: nat)
    requires Inv(t, NONE) && Live(t, c) && t.ents[c].linkTo.Some?
    ensures forall i :: i in [] <==> Under(t, c, i)
  {
    hide Inv;
    forall i: nat | Under(t, c, i) ensures false {
      Below(t, c, i);
    }
  }

  lemma LeafOnly(t: Tree, e: nat)
    requires Inv(t, NONE) && Live(t, e) && t.ents[e].linkTo.None? && t.ents[e].inode.kind != Directory
    ensures forall i :: i in [e] <==> Under(t, e, i)
  {
    hide Inv, Listing;
    forall i: nat | Under(t, e, i) ensures i == e {
      if i != e {
        Below(t, e, i);
      }
    }
  }

  lemma AllCollected(t: Tree, e: nat, out: seq<nat>)
    requires Inv(t, NONE) && Live(t, e) && t.ents[e].linkTo.None?
    requires var kids := Listing(t, e);
             (forall k :: 0 <= k < |kids| ==> kids[k] < |t.ents|) && Collected(t, e, kids, |kids|, out)
    ensures Distinct(out) && out != [] && out[0] == e && InPathOrder(t, out) && forall i :: i in out <==> Under(t, e, i)
  {
    hide Inv, Listing, PathLess;
    var kids := Listing(t, e);
    forall i: nat ensures i in out <==> Under(t, e, i) {
      if Under(t, e, i) && i != e {
        Below(t, e, i);
        var c :| c in kids && c < |t.ents| && t.ents[c].path <= t.ents[i].path;
        var k :| 0 <= k < |kids| && kids[k] == c;
        assert Under(t, kids[k], i);
      }
      if k :| 0 <= k < |kids| && Under(t, kids[k], i) {
        KidPath(t, e, kids[k]);
        assert t.ents[e].path <= t.ents[kids[k]].path <= t.ents[i].path;
      }
    }
  }

  // ---- The items ----

  /** modeToFileType. */
  function FileType(mode: nat): byte {
    match mode / 0x1000
    case 1 => 5
    case 2 => 3
    case 4 => D.TYPE_DIR
    case 6 => 4
    case 8 => 1
    case 10 => D.TYPE_SYMLINK
    case 12 => 6
    case _ => 0
  }

  /** What the rest of a Writer knows of inodes: metadata, attributes and, where one is no directory, what it holds. */
  type Look = Inode -> W.Item

  /** Type bits say directory of directories and link of links alone, and nothing else is written as one. */
  predicate LooksRight(look: Look, x: Inode) {
    && (FileType(look(x).attr.mode) == D.TYPE_DIR <==> x.kind == Directory)
    && (FileType(look(x).attr.mode) == D.TYPE_SYMLINK <==> x.kind == Symlink)
    && (x.kind != Directory ==> !look(x).body.Dir? && (look(x).body.Link? <==> x.kind == Symlink))
  }

  /** Where e is among the inodes collected. */
  function IndexIn(order: seq<nat>, e: nat): (k: nat)
    ensures e in order ==> k < |order| && order[k] == e
  {
    if order == [] || order[0] == e then 0 else 1 + IndexIn(order[1..], e)
  }

  function InodeOf(t: Tree, i: nat): Inode
    requires i < |t.ents| && Owner(t, i) < |t.ents|
  {
    t.ents[Owner(t, i)].inode
  }

  /** A live name as its directory lists it. */
  function KidOf(t: Tree, order: seq<nat>, look: Look, i: nat): W.Kid
    requires i < |t.ents| && Owner(t, i) < |t.ents| && t.ents[i].path != []
  {
    var p := t.ents[i].path;
    W.Kid(p[|p| - 1], IndexIn(order, Owner(t, i)), FileType(look(InodeOf(t, i)).attr.mode))
  }

  predicate Listable(t: Tree, ids: seq<nat>) {
    forall k :: 0 <= k < |ids| ==> ids[k] < |t.ents| && Owner(t, ids[k]) < |t.ents| && t.ents[ids[k]].path != []
  }

  function KidsOfAll(t: Tree, order: seq<nat>, look: Look, ids: seq<nat>): (ks: seq<W.Kid>)
    requires Listable(t, ids)
    ensures |ks| == |ids| && forall k :: 0 <= k < |ks| ==> ks[k] == KidOf(t, order, look, ids[k])
  {
    seq(|ids|, k requires 0 <= k < |ids| => KidOf(t, order, look, ids[k]))
  }

  /** The item for the inode e carries, with the link count given. */
  function ItemOf(t: Tree, order: seq<nat>, look: Look, e: nat, links: nat): W.Item
    requires e < |t.ents| && Listable(t, Listing(t, e)) && t.ents[e].parent < |t.ents|
  {
    var x := t.ents[e];
    var it := look(x.inode);
    W.Item(it.attr.(nlink := links), it.attrs,
           if x.inode.kind == Directory then W.Dir(IndexIn(order, if e == ROOT then ROOT else x.parent), KidsOfAll(t, order, look, Listing(t, e)))
           else it.body)
  }

  lemma NamesListable(t: Tree, e: nat)
    requires Inv(t, NONE) && Live(t, e)
    ensures Listable(t, Listing(t, e)) && t.ents[e].parent < |t.ents|
  {
    hide Parented, Listed, Serials, OpenOk, Indexed, Listing;
    forall k | 0 <= k < |Listing(t, e)| ensures Listing(t, e)[k] < |t.ents| && Owner(t, Listing(t, e)[k]) < |t.ents| && t.ents[Listing(t, e)[k]].path != [] {
      KidPath(t, e, Listing(t, e)[k]);
    }
  }

  /** The inodes in some order, the root's first. */
  predicate Ordered(t: Tree, order: seq<nat>) {
    && order != [] && order[0] == ROOT && Distinct(order)
    && (forall k :: 0 <= k < |order| ==> Live(t, order[k]) && t.ents[order[k]].linkTo.None?)
    && (forall i :: 0 <= i < |t.ents| && !t.ents[i].removed && t.ents[i].linkTo.None? ==> i in order)
  }

  /** The items are the tree's inodes in order, each with its link count. */
  ghost predicate AreItems(t: Tree, order: seq<nat>, look: Look, items: seq<W.Item>)
    requires Inv(t, NONE) && Ordered(t, order)
  {
    |items| == |order| && forall k :: 0 <= k < |items| ==> IsItem(t, order, look, items[k], order[k])
  }

  ghost predicate IsItem(t: Tree, order: seq<nat>, look: Look, it: W.Item, e: nat)
    requires Inv(t, NONE) && Live(t, e)
  {
    NamesListable(t, e);
    it == ItemOf(t, order, look, e, LinksOf(t, e))
  }

  /** Every element of every path is a name a directory can list. */
  predicate GoodNames(t: Tree) {
    forall p :: p in t.byPath && p != [] ==> P.GoodName(p[|p| - 1])
  }

  ghost predicate LooksAll(t: Tree, look: Look) {
    forall i :: 0 <= i < |t.ents| && !t.ents[i].removed && t.ents[i].linkTo.None? ==> LooksRight(look, t.ents[i].inode)
  }

  /** A live name's inode is in the order, and is a directory as the name is. */
  lemma OwnerIs(t: Tree, order: seq<nat>, i: nat)
    requires Inv(t, NONE) && Ordered(t, order) && Live(t, i)
    ensures var o := Owner(t, i);
            && Live(t, o) && t.ents[o].linkTo.None? && o in order && t.ents[o].inode.kind == t.ents[i].inode.kind
            && (IsDir(t, i) ==> o == i)
  {
    hide Parented, Listed, Serials, OpenOk, InRange, Linked, Distinct;
    IndexOf(t, i);
    At(t, t.ents[i].path);
  }

  /** Each directory's entries are proper. */
  lemma KidsProper(t: Tree, order: seq<nat>, look: Look, items: seq<W.Item>, k: nat)
    requires Inv(t, NONE) && Ordered(t, order) && AreItems(t, order, look, items) && GoodNames(t) && LooksAll(t, look) && k < |items|
    ensures P.KidsOk(items, k)
  {
    hide Inv, Ordered, Listing, P.GoodName, FileType;
    var e := order[k];
    OrderAt(t, order, k);
    assert IsItem(t, order, look, items[k], e);
    if items[k].body.Dir? {
      DirIs(t, order, look, items, k);
      var ids, kids := Listing(t, e), items[k].body.kids;
      NamesListable(t, e);
      forall j | 0 <= j < |kids|
        ensures P.GoodName(kids[j].name) && kids[j].target < |items| && P.Typed(kids[j].ftype, items[kids[j].target])
      {
        KidProper(t, order, look, items, e, ids[j]);
      }
      forall i, j | 0 <= i < j < |kids| ensures kids[i].name != kids[j].name {
        KidsNamed(t, e, i, j);
      }
    }
  }

  lemma OrderAt(t: Tree, order: seq<nat>, k: nat)
    requires Ordered(t, order) && k < |order|
    ensures Live(t, order[k]) && t.ents[order[k]].linkTo.None?
  {
  }

  lemma DirIs(t: Tree, order: seq<nat>, look: Look, items: seq<W.Item>, k: nat)
    requires Inv(t, NONE) && Ordered(t, order) && AreItems(t, order, look, items) && LooksAll(t, look) && k < |items|
    ensures order[k] < |t.ents| && (items[k].body.Dir? <==> t.ents[order[k]].inode.kind == Directory)
    ensures items[k].body.Link? <==> t.ents[order[k]].inode.kind == Symlink
    ensures P.Typed(FileType(look(t.ents[order[k]].inode).attr.mode), items[k])
  {
    hide Inv, Listing, Distinct, FileType;
    assert IsItem(t, order, look, items[k], order[k]);
  }

  lemma KidProper(t: Tree, order: seq<nat>, look: Look, items: seq<W.Item>, e: nat, i: nat)
    requires Inv(t, NONE) && Ordered(t, order) && AreItems(t, order, look, items) && GoodNames(t) && LooksAll(t, look)
    requires Live(t, e) && i in Listing(t, e) && i < |t.ents| && Owner(t, i) < |t.ents| && t.ents[i].path != []
    ensures var kid := KidOf(t, order, look, i);
            P.GoodName(kid.name) && kid.target < |items| && P.Typed(kid.ftype, items[kid.target])
  {
    hide Inv, Ordered, Listing, P.GoodName, FileType;
    KidPath(t, e, i);
    OwnerIs(t, order, i);
    LiveIndexed(t, i);
    DirIs(t, order, look, items, IndexIn(order, Owner(t, i)));
  }

  lemma LiveIndexed(t: Tree, i: nat)
    requires Inv(t, NONE) && Live(t, i)
    ensures t.ents[i].path in t.byPath && t.byPath[t.ents[i].path] == i
  {
    hide Parented, Listed, Serials, OpenOk, InRange, Linked;
  }

  /** Two names of one directory differ. */
  lemma KidsNamed(t: Tree, e: nat, i: nat, j: nat)
    requires Inv(t, NONE) && Live(t, e) && i < j < |Listing(t, e)| && Listable(t, Listing(t, e))
    ensures var p, q := t.ents[Listing(t, e)[i]].path, t.ents[Listing(t, e)[j]].path; p[|p| - 1] != q[|q| - 1]
  {
    hide Inv, Listing;
    var a, b := Listing(t, e)[i], Listing(t, e)[j];
    KidPath(t, e, a);
    KidPath(t, e, b);
    ListingIs(t, e);
    var p, q := t.ents[a].path, t.ents[b].path;
    if p[|p| - 1] == q[|q| - 1] {
      assert p == Dir(p) + [p[|p| - 1]] && q == Dir(q) + [q[|q| - 1]];
      SameIndex(t, a, b);
    }
  }

  lemma ItemsRooted(t: Tree, order: seq<nat>, look: Look, items: seq<W.Item>)
    requires Inv(t, NONE) && Ordered(t, order) && AreItems(t, order, look, items) && GoodNames(t) && LooksAll(t, look)
    ensures P.Rooted(items)
  {
    hide Inv, P.KidsOk;
    DirIs(t, order, look, items, 0);
    RootAt(t);
    forall k | 0 <= k < |items| ensures P.KidsOk(items, k) {
      KidsProper(t, order, look, items, k);
    }
  }

  /** Lookups among the items lead exactly where the tree's paths do. */
  lemma {:induction false} PathsLead(t: Tree, order: seq<nat>, look: Look, items: seq<W.Item>, p: Path)
    requires Inv(t, NONE) && Ordered(t, order) && AreItems(t, order, look, items) && GoodNames(t) && LooksAll(t, look)
    ensures P.ItemAt(items, p) ==
            if p in t.byPath && t.byPath[p] < |t.ents| then Some(IndexIn(order, Owner(t, t.byPath[p]))) else None
    ensures p in t.byPath ==> t.byPath[p] < |t.ents|
    decreases |p|
  {
    hide Inv, Ordered, AreItems, LooksAll, GoodNames, P.KidAt;
    PathEntry(t, p);
    if p == [] {
      RootFirst(t, order);
    } else {
      var d, n := Dir(p), p[|p| - 1];
      PathsLead(t, order, look, items, d);
      PathEntry(t, d);
      if d in t.byPath {
        var e := t.byPath[d];
        OwnerIs(t, order, e);
        var k := IndexIn(order, Owner(t, e));
        ItemsAs(t, order, look, items);
        DirIs(t, order, look, items, k);
        if IsDir(t, e) {
          OneName(t, order, look, items, e, k, p);
        }
      }
    }
  }

  lemma ItemsAs(t: Tree, order: seq<nat>, look: Look, items: seq<W.Item>)
    requires Inv(t, NONE) && Ordered(t, order) && AreItems(t, order, look, items)
    ensures |items| == |order|
  {
    hide Inv, Ordered, IsItem;
  }

  lemma PathEntry(t: Tree, p: Path)
    requires Inv(t, NONE)
    ensures p in t.byPath ==> Live(t, t.byPath[p]) && t.ents[t.byPath[p]].path == p
    ensures p in t.byPath && p != [] ==> Dir(p) in t.byPath && IsDir(t, t.byPath[Dir(p)])
  {
    hide Listed, Serials, OpenOk, Linked;
    if p in t.byPath && p != [] {
      assert HeldBy(t, NONE, t.byPath[p]);
    }
  }

  lemma RootFirst(t: Tree, order: seq<nat>)
    requires Inv(t, NONE) && Ordered(t, order)
    ensures [] in t.byPath && t.byPath[[]] == ROOT && ROOT < |t.ents| && Owner(t, ROOT) == ROOT && IndexIn(order, ROOT) == 0
  {
    hide Parented, Listed, Serials, OpenOk, Linked;
    RootAt(t);
  }

  /** Searching a directory's entries for a name finds the live path with that name, or nothing. */
  lemma OneName(t: Tree, order: seq<nat>, look: Look, items: seq<W.Item>, e: nat, k: nat, p: Path)
    requires Inv(t, NONE) && Ordered(t, order) && AreItems(t, order, look, items) && GoodNames(t) && LooksAll(t, look)
    requires p != [] && Live(t, e) && IsDir(t, e) && t.ents[e].path == Dir(p) && k < |items| == |order| && order[k] == e
    ensures items[k].body.Dir?
    ensures P.KidAt(items[k].body.kids, p[|p| - 1]) ==
            if p in t.byPath && t.byPath[p] < |t.ents| then Some(IndexIn(order, Owner(t, t.byPath[p]))) else None
  {
    hide Inv, Ordered, LooksAll, GoodNames, P.KidAt, Listing, FileType, IndexIn, AreItems, P.KidsOk, KidOf, Listable;
    ItemLists(t, order, look, items, e, k);
    var n, ids, kids := p[|p| - 1], Listing(t, e), items[k].body.kids;
    PathEntry(t, p);
    P.KidMissing(kids, n);
    if p in t.byPath {
      var j := NameAt(t, order, look, e, ids, kids, p);
      KidsProper(t, order, look, items, k);
      DistinctKids(items, k);
      P.KidFound(kids, n, j);
    } else {
      forall j | 0 <= j < |kids| ensures kids[j].name != n {
        NotNamed(t, order, look, e, ids, j, p);
      }
    }
  }

  lemma DistinctKids(items: seq<W.Item>, k: nat)
    requires k < |items| && items[k].body.Dir? && P.KidsOk(items, k)
    ensures var kids := items[k].body.kids; forall i, j :: 0 <= i < j < |kids| ==> kids[i].name != kids[j].name
  {
    hide P.GoodName;
  }

  lemma ItemLists(t: Tree, order: seq<nat>, look: Look, items: seq<W.Item>, e: nat, k: nat)
    requires Inv(t, NONE) && Ordered(t, order) && AreItems(t, order, look, items)
    requires Live(t, e) && IsDir(t, e) && k < |items| == |order| && order[k] == e
    ensures items[k].body.Dir? && Listable(t, Listing(t, e)) && items[k].body.kids == KidsOfAll(t, order, look, Listing(t, e))
  {
    hide Inv, Ordered, Listing, FileType, IndexIn;
    assert IsItem(t, order, look, items[k], e);
    NamesListable(t, e);
  }

  /** A live path's place in its directory's list. */
  lemma NameAt(t: Tree, order: seq<nat>, look: Look, e: nat, ids: seq<nat>, kids: seq<W.Kid>, p: Path) returns (j: nat)
    requires Inv(t, NONE) && Live(t, e) && p != [] && t.ents[e].path == Dir(p) && p in t.byPath
    requires ids == Listing(t, e) && Listable(t, ids) && kids == KidsOfAll(t, order, look, ids)
    ensures j < |kids| && t.byPath[p] < |t.ents| && kids[j].name == p[|p| - 1] && kids[j].target == IndexIn(order, Owner(t, t.byPath[p]))
  {
    hide Inv, Listing, FileType, IndexIn;
    PathEntry(t, p);
    var i := t.byPath[p];
    ChildOf(t, e, i);
    j :| 0 <= j < |ids| && ids[j] == i;
    assert kids[j] == KidOf(t, order, look, i);
  }

  /** A listed name that is p's last belongs to p. */
  lemma NotNamed(t: Tree, order: seq<nat>, look: Look, e: nat, ids: seq<nat>, j: nat, p: Path)
    requires Inv(t, NONE) && Live(t, e) && p != [] && t.ents[e].path == Dir(p) && p !in t.byPath
    requires ids == Listing(t, e) && Listable(t, ids) && j < |ids|
    ensures KidOf(t, order, look, ids[j]).name != p[|p| - 1]
  {
    hide Inv, Listing, FileType, IndexIn;
    KidPath(t, e, ids[j]);
    LiveIndexed(t, ids[j]);
    var q := t.ents[ids[j]].path;
    assert q == Dir(q) + [q[|q| - 1]] && p == Dir(p) + [p[|p| - 1]];
  }
}
