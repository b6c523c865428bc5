/** promoteAlias's search of the tree for an inode's other names, and its choice among them (mkfs.go). */
module AliasWalk {
  import opened Bytes
  import opened Names
  import opened Namespace
  import opened Entries

  /** i is an attached alias of target below d. */
  predicate Finds(t: Tree, open: Open, d: nat, target: nat, i: nat)
    requires d < |t.ents|
  {
    i in Aliases(t, target) && !Hanging(open, t.ents[i].path) && t.ents[d].path < t.ents[i].path
  }

  /** The child of d that i is at or below. */
  function Via(t: Tree, d: nat, i: nat): nat
    requires d < |t.ents| && i < |t.ents|
  {
    var k := |t.ents[d].path| + 1;
    if k <= |t.ents[i].path| && t.ents[i].path[..k] in t.byPath then t.byPath[t.ents[i].path[..k]] else ROOT
  }

  /** A directory the search descends into. */
  predicate Entered(t: Tree, open: Open, d: nat) {
    Shaped(t, open) && Live(t, d) && IsDir(t, d) && !Hanging(open, t.ents[d].path)
  }

  lemma ChildAttached(t: Tree, open: Open, d: nat, c: nat)
    requires Entered(t, open, d) && c in t.ents[d].children && Live(t, c)
    ensures c != ROOT && |t.ents[c].path| == |t.ents[d].path| + 1 && t.ents[d].path < t.ents[c].path && !Hanging(open, t.ents[c].path)
  {
    hide Hanging;
    var j :| 0 <= j < |t.ents[d].children| && t.ents[d].children[j] == c;
    assert HeldBy(t, open, c);
    NotBelow(t, open, d, t.ents[c].path);
  }

  lemma PrefixUp(o: Path, p: Path)
    requires p != []
    ensures o < p ==> o == Dir(p) || o < Dir(p)
  {
  }

  lemma NotBelow(t: Tree, open: Open, d: nat, p: Path)
    requires Entered(t, open, d) && p != [] && Dir(p) == t.ents[d].path
    ensures !Hanging(open, p)
  {
    hide InRange, Parented, Listed;
    forall o | o in open ensures !(o < p) {
      PrefixUp(o, p);
    }
  }

  /** Through the child c of d lie c itself and what is below it. */
  lemma ViaChild(t: Tree, open: Open, d: nat, c: nat, target: nat, i: nat)
    requires Entered(t, open, d) && c in t.ents[d].children && Live(t, c) && i in Aliases(t, target)
    ensures Finds(t, open, d, target, i) && Via(t, d, i) == c <==> i == c || Finds(t, open, c, target, i)
    ensures Finds(t, open, c, target, i) ==> IsDir(t, c)
  {
    hide Parented, Listed, OpenOk, Hanging, InRange;
    ChildAttached(t, open, d, c);
    var pc, pi := t.ents[c].path, t.ents[i].path;
    if !Hanging(open, pi) && pc < pi {
      Climb(t, open, pi, |pc|);
      assert pi[..|pc|] == pc;
      assert t.ents[d].path < pi;
    }
    if i == c {
      assert pi[..|pc|] == pc;
    } else if t.ents[d].path < pi && Via(t, d, i) == c {
      assert pi[..|pc|] == pc;
      assert |pi| == |pc| ==> pi == pc;
    }
  }

  /** What is found below d is found through one of its live children. */
  lemma ViaSome(t: Tree, open: Open, d: nat, target: nat, i: nat)
    requires Entered(t, open, d) && Finds(t, open, d, target, i)
    ensures Via(t, d, i) in t.ents[d].children && Live(t, Via(t, d, i))
  {
    hide Listed, OpenOk, Hanging, Parented, InRange;
    var pi, k := t.ents[i].path, |t.ents[d].path| + 1;
    Climb(t, open, pi, k);
    assert Dir(pi[..k]) == t.ents[d].path;
    HomeIs(t, open, d, t.byPath[pi[..k]]);
  }

  /** A live entry whose path lies right below a live directory's is a child of it. */
  lemma HomeIs(t: Tree, open: Open, d: nat, c: nat)
    requires Shaped(t, open) && Live(t, d) && Live(t, c) && t.ents[c].path != [] && Dir(t.ents[c].path) == t.ents[d].path
    ensures c in t.ents[d].children
  {
    hide Listed, OpenOk, Hanging;
    assert HeldBy(t, open, c);
  }

  predicate Distinct(s: seq<nat>) {
    forall i, j :: 0 <= i < j < |s| ==> s[i] != s[j]
  }

  function Elems(s: seq<nat>): set<nat> {
    set i | i in s
  }

  lemma {:induction false} DistinctCount(s: seq<nat>)
    requires Distinct(s)
    ensures |Elems(s)| == |s|
  {
    if s != [] {
      var n := |s| - 1;
      DistinctCount(s[..n]);
      assert s == s[..n] + [s[n]];
      assert Elems(s) == Elems(s[..n]) + {s[n]};
      assert s[n] !in s[..n];
    }
  }

  /** found is what the walk below d finds through the children seen. */
  ghost predicate FoundVia(t: Tree, open: Open, d: nat, target: nat, seen: seq<nat>, found: seq<nat>)
    requires d < |t.ents|
  {
    && Distinct(found)
    && forall i: nat :: i in found <==> i < |t.ents| && Finds(t, open, d, target, i) && Via(t, d, i) in seen
  }

  ghost predicate FoundAll(t: Tree, open: Open, d: nat, target: nat, found: seq<nat>)
    requires d < |t.ents|
  {
    && Distinct(found)
    && forall i: nat :: i in found <==> i < |t.ents| && Finds(t, open, d, target, i)
  }

  lemma DistinctConcat(a: seq<nat>, b: seq<nat>)
    requires Distinct(a) && Distinct(b) && forall x :: x in b ==> x !in a
    ensures Distinct(a + b)
  {
    var s := a + b;
    forall i, j | 0 <= i < j < |s| ensures s[i] != s[j] {
      if i < |a| <= j {
        assert s[j] == b[j - |a|] && s[j] in b && s[i] in a;
      }
    }
  }

  lemma FoundStep(t: Tree, open: Open, d: nat, target: nat, seen: seq<nat>, found: seq<nat>, c: nat, more: seq<nat>)
    requires Entered(t, open, d) && FoundVia(t, open, d, target, seen, found) && c in t.ents[d].children && Live(t, c) && c !in seen
    requires MoreIs(t, open, c, target, more)
    ensures FoundVia(t, open, d, target, seen + [c], found + more)
  {
    hide Shaped, Hanging, Via, Finds;
    forall i: nat ensures i in more <==> i < |t.ents| && Finds(t, open, d, target, i) && Via(t, d, i) == c {
      if i in Aliases(t, target) {
        ViaChild(t, open, d, c, target, i);
      } else {
        FindsAlias(t, open, d, target, i);
      }
    }
    DistinctConcat(found, more);
  }

  lemma FindsAlias(t: Tree, open: Open, d: nat, target: nat, i: nat)
    requires d < |t.ents|
    ensures Finds(t, open, d, target, i) ==> i < |t.ents| && i in Aliases(t, target)
  {
  }

  lemma SkipStep(t: Tree, open: Open, d: nat, target: nat, seen: seq<nat>, found: seq<nat>, c: nat)
    requires Entered(t, open, d) && FoundVia(t, open, d, target, seen, found) && !Live(t, c)
    ensures FoundVia(t, open, d, target, seen + [c], found)
  {
    hide Shaped, Hanging, Via, Finds;
    forall i: nat | i < |t.ents| && Finds(t, open, d, target, i) ensures Via(t, d, i) != c {
      ViaSome(t, open, d, target, i);
    }
  }

  lemma FoundDone(t: Tree, open: Open, d: nat, target: nat, found: seq<nat>)
    requires Entered(t, open, d) && FoundVia(t, open, d, target, t.ents[d].children, found)
    ensures FoundAll(t, open, d, target, found)
  {
    hide Shaped, Hanging, Via, Finds;
    forall i: nat | i < |t.ents| && Finds(t, open, d, target, i) ensures Via(t, d, i) in t.ents[d].children {
      ViaSome(t, open, d, target, i);
    }
  }

  lemma ChildOnce(t: Tree, open: Open, d: nat, j: nat)
    requires Entered(t, open, d) && j < |t.ents[d].children| && Live(t, t.ents[d].children[j])
    ensures t.ents[d].children[j] !in t.ents[d].children[..j]
  {
    hide Indexed, Parented, OpenOk, Hanging;
  }

  lemma LeafFinds(t: Tree, open: Open, d: nat, c: nat, target: nat, i: nat)
    requires Entered(t, open, d) && c in t.ents[d].children && Live(t, c) && !IsDir(t, c)
    ensures !(i in Aliases(t, target) && Finds(t, open, c, target, i))
  {
    hide Shaped, Hanging, Via, Finds;
    if i in Aliases(t, target) {
      ViaChild(t, open, d, c, target, i);
    }
  }

  lemma SelfFinds(t: Tree, open: Open, c: nat, target: nat)
    requires c < |t.ents|
    ensures !Finds(t, open, c, target, c)
  {
  }

  /** No path is longer than d's by more than room. */
  predicate Shallow(t: Tree, d: nat, room: nat)
    requires d < |t.ents|
  {
    forall i :: 0 <= i < |t.ents| ==> |t.ents[i].path| <= |t.ents[d].path| + room
  }

  lemma KidInRange(t: Tree, open: Open, d: nat, j: nat)
    requires Entered(t, open, d) && j < |t.ents[d].children|
    ensures t.ents[d].children[j] < |t.ents|
  {
    hide Indexed, Parented, OpenOk, Hanging, Listed;
  }

  lemma ChildEntered(t: Tree, open: Open, d: nat, c: nat, room: nat)
    requires Entered(t, open, d) && c in t.ents[d].children && Live(t, c) && IsDir(t, c) && Shallow(t, d, room)
    ensures Entered(t, open, c) && room > 0 && Shallow(t, c, room - 1)
  {
    hide Shaped, Hanging;
    ChildAttached(t, open, d, c);
  }

  /** The walk: every attached alias of target below d, each once. */
  method Walk(t: Tree, d: nat, target: nat, ghost open: Open, ghost room: nat) returns (found: seq<nat>)
    requires d < |t.ents| && Entered(t, open, d) && Shallow(t, d, room)
    ensures FoundAll(t, open, d, target, found)
    decreases room
  {
    hide *;
    found := [];
    var kids := t.ents[d].children;
    NothingFound(t, open, d, target);
    for j := 0 to |kids|
      invariant FoundVia(t, open, d, target, kids[..j], found)
    {
      var c := kids[j];
      assert kids[..j + 1] == kids[..j] + [c];
      KidInRange(t, open, d, j);
      if t.ents[c].removed {
        Dead(t, c);
        SkipStep(t, open, d, target, kids[..j], found, c);
      } else {
        Alive(t, c);
        ChildOnce(t, open, d, j);
        var more := if t.ents[c].linkTo == Some(target) then [c] else [];
        if t.ents[c].inode.kind == Directory {
          ChildEntered(t, open, d, c, room);
          var below := Walk(t, c, target, open, room - 1);
          MoreBelow(t, open, c, target, more, below);
          more := more + below;
        } else {
          MoreLeaf(t, open, d, c, target, more);
        }
        FoundStep(t, open, d, target, kids[..j], found, c, more);
        found := found + more;
      }
    }
    assert kids[..|kids|] == kids;
    FoundDone(t, open, d, target, found);
  }

  lemma Dead(t: Tree, c: nat)
    requires c < |t.ents| && t.ents[c].removed
    ensures !Live(t, c)
  {
  }

  lemma Alive(t: Tree, c: nat)
    requires c < |t.ents| && !t.ents[c].removed
    ensures Live(t, c) && (t.ents[c].inode.kind == Directory <==> IsDir(t, c))
  {
  }

  lemma NothingFound(t: Tree, open: Open, d: nat, target: nat)
    requires d < |t.ents|
    ensures FoundVia(t, open, d, target, [], [])
  {
  }

  ghost predicate MoreIs(t: Tree, open: Open, c: nat, target: nat, more: seq<nat>)
    requires c < |t.ents|
  {
    Distinct(more) && forall i: nat :: i in more <==> i in Aliases(t, target) && (i == c || Finds(t, open, c, target, i))
  }

  lemma MoreBelow(t: Tree, open: Open, c: nat, target: nat, more: seq<nat>, below: seq<nat>)
    requires Live(t, c) && FoundAll(t, open, c, target, below) && more == if t.ents[c].linkTo == Some(target) then [c] else []
    ensures MoreIs(t, open, c, target, more + below)
  {
    hide Hanging, Finds, Via;
    SelfFinds(t, open, c, target);
    forall i: nat ensures i in more + below <==> i in Aliases(t, target) && (i == c || Finds(t, open, c, target, i)) {
      FindsAlias(t, open, c, target, i);
    }
    DistinctConcat(more, below);
  }

  lemma MoreLeaf(t: Tree, open: Open, d: nat, c: nat, target: nat, more: seq<nat>)
    requires Entered(t, open, d) && c in t.ents[d].children && Live(t, c) && !IsDir(t, c)
    requires more == if t.ents[c].linkTo == Some(target) then [c] else []
    ensures MoreIs(t, open, c, target, more)
  {
    hide Hanging, Finds, Via, Shaped;
    forall i: nat ensures i in more <==> i in Aliases(t, target) && (i == c || Finds(t, open, c, target, i)) {
      LeafFinds(t, open, d, c, target, i);
    }
  }

  ghost function Deepest(ents: seq<Entry>): (n: nat)
    ensures forall i :: 0 <= i < |ents| ==> |ents[i].path| <= n
  {
    if ents == [] then 0 else Max(|ents[|ents| - 1].path|, Deepest(ents[..|ents| - 1]))
  }

  // ---- The heir ----

  /** h's path is the least, as the strings compare. */
  ghost predicate IsLeast(t: Tree, all: set<nat>, h: nat) {
    && h in all && h < |t.ents|
    && forall a :: a in all && a < |t.ents| ==> Leq(Join(t.ents[h].path), Join(t.ents[a].path))
  }

  method Least(t: Tree, found: seq<nat>) returns (h: nat)
    requires found != [] && forall i :: 0 <= i < |found| ==> found[i] < |t.ents|
    ensures IsLeast(t, Elems(found), h)
  {
    hide Less, Join;
    h := found[0];
    for i := 1 to |found|
      invariant h in found && h < |t.ents| && forall j :: 0 <= j < i ==> Leq(Join(t.ents[h].path), Join(t.ents[found[j]].path))
    {
      var a, b := Join(t.ents[found[i]].path), Join(t.ents[h].path);
      Trichotomy(a, b);
      if Less(a, b) {
        forall j | 0 <= j < i ensures Leq(a, Join(t.ents[found[j]].path)) {
          if b != Join(t.ents[found[j]].path) {
            Transitive(a, b, Join(t.ents[found[j]].path));
          }
        }
        h := found[i];
      }
    }
  }

  predicate Slashless(p: Path) {
    forall i :: 0 <= i < |p| ==> 0x2F !in p[i]
  }

  lemma {:induction false} SplitLast(a: seq<byte>, m: Name, b: seq<byte>, n: Name)
    requires 0x2F !in m && 0x2F !in n && a + [0x2F] + m == b + [0x2F] + n
    ensures a == b && m == n
  {
    var s := a + [0x2F] + m;
    assert s[|a|] == 0x2F && s[|b|] == 0x2F;
    assert forall i :: |a| < i < |s| ==> s[i] == m[i - |a| - 1];
    assert forall i :: |b| < i < |s| ==> s[i] == n[i - |b| - 1];
    assert |a| == |b|;
    assert a == s[..|a|] && b == s[..|b|] && m == s[|a| + 1..] && n == s[|b| + 1..];
  }

  lemma {:induction false} JoinInjective(p: Path, q: Path)
    requires Slashless(p) && Slashless(q) && Join(p) == Join(q)
    ensures p == q
  {
    if p != [] && q != [] {
      SplitLast(Join(Dir(p)), p[|p| - 1], Join(Dir(q)), q[|q| - 1]);
      JoinInjective(Dir(p), Dir(q));
      assert p == Dir(p) + [p[|p| - 1]] && q == Dir(q) + [q[|q| - 1]];
    }
  }

  /** Whatever order the names were made in, one heir is least. */
  lemma HeirUnique(t: Tree, open: Open, all: set<nat>, g: nat, h: nat)
    requires Shaped(t, open) && IsLeast(t, all, g) && IsLeast(t, all, h) && Live(t, g) && Live(t, h)
    requires Slashless(t.ents[g].path) && Slashless(t.ents[h].path)
    ensures g == h
  {
    hide InRange, Parented, Listed, OpenOk, Slashless, Join, Less;
    var a, b := Join(t.ents[g].path), Join(t.ents[h].path);
    Trichotomy(a, b);
    JoinInjective(t.ents[g].path, t.ents[h].path);
  }
}
