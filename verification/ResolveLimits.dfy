/** Path resolution against its limits: when the reader finds what the reference finds, and when a climbing link, a long path or the budget of components stops it (erofs.go: resolve). */
module ResolveLimits {
  import opened Arith
  import opened Bytes
  import opened Names
  import opened Namespace
  import opened Resolve

  // ---- Climbing out ----

  /** A link n in the directory p leads to that climbs out: relative, met below the root, and up more levels than p is deep. */
  ghost predicate ClimbsAt(g: Graph, root: nat, p: Path, n: Name) {
    && Straight(g, root, p) && p != []
    && var d := Plain(g, root, p).value;
       && IsFolder(g, d) && n in g[d].kids && g[d].kids[n] in g && g[g[d].kids[n]].Link?
       && var t := g[g[d].kids[n]].target; !t.absolute && t.ups > |p|
  }

  /** No link that a path can try climbs out. */
  ghost predicate NoClimb(g: Graph, root: nat) {
    forall p, n :: ClimbsAt(g, root, p, n) ==> TextLen(p + [n], false) > MAX_PATH
  }

  lemma {:induction false} JoinLength(a: Path, b: Path)
    ensures |Join(a + b)| == |Join(a)| + |Join(b)|
    decreases |b|
  {
    hide Join;
    if b == [] {
      assert a + b == a;
      JoinLast([]);
    } else {
      assert Dir(a + b) == a + Dir(b);
      JoinLength(a, Dir(b));
      JoinLast(a + b);
      JoinLast(b);
    }
  }

  lemma JoinLast(p: Path)
    ensures |Join(p)| == if p == [] then 0 else |Join(Dir(p))| + 1 + |p[|p| - 1]|
  {
  }

  /** Where the reader stands between moves: on a straight path, unless it has stepped onto what is no directory or has arrived; and the path it walks is short enough. */
  ghost predicate Standing(g: Graph, root: nat, s: Place) {
    && Plain(g, root, s.cur) == Some(s.nid) && (Straight(g, root, s.cur) || !IsFolder(g, s.nid) || s.rest == [])
    && TextLen(s.cur + s.rest, false) <= MAX_PATH
  }

  lemma StandingMove(g: Graph, root: nat, s: Place, follow: bool)
    requires Standing(g, root, s) && s.rest != []
    ensures var m := Next(g, root, s, follow);
            && (m.To? ==> Standing(g, root, m.place))
            && (m == Stop(Climbs) ==> ClimbsAt(g, root, s.cur, s.rest[0]) && TextLen(s.cur + [s.rest[0]], false) <= MAX_PATH)
  {
    hide Plain, Join;
    assert s.cur + s.rest == s.cur + [s.rest[0]] + s.rest[1..];
    JoinLength(s.cur + [s.rest[0]], s.rest[1..]);
    NoSteps(g, root);
    RootStraight(g, root);
    var m := Next(g, root, s, follow);
    if m.To? && m.place.cur == [] {
      assert m.place.cur + m.place.rest == m.place.rest;
    } else if m.To? {
      PlainDown(g, root, s.cur, s.nid, s.rest[0]);
      var next := g[s.nid].kids[s.rest[0]];
      if next in g && !g[next].Link? {
        StraightDown(g, root, s.cur, s.nid, s.rest[0]);
      }
    }
  }

  lemma StraightDown(g: Graph, root: nat, p: Path, d: nat, n: Name)
    requires Straight(g, root, p) && Plain(g, root, p) == Some(d) && IsFolder(g, d) && n in g[d].kids
    requires g[d].kids[n] in g && !g[g[d].kids[n]].Link?
    ensures Straight(g, root, p + [n])
  {
    hide Plain;
    PlainDown(g, root, p, d, n);
    var q := p + [n];
    forall k | 0 < k <= |q| ensures NotLink(g, root, q[..k]) {
      assert q[..k] == if k <= |p| then p[..k] else q;
    }
  }

  lemma {:induction false} RunClimbs(g: Graph, root: nat, s: Place, follow: bool, steps: nat)
    requires Standing(g, root, s) && NoClimb(g, root)
    ensures !Run(g, root, s, follow, steps).Climbs?
    decreases steps
  {
    hide Standing, Next, TextLen, ClimbsAt;
    if s.rest != [] && steps > 0 {
      StandingMove(g, root, s, follow);
      var m := Next(g, root, s, follow);
      if m.To? {
        RunClimbs(g, root, m.place, follow, steps - 1);
      }
    }
  }

  /** Walking down a straight path, one step a component. */
  lemma {:induction false} RunDown(g: Graph, root: nat, p: Path, n: Name, links: nat, k: nat, steps: nat)
    requires Straight(g, root, p) && k <= |p| && steps >= |p| - k
    requires Plain(g, root, p[..k]).Some?
    ensures Run(g, root, Place(Plain(g, root, p[..k]).value, p[..k], p[k..] + [n], links), true, steps) ==
            Run(g, root, Place(Plain(g, root, p).value, p, [n], links), true, steps - (|p| - k))
    decreases |p| - k
  {
    hide Run, Plain;
    if k == |p| {
      assert p[..k] == p && p[k..] + [n] == [n];
    } else {
      var s := Place(Plain(g, root, p[..k]).value, p[..k], p[k..] + [n], links);
      PlainPrefix(g, root, p, k);
      assert NotLink(g, root, p[..k + 1]);
      assert s.rest[0] == p[k] && s.rest[1..] == p[k + 1..] + [n] && s.cur + [p[k]] == p[..k + 1];
      RunStep(g, root, s, true, steps);
      RunDown(g, root, p, n, links, k + 1, steps - 1);
    }
  }

  lemma PlainPrefix(g: Graph, root: nat, p: Path, k: nat)
    requires k < |p| && Plain(g, root, p[..k + 1]).Some?
    ensures Plain(g, root, p[..k]).Some?
    ensures var d := Plain(g, root, p[..k]).value; IsFolder(g, d) && p[k] in g[d].kids && Plain(g, root, p[..k + 1]) == Some(g[d].kids[p[k]])
  {
    assert Dir(p[..k + 1]) == p[..k];
  }

  /** A link that climbs out is refused by the path that leads to it. */
  lemma ClimbRefused(g: Graph, root: nat, p: Path, n: Name)
    requires ClimbsAt(g, root, p, n) && TextLen(p + [n], false) <= MAX_PATH
    ensures Resolution(g, root, p + [n], true) == Climbs
  {
    hide Run, Plain, Join;
    JoinAtLeast(p + [n]);
    NoSteps(g, root);
    assert p[..0] == [] && p[0..] + [n] == p + [n];
    RunDown(g, root, p, n, 0, 0, MAX_COMPONENTS);
    RunStep(g, root, Place(Plain(g, root, p).value, p, [n], 0), true, MAX_COMPONENTS - |p|);
  }

  lemma {:induction false} JoinAtLeast(p: Path)
    ensures |Join(p)| >= |p|
    decreases |p|
  {
    if p != [] {
      JoinAtLeast(Dir(p));
    }
  }

  /** No resolution ends in a climb exactly when no link climbs out. */
  lemma ClimbsExactly(g: Graph, root: nat)
    ensures NoClimb(g, root) <==> forall path :: Resolution(g, root, path, true) != Climbs
  {
    hide Run, Plain, TextLen, Straight, ClimbsAt, Resolution;
    if NoClimb(g, root) {
      forall path ensures Resolution(g, root, path, true) != Climbs {
        NeverClimbs(g, root, path, true);
      }
    } else {
      var p, n :| ClimbsAt(g, root, p, n) && TextLen(p + [n], false) <= MAX_PATH;
      ClimbRefused(g, root, p, n);
    }
  }

  lemma NeverClimbs(g: Graph, root: nat, path: Path, follow: bool)
    requires NoClimb(g, root)
    ensures !Resolution(g, root, path, follow).Climbs?
  {
    hide Run, Plain, NoClimb, Straight;
    if TextLen(path, false) <= MAX_PATH {
      NoSteps(g, root);
      RootStraight(g, root);
      assert [] + path == path;
      RunClimbs(g, root, Place(root, [], path, 0), follow, MAX_COMPONENTS);
    }
  }

  // ---- Finding what the reference finds ----

  /** No name is empty, and no link's target is longer than limit. */
  ghost predicate TargetsFit(g: Graph, limit: nat) {
    forall x :: x in g && g[x].Link? ==> NoEmpty(g[x].target.names) && |Join(g[x].target.names)| <= limit
  }

  predicate NoEmpty(p: Path) {
    forall i :: 0 <= i < |p| ==> p[i] != []
  }

  lemma {:induction false} JoinTwice(p: Path)
    requires NoEmpty(p)
    ensures |Join(p)| >= 2 * |p|
    decreases |p|
  {
    if p != [] {
      JoinTwice(Dir(p));
    }
  }

  /** The most components a path may have, by PATH_MAX. */
  const PER_PATH: nat := 2048

  /** Enough components for j more links, each path leaving room for the targets still to come. */
  function Budget(j: nat): nat {
    if j == 0 then 0 else Budget(j - 1) + (if j - 1 <= PER_PATH then PER_PATH - (j - 1) else 0)
  }

  lemma {:induction false} BudgetSum(j: nat)
    requires j <= PER_PATH
    ensures 2 * Budget(j) == j * (2 * PER_PATH + 1 - j)
  {
    if j > 0 {
      BudgetSum(j - 1);
    }
  }

  lemma {:induction false} BudgetMono(j: nat, k: nat)
    requires j <= k
    ensures Budget(j) <= Budget(k)
  {
    if j < k {
      BudgetMono(j, k - 1);
    }
  }

  /** The reader on its way where the reference arrives after used links: its path is short enough and its budget large enough for the links to come. */
  ghost predicate OnBudget(s: Place, path: Path, used: nat, limit: nat, steps: nat) {
    && s.links <= used && NoEmpty(s.cur) && NoEmpty(s.rest)
    && |Join(s.cur + s.rest)| <= |Join(path)| + s.links * limit
    && steps >= |s.rest| + Budget(used - s.links)
  }

  /** Following a link makes the path longer by no more than its target. */
  lemma Rebased(cur: Path, t: Target, n: Name, rest: Path)
    requires Rebase(cur, t, rest).Ok? && NoEmpty(cur) && NoEmpty(rest) && NoEmpty(t.names)
    ensures |Join(Rebase(cur, t, rest).value)| <= |Join(cur + ([n] + rest))| + |Join(t.names)|
    ensures NoEmpty(Rebase(cur, t, rest).value)
  {
    hide Join;
    JoinLength(cur, [n] + rest);
    JoinLength([n], rest);
    JoinLength(t.names, rest);
    if !t.absolute && cur != [] {
      var q := cur[..|cur| - t.ups];
      JoinLength(q, t.names);
      JoinLength(q + t.names, rest);
      assert cur == q + cur[|q|..];
      JoinLength(q, cur[|q|..]);
    }
  }

  /** A link's target in, the rest still to come: no more components than the budget counts. */
  lemma OneMore(k: nat, used: nat, limit: nat, len: nat)
    requires k < used && 2 <= limit && len + used * limit <= MAX_PATH
    ensures (k + 1) * limit == k * limit + limit
    ensures len + (k + 1) * limit <= MAX_PATH - 2 * (used - (k + 1))
  {
    var rest := used - (k + 1);
    assert used * limit == (k + 1) * limit + rest * limit;
    MulMono(2, limit, rest);
  }

  lemma BudgetLink(s: Place, t: Target, path: Path, used: nat, limit: nat, steps: nat)
    requires OnBudget(s, path, used, limit, steps) && s.rest != [] && steps > 0 && s.links < used && limit >= 2
    requires Rebase(s.cur, t, s.rest[1..]).Ok? && NoEmpty(t.names) && |Join(t.names)| <= limit && |Join(path)| + used * limit <= MAX_PATH
    ensures var to := Rebase(s.cur, t, s.rest[1..]).value;
            && |Join(to)| <= MAX_PATH && OnBudget(Place(0, [], to, s.links + 1), path, used, limit, steps - 1)
  {
    hide Join, Rebase, NoEmpty;
    var to := Rebase(s.cur, t, s.rest[1..]).value;
    assert s.rest == [s.rest[0]] + s.rest[1..];
    RestNames(s.rest);
    Rebased(s.cur, t, s.rest[0], s.rest[1..]);
    OneMore(s.links, used, limit, |Join(path)|);
    JoinTwice(to);
    assert [] + to == to;
  }

  lemma RestNames(p: Path)
    requires NoEmpty(p) && p != []
    ensures NoEmpty(p[1..]) && NoEmpty([])
  {
  }

  lemma BudgetStart(root: nat, path: Path, used: nat, limit: nat)
    requires NoEmpty(path) && used <= MAX_LINKS && limit >= 2 && |Join(path)| + used * limit <= MAX_PATH
    ensures OnBudget(Place(root, [], path, 0), path, used, limit, MAX_COMPONENTS)
  {
    hide Join, Budget;
    JoinTwice(path);
    assert [] + path == path;
    MulMono(2, limit, used);
    BudgetNext(used);
    BudgetMono(used + 1, MAX_LINKS + 1);
    BudgetSum(MAX_LINKS + 1);
  }

  lemma BudgetNext(j: nat)
    requires j <= PER_PATH
    ensures Budget(j + 1) == Budget(j) + (PER_PATH - j)
  {
  }

  lemma BudgetDown(s: Place, nid: nat, path: Path, used: nat, limit: nat, steps: nat)
    requires OnBudget(s, path, used, limit, steps) && s.rest != []
    ensures steps > 0 && OnBudget(Place(nid, s.cur + [s.rest[0]], s.rest[1..], s.links), path, used, limit, steps - 1)
  {
    hide Join;
    assert s.cur + s.rest == s.cur + [s.rest[0]] + s.rest[1..];
  }

  /** A move towards where the reference arrives stops nowhere and stays within budget. */
  lemma BudgetMove(g: Graph, root: nat, path: Path, s: Place, used: nat, limit: nat, steps: nat)
    requires TreeShaped(g, root) && NoClimb(g, root) && TargetsFit(g, limit) && limit >= 2 && |Join(path)| + used * limit <= MAX_PATH
    requires OnTrack(g, root, path, s) && OnBudget(s, path, used, limit, steps) && s.rest != []
    requires var w := Walk(g, root, root, Downs(path), MAX_LINKS); w.Some? && w.value.links == MAX_LINKS - used
    ensures steps > 0
    ensures var m := Next(g, root, s, true); m.To? && OnTrack(g, root, path, m.place) && OnBudget(m.place, path, used, limit, steps - 1)
  {
    hide TreeShaped, OnTrack, Plain, Straight, Walk, Downs, Rebase, OnBudget, Join, NoClimb;
    TrackFacts(g, root, path, s);
    MoveTracks(g, root, path, s);
    BudgetDown(s, 0, path, used, limit, steps);
    assert IsFolder(g, s.nid) && s.rest[0] in g[s.nid].kids;
    EntryThere(g, root, s.nid, s.rest[0]);
    var next := g[s.nid].kids[s.rest[0]];
    if g[next].Link? {
      WalkStep(g, root, s.nid, s.rest, MAX_LINKS - s.links);
      var t := g[next].target;
      WalkUses(g, root, if t.absolute then root else s.nid, Steps(t) + Downs(s.rest[1..]), MAX_LINKS - s.links - 1);
      BudgetShort(s, path, used, limit, steps);
      TrackStands(g, root, path, s);
      StandingMove(g, root, s, true);
      NoClimbAt(g, root, s.cur, s.rest[0]);
      BudgetLink(s, t, path, used, limit, steps);
      BudgetSame(Place(0, [], Rebase(s.cur, t, s.rest[1..]).value, s.links + 1), root, path, used, limit, steps - 1);
    } else {
      BudgetDown(s, next, path, used, limit, steps);
    }
  }

  lemma WalkUses(g: Graph, root: nat, d: nat, steps: seq<Step>, links: nat)
    ensures var w := Walk(g, root, d, steps, links); w.Some? ==> w.value.links <= links
  {
  }

  lemma NoClimbAt(g: Graph, root: nat, p: Path, n: Name)
    requires NoClimb(g, root)
    ensures ClimbsAt(g, root, p, n) ==> TextLen(p + [n], false) > MAX_PATH
  {
  }

  lemma BudgetSame(s: Place, nid: nat, path: Path, used: nat, limit: nat, steps: nat)
    requires OnBudget(s, path, used, limit, steps)
    ensures OnBudget(s.(nid := nid), path, used, limit, steps)
  {
  }

  lemma BudgetShort(s: Place, path: Path, used: nat, limit: nat, steps: nat)
    requires OnBudget(s, path, used, limit, steps) && |Join(path)| + used * limit <= MAX_PATH
    ensures TextLen(s.cur + s.rest, false) <= MAX_PATH
  {
    hide Join;
    assert s.links * limit <= used * limit;
  }

  lemma TrackStands(g: Graph, root: nat, path: Path, s: Place)
    requires OnTrack(g, root, path, s) && TextLen(s.cur + s.rest, false) <= MAX_PATH
    ensures Standing(g, root, s)
  {
  }

  lemma {:induction false} RunFinds(g: Graph, root: nat, path: Path, s: Place, used: nat, limit: nat, steps: nat)
    requires TreeShaped(g, root) && NoClimb(g, root) && TargetsFit(g, limit) && limit >= 2 && |Join(path)| + used * limit <= MAX_PATH
    requires OnTrack(g, root, path, s) && OnBudget(s, path, used, limit, steps)
    requires var w := Walk(g, root, root, Downs(path), MAX_LINKS); w.Some? && w.value.links == MAX_LINKS - used
    ensures Run(g, root, s, true, steps).Found?
    decreases steps
  {
    hide TreeShaped, OnTrack, Walk, Downs, Next, Run, OnBudget, Join, NoClimb, TargetsFit;
    RunStep(g, root, s, true, steps);
    if s.rest != [] {
      BudgetMove(g, root, path, s, used, limit, steps);
      RunFinds(g, root, path, Next(g, root, s, true).place, used, limit, steps - 1);
    }
  }

  /** On a tree where no link climbs out, the reader finds whatever the reference finds, as long as the path and a target for each link followed fit PATH_MAX together. */
  lemma ResolveFinds(g: Graph, root: nat, path: Path, limit: nat)
    requires TreeShaped(g, root) && NoClimb(g, root) && TargetsFit(g, limit) && limit >= 2 && NoEmpty(path)
    requires Walk(g, root, root, Downs(path), MAX_LINKS).Some?
    requires |Join(path)| + (MAX_LINKS - Walk(g, root, root, Downs(path), MAX_LINKS).value.links) * limit <= MAX_PATH
    ensures var e := Resolution(g, root, path, true); e.Found? && e.nid == Walk(g, root, root, Downs(path), MAX_LINKS).value.nid
  {
    hide TreeShaped, OnTrack, Plain, Straight, Walk, Downs, Run, NoClimb, TargetsFit, Join, OnBudget;
    var used := MAX_LINKS - Walk(g, root, root, Downs(path), MAX_LINKS).value.links;
    TrackStart(g, root, path);
    BudgetStart(root, path, used, limit);
    RunFinds(g, root, path, Place(root, [], path, 0), used, limit, MAX_COMPONENTS);
    ResolveAgrees(g, root, path);
  }

  // ---- Where the two part ----

  const A: Name := [0x61]
  const L: Name := [0x6C]
  const X: Name := [0x78]

  /** A link in /a that climbs two levels and names x, beside a file /x. */
  const CLIMBS: Graph := map[0 := Folder(map[A := 1, X := 3], 0), 1 := Folder(map[L := 2], 0), 2 := Link(Target(false, 2, [X])), 3 := Other]

  /** The reference stops at the root and finds /x; the reader refuses the link. */
  lemma ClimbsOut()
    ensures Walk(CLIMBS, 0, 0, Downs([A, L]), MAX_LINKS).Some? && Walk(CLIMBS, 0, 0, Downs([A, L]), MAX_LINKS).value.nid == 3
    ensures Resolution(CLIMBS, 0, [A, L], true) == Climbs
  {
    assert Resolution(CLIMBS, 0, [A, L], true) == Climbs by {
      hide *;
      ClimbsThere();
      assert [A] + [L] == [A, L];
      ClimbRefused(CLIMBS, 0, [A], L);
    }
    WalkStep(CLIMBS, 0, 0, [A, L], MAX_LINKS);
    assert [A, L][1..] == [L];
    WalkStep(CLIMBS, 0, 1, [L], MAX_LINKS);
    var t := Target(false, 2, [X]);
    assert Steps(t) + Downs([L][1..]) == [Up] + ([Up] + Downs([X]));
    UpStep(CLIMBS, 0, 1, [Up] + Downs([X]), MAX_LINKS - 1);
    UpStep(CLIMBS, 0, 0, Downs([X]), MAX_LINKS - 1);
    WalkStep(CLIMBS, 0, 0, [X], MAX_LINKS - 1);
  }

  lemma ClimbsThere()
    ensures ClimbsAt(CLIMBS, 0, [A], L) && TextLen([A] + [L], false) <= MAX_PATH
  {
    NoSteps(CLIMBS, 0);
    PlainDown(CLIMBS, 0, [], 0, A);
    RootStraight(CLIMBS, 0);
    StraightDown(CLIMBS, 0, [], 0, A);
    assert [] + [A] == [A];
    JoinLength([A], [L]);
    JoinLast([A]);
    JoinLast([L]);
    JoinLast([]);
    assert Dir([A]) == [] && Dir([L]) == [];
  }

  lemma UpStep(g: Graph, root: nat, d: nat, rest: seq<Step>, links: nat)
    requires IsFolder(g, d) && IsFolder(g, g[d].up)
    ensures Walk(g, root, d, [Up] + rest, links) == Walk(g, root, g[d].up, rest, links)
  {
    assert ([Up] + rest)[1..] == rest;
  }

  // ---- Where the budget runs out ----

  /** Components left for the links still allowed, one short of all of them. */
  ghost predicate Spare(s: Place, steps: nat) {
    && NoEmpty(s.cur) && NoEmpty(s.rest) && |Join(s.cur + s.rest)| <= MAX_PATH + 1
    && s.links <= MAX_LINKS && (s.links < MAX_LINKS ==> steps >= |s.rest| + (MAX_LINKS - 1 - s.links) * PER_PATH)
  }

  lemma SpareMove(g: Graph, root: nat, s: Place, limit: nat, follow: bool, steps: nat)
    requires Spare(s, steps) && s.rest != [] && TargetsFit(g, limit) && steps > 0
    ensures var m := Next(g, root, s, follow); m != Stop(OutOfSteps) && (m.To? ==> Spare(m.place, steps - 1))
  {
    hide Join;
    RestNames(s.rest);
    assert s.cur + s.rest == s.cur + [s.rest[0]] + s.rest[1..];
    var m := Next(g, root, s, follow);
    if m.To? && m.place.links > s.links {
      var t := g[g[s.nid].kids[s.rest[0]]].target;
      Rebased(s.cur, t, s.rest[0], s.rest[1..]);
      JoinTwice(m.place.rest);
      assert [] + m.place.rest == m.place.rest;
    }
  }

  /** The budget of components runs out only once every link allowed has been followed. */
  lemma {:induction false} BudgetLasts(g: Graph, root: nat, s: Place, limit: nat, follow: bool, steps: nat) returns (k: nat)
    requires Spare(s, steps) && TargetsFit(g, limit) && Run(g, root, s, follow, steps) == OutOfSteps
    ensures After(g, root, s, follow, k).Some? && After(g, root, s, follow, k).value.links == MAX_LINKS
    decreases steps
  {
    hide Join, Next, TargetsFit;
    if s.links == MAX_LINKS {
      k := 0;
    } else {
      assert steps > 0;
      SpareMove(g, root, s, limit, follow, steps);
      var t := Next(g, root, s, follow).place;
      k := BudgetLasts(g, root, t, limit, follow, steps - 1);
      AfterNext(g, root, s, follow, k);
      k := k + 1;
    }
  }

  lemma {:induction false} AfterNext(g: Graph, root: nat, s: Place, follow: bool, k: nat)
    requires s.rest != [] && Next(g, root, s, follow).To?
    ensures After(g, root, s, follow, k + 1) == After(g, root, Next(g, root, s, follow).place, follow, k)
  {
    hide Next;
    if k > 0 {
      AfterNext(g, root, s, follow, k - 1);
    }
  }

  lemma OutOfStepsLate(g: Graph, root: nat, path: Path, limit: nat, follow: bool) returns (k: nat)
    requires NoEmpty(path) && TargetsFit(g, limit) && Resolution(g, root, path, follow) == OutOfSteps
    ensures var s := After(g, root, Place(root, [], path, 0), follow, k); s.Some? && s.value.links == MAX_LINKS
  {
    hide Join, Run, TargetsFit;
    JoinTwice(path);
    assert [] + path == path;
    k := BudgetLasts(g, root, Place(root, [], path, 0), limit, follow, MAX_COMPONENTS);
  }

  // A directory 2047 levels down, with 255 links there, each to the next, and a file the last leads to.

  const DEPTH: nat := 2047

  function Rung(i: nat): Name
    requires i < 256
  {
    [0x30 + i / 16, 0x30 + i % 16]
  }

  function RungNid(i: nat): nat {
    DEPTH + 1 + i
  }

  function Rungs(n: nat): (m: map<Name, nat>)
    requires n <= 256
  {
    if n == 0 then map[] else Rungs(n - 1)[Rung(n - 1) := RungNid(n - 1)]
  }

  lemma {:induction false} RungsHave(n: nat, i: nat)
    requires i < n <= 256
    ensures Rung(i) in Rungs(n) && Rungs(n)[Rung(i)] == RungNid(i)
  {
    if i < n - 1 {
      RungsHave(n - 1, i);
      assert Rung(i)[0] != Rung(n - 1)[0] || Rung(i)[1] != Rung(n - 1)[1];
    }
  }

  function Chain(n: nat): (p: Path)
    ensures |p| == n
  {
    if n == 0 then [] else Chain(n - 1) + [A]
  }

  const DEEP: Graph :=
    map x: nat | x < DEPTH + 257 ::
      if x < DEPTH then Folder(map[A := x + 1], if x == 0 then 0 else x - 1)
      else if x == DEPTH then Folder(Rungs(256), DEPTH - 1)
      else if x < DEPTH + 256 then Link(Target(false, 0, [Rung(x - DEPTH)]))
      else Other

  lemma {:induction false} ChainStraight(n: nat)
    requires n <= DEPTH
    ensures Straight(DEEP, 0, Chain(n)) && Plain(DEEP, 0, Chain(n)) == Some(n) && |Join(Chain(n))| == 2 * n
  {
    hide Plain, Straight, Join;
    if n == 0 {
      NoSteps(DEEP, 0);
      RootStraight(DEEP, 0);
      JoinLast([]);
    } else {
      ChainStraight(n - 1);
      PlainDown(DEEP, 0, Chain(n - 1), n - 1, A);
      StraightDown(DEEP, 0, Chain(n - 1), n - 1, A);
      JoinLast(Chain(n));
      assert Dir(Chain(n)) == Chain(n - 1);
    }
  }

  lemma RungIs(i: nat)
    requires i < 256
    ensures IsFolder(DEEP, DEPTH) && Rung(i) in DEEP[DEPTH].kids && DEEP[DEPTH].kids[Rung(i)] == DEPTH + 1 + i && DEPTH + 1 + i in DEEP
    ensures i < 255 ==> DEEP[DEPTH + 1 + i] == Link(Target(false, 0, [Rung(i + 1)]))
    ensures i == 255 ==> DEEP[DEPTH + 1 + i] == Other
  {
    hide Rungs;
    RungsHave(256, i);
  }

  /** The reader at the start of its way to rung i, i links followed. */
  function AtRung(i: nat): Place
    requires i < 256
  {
    Place(0, [], Chain(DEPTH) + [Rung(i)], i)
  }

  lemma Hop(i: nat, steps: nat)
    requires i < 255 && steps >= PER_PATH
    ensures Run(DEEP, 0, AtRung(i), true, steps) == Run(DEEP, 0, AtRung(i + 1), true, steps - PER_PATH)
  {
    hide Run, Plain, Straight, Join, Chain;
    var p := Chain(DEPTH);
    ChainStraight(DEPTH);
    NoSteps(DEEP, 0);
    assert p[..0] == [] && p[0..] + [Rung(i)] == p + [Rung(i)];
    RunDown(DEEP, 0, p, Rung(i), i, 0, steps);
    RungIs(i);
    var s := Place(DEPTH, p, [Rung(i)], i);
    JoinLength(p, [Rung(i + 1)]);
    JoinLast([Rung(i + 1)]);
    JoinLast([]);
    assert Dir([Rung(i + 1)]) == [];
    assert s.rest[1..] == [] && p[..|p| - 0] + [Rung(i + 1)] + [] == p + [Rung(i + 1)];
    RunStep(DEEP, 0, s, true, steps - DEPTH);
  }

  lemma {:induction false} Stuck(i: nat)
    requires i < 256
    ensures Run(DEEP, 0, AtRung(i), true, (255 - i) * PER_PATH) == OutOfSteps
    decreases 255 - i
  {
    hide Chain;
    if i < 255 {
      Hop(i, (255 - i) * PER_PATH);
      Stuck(i + 1);
    }
  }

  lemma {:induction false} RungWalks(i: nat)
    requires i < 256
    ensures Walk(DEEP, 0, DEPTH, Downs([Rung(i)]), 255 - i) == Some(At(DEPTH + 256, 0))
    decreases 255 - i
  {
    hide Walk, Chain, Downs;
    RungIs(i);
    WalkStep(DEEP, 0, DEPTH, [Rung(i)], 255 - i);
    assert [Rung(i)][1..] == [];
    if i < 255 {
      SameSteps(Rung(i + 1));
      RungWalks(i + 1);
    } else {
      WalkDone(DEEP, 0, DEPTH + 256, 0);
    }
  }

  lemma SameSteps(n: Name)
    ensures Steps(Target(false, 0, [n])) + Downs([]) == Downs([n])
  {
  }

  lemma WalkDone(g: Graph, root: nat, d: nat, links: nat)
    ensures Walk(g, root, d, Downs([]), links) == Some(At(d, links))
  {
  }

  /** A path that follows all 255 links the reference may, 2048 components a time: the reference finds the file, the reader's budget is spent. */
  lemma BudgetSpent()
    ensures var path := Chain(DEPTH) + [Rung(0)];
            && Walk(DEEP, 0, 0, Downs(path), MAX_LINKS) == Some(At(DEPTH + 256, 0))
            && Resolution(DEEP, 0, path, true) == OutOfSteps
  {
    hide Run, Plain, Straight, Join, Chain, Walk, Downs;
    var p := Chain(DEPTH);
    ChainStraight(DEPTH);
    DownsConcat(p, [Rung(0)]);
    StraightWalks(DEEP, 0, p, Downs([Rung(0)]), MAX_LINKS);
    RungWalks(0);
    Stuck(0);
    JoinLength(p, [Rung(0)]);
    JoinLast([Rung(0)]);
    JoinLast([]);
    assert Dir([Rung(0)]) == [];
  }
}
