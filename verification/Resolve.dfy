/** Path resolution: the reader's walk, which restarts at the root for each symlink, and the reference's recursive one (erofs.go: resolve; internal/erofsspec/dir.go: walk, followLink). */
module Resolve {
  import opened Bytes
  import opened Names
  import opened Namespace

  const MAX_LINKS: nat := 255
  const MAX_COMPONENTS: nat := 255 * 2048

  /** A symlink's target once cleaned: from the root or from where the link is, up so many levels, then down these names. */
  datatype Target = Target(absolute: bool, ups: nat, names: Path)

  datatype Node = Folder(kids: map<Name, nat>, up: nat) | Link(target: Target) | Other

  type Graph = map<nat, Node>

  datatype Step = Up | Go(name: Name)

  // ---- Shape ----

  /** Plain lookups along p, through no symlink. */
  function Plain(g: Graph, root: nat, p: Path): Option<nat>
    decreases |p|
  {
    if p == [] then Some(root)
    else
      var d := Plain(g, root, Dir(p));
      if d.Some? && d.value in g && g[d.value].Folder? && p[|p| - 1] in g[d.value].kids then Some(g[d.value].kids[p[|p| - 1]]) else None
  }

  predicate IsFolder(g: Graph, d: nat) {
    d in g && g[d].Folder?
  }

  /** Every entry leads somewhere, the root's parent is itself, and any other directory's is the one it is listed in. */
  ghost predicate TreeShaped(g: Graph, root: nat) {
    && IsFolder(g, root) && g[root].up == root
    && (forall d, n :: IsFolder(g, d) && n in g[d].kids ==> g[d].kids[n] in g)
    && (forall p, d :: p != [] && Plain(g, root, p) == Some(d) && IsFolder(g, d) ==> Plain(g, root, Dir(p)) == Some(g[d].up))
  }

  // ---- The reference ----

  /** Where a walk ends and how many links it may still follow. */
  datatype At = At(nid: nat, links: nat)

  function Ups(k: nat): (s: seq<Step>)
    ensures |s| == k
  {
    seq(k, _ => Up)
  }

  function Downs(p: Path): (s: seq<Step>)
    ensures |s| == |p|
  {
    seq(|p|, i requires 0 <= i < |p| => Go(p[i]))
  }

  function Steps(t: Target): seq<Step> {
    Ups(t.ups) + Downs(t.names)
  }

  /** One entry of directory d. */
  function Entry(g: Graph, d: nat, s: Step): Option<nat> {
    if !IsFolder(g, d) then None
    else match s
      case Up => Some(g[d].up)
      case Go(n) => if n in g[d].kids then Some(g[d].kids[n]) else None
  }

  /** walk and followLink: one step at a time, a link's target walked where the link is. */
  function Walk(g: Graph, root: nat, d: nat, steps: seq<Step>, links: nat): (r: Option<At>)
    ensures r.Some? ==> r.value.links <= links
    decreases links, |steps|
  {
    if steps == [] then Some(At(d, links))
    else
      var next := Entry(g, d, steps[0]);
      if next.None? || next.value !in g then None
      else
        match g[next.value]
        case Link(t) =>
          if links == 0 then None
          else
            var end := Walk(g, root, if t.absolute then root else d, Steps(t), links - 1);
            if end.None? then None else Walk(g, root, end.value.nid, steps[1..], end.value.links)
        case _ => Walk(g, root, next.value, steps[1..], links)
  }

  function Then(g: Graph, root: nat, r: Option<At>, steps: seq<Step>): Option<At> {
    if r.None? then None else Walk(g, root, r.value.nid, steps, r.value.links)
  }

  /** A walk may be broken anywhere. */
  lemma {:induction false} WalkConcat(g: Graph, root: nat, d: nat, a: seq<Step>, b: seq<Step>, links: nat)
    ensures Walk(g, root, d, a + b, links) == Then(g, root, Walk(g, root, d, a, links), b)
    decreases links, |a|
  {
    if a == [] {
      assert a + b == b;
    } else {
      assert (a + b)[0] == a[0] && (a + b)[1..] == a[1..] + b;
      var next := Entry(g, d, a[0]);
      if next.Some? && next.value in g {
        if g[next.value].Link? {
          if links > 0 {
            var t := g[next.value].target;
            var end := Walk(g, root, if t.absolute then root else d, Steps(t), links - 1);
            if end.Some? {
              WalkConcat(g, root, end.value.nid, a[1..], b, end.value.links);
            }
          }
        } else {
          WalkConcat(g, root, next.value, a[1..], b, links);
        }
      }
    }
  }

  /** A plain path walks as its lookups do. */
  lemma {:induction false} PlainWalks(g: Graph, root: nat, p: Path, rest: seq<Step>, links: nat)
    requires Plain(g, root, p).Some? && (forall k :: 0 < k <= |p| ==> NotLink(g, root, p[..k]))
    ensures Walk(g, root, root, Downs(p) + rest, links) == Walk(g, root, Plain(g, root, p).value, rest, links)
    decreases |p|
  {
    if p == [] {
      assert Downs(p) + rest == rest;
    } else {
      var d, n := Dir(p), p[|p| - 1];
      assert Downs(p) + rest == Downs(d) + ([Go(n)] + rest);
      forall k | 0 < k <= |d| ensures NotLink(g, root, d[..k]) {
        assert d[..k] == p[..k];
      }
      PlainWalks(g, root, d, [Go(n)] + rest, links);
      assert p[..|p|] == p;
      assert NotLink(g, root, p);
      assert ([Go(n)] + rest)[1..] == rest;
    }
  }

  /** The plain path p leads to something that is there and no link. */
  predicate NotLink(g: Graph, root: nat, p: Path) {
    var d := Plain(g, root, p);
    d.Some? && d.value in g && !g[d.value].Link?
  }

  /** All of the plain path p leads through no link. */
  predicate Straight(g: Graph, root: nat, p: Path) {
    Plain(g, root, p).Some? && forall k :: 0 < k <= |p| ==> NotLink(g, root, p[..k])
  }

  lemma StraightUp(g: Graph, root: nat, p: Path, k: nat)
    requires Straight(g, root, p) && k <= |p| && IsFolder(g, root)
    ensures Straight(g, root, p[..k])
  {
    hide Plain;
    if k == 0 {
      NoSteps(g, root);
      assert p[..0] == [];
    } else {
      assert NotLink(g, root, p[..k]);
    }
    forall j | 0 < j <= k ensures NotLink(g, root, p[..k][..j]) {
      assert p[..k][..j] == p[..j];
    }
  }

  lemma NoSteps(g: Graph, root: nat)
    ensures Plain(g, root, []) == Some(root)
  {
  }

  /** Going up from a directory on a plain path leads back along it, and no further than the root. */
  lemma {:induction false} UpWalks(g: Graph, root: nat, p: Path, d: nat, k: nat, rest: seq<Step>, links: nat)
    requires TreeShaped(g, root) && Straight(g, root, p) && Plain(g, root, p) == Some(d) && IsFolder(g, d)
    ensures var q := p[..if k <= |p| then |p| - k else 0];
            Straight(g, root, q) && Walk(g, root, d, Ups(k) + rest, links) == Walk(g, root, Plain(g, root, q).value, rest, links)
    decreases k
  {
    hide Plain;
    if k == 0 {
      assert Ups(0) + rest == rest && p[..|p|] == p;
    } else {
      var up, q := g[d].up, if p == [] then [] else Dir(p);
      NoSteps(g, root);
      UpOf(g, root, p, d);
      StraightUp(g, root, p, |q|);
      assert q == p[..|q|];
      assert Ups(k) + rest == [Up] + (Ups(k - 1) + rest);
      assert ([Up] + (Ups(k - 1) + rest))[1..] == Ups(k - 1) + rest;
      UpWalks(g, root, q, up, k - 1, rest, links);
      var a, b: nat := if k <= |p| then |p| - k else 0, if k - 1 <= |q| then |q| - (k - 1) else 0;
      assert a == b && q[..b] == p[..a];
    }
  }

  /** The parent of a directory on a plain path is a directory, on the path above. */
  lemma UpOf(g: Graph, root: nat, p: Path, d: nat)
    requires TreeShaped(g, root) && Plain(g, root, p) == Some(d) && IsFolder(g, d)
    ensures Plain(g, root, if p == [] then [] else Dir(p)) == Some(g[d].up) && IsFolder(g, g[d].up)
  {
  }

  // ---- Restarting at the root ----

  /** The path from the root a link met in directory cur stands for, ahead of what is left to walk: refused where its cleaned form still starts above the root. */
  function Rebase(cur: Path, t: Target, rest: Path): Result<Path> {
    if t.absolute || cur == [] then Ok(t.names + rest)
    else if t.ups <= |cur| then Ok(cur[..|cur| - t.ups] + t.names + rest)
    else Err(Invalid)
  }

  /** Restarting leads where the reference goes: exactly, but for a target that climbs out of a directory below the root. */
  lemma RebaseAgrees(g: Graph, root: nat, cur: Path, d: nat, t: Target, rest: Path, links: nat)
    requires TreeShaped(g, root) && Straight(g, root, cur) && Plain(g, root, cur) == Some(d) && IsFolder(g, d)
    ensures var want := Walk(g, root, if t.absolute then root else d, Steps(t) + Downs(rest), links);
            && (Rebase(cur, t, rest).Ok? ==> Walk(g, root, root, Downs(Rebase(cur, t, rest).value), links) == want)
            && (Rebase(cur, t, rest).Err? ==> Walk(g, root, root, Downs(t.names + rest), links) == want)
    ensures Rebase(cur, t, rest).Ok? <==> t.absolute || t.ups <= |cur| || cur == []
  {
    hide Plain, TreeShaped, Straight, Downs, Ups, Walk;
    var from, path := if t.absolute then root else d, if t.absolute then [] else cur;
    NoSteps(g, root);
    RootStraight(g, root);
    RootFolder(g, root);
    var tail := Downs(t.names + rest);
    DownsConcat(t.names, rest);
    assert Steps(t) + Downs(rest) == Ups(t.ups) + tail;
    UpWalks(g, root, path, from, t.ups, tail, links);
    var q := path[..if t.ups <= |path| then |path| - t.ups else 0];
    StraightWalks(g, root, q, tail, links);
    DownsConcat(q, t.names + rest);
    assert q + t.names + rest == q + (t.names + rest);
    if q == [] {
      assert q + (t.names + rest) == t.names + rest;
    }
  }

  lemma DownsConcat(a: Path, b: Path)
    ensures Downs(a + b) == Downs(a) + Downs(b)
  {
  }

  lemma RootStraight(g: Graph, root: nat)
    ensures Straight(g, root, [])
  {
  }

  lemma RootFolder(g: Graph, root: nat)
    requires TreeShaped(g, root)
    ensures IsFolder(g, root)
  {
  }

  lemma StraightWalks(g: Graph, root: nat, p: Path, rest: seq<Step>, links: nat)
    requires Straight(g, root, p)
    ensures Walk(g, root, root, Downs(p) + rest, links) == Walk(g, root, Plain(g, root, p).value, rest, links)
  {
    PlainWalks(g, root, p, rest, links);
  }

  // ---- The reader ----

  /** Where the reader stands: the directory it is in, by nid and by path, what is left to walk, and the links followed. */
  datatype Place = Place(nid: nat, cur: Path, rest: Path, links: nat)

  /** curPath, walked plainly from the root, leads to the current nid through no link; and the reference has as far to go. */
  ghost predicate OnTrack(g: Graph, root: nat, path: Path, s: Place) {
    && s.links <= MAX_LINKS && Straight(g, root, s.cur) && Plain(g, root, s.cur) == Some(s.nid)
    && Walk(g, root, root, Downs(path), MAX_LINKS) == Walk(g, root, s.nid, Downs(s.rest), MAX_LINKS - s.links)
  }

  lemma TrackStart(g: Graph, root: nat, path: Path)
    ensures OnTrack(g, root, path, Place(root, [], path, 0))
  {
  }

  lemma WalkStep(g: Graph, root: nat, d: nat, rest: Path, links: nat)
    requires rest != []
    ensures var w := Walk(g, root, d, Downs(rest), links);
            && (!IsFolder(g, d) || rest[0] !in g[d].kids || g[d].kids[rest[0]] !in g ==> w.None?)
            && (IsFolder(g, d) && rest[0] in g[d].kids && g[d].kids[rest[0]] in g ==>
                  var next := g[d].kids[rest[0]];
                  && (!g[next].Link? ==> w == Walk(g, root, next, Downs(rest[1..]), links))
                  && (g[next].Link? && links == 0 ==> w.None?)
                  && (g[next].Link? && links > 0 ==>
                        var t := g[next].target; w == Walk(g, root, if t.absolute then root else d, Steps(t) + Downs(rest[1..]), links - 1)))
  {
    assert Downs(rest)[1..] == Downs(rest[1..]) && Downs(rest)[0] == Go(rest[0]);
    if IsFolder(g, d) && rest[0] in g[d].kids && g[d].kids[rest[0]] in g && links > 0 {
      var next := g[d].kids[rest[0]];
      if g[next].Link? {
        var t := g[next].target;
        WalkConcat(g, root, if t.absolute then root else d, Steps(t), Downs(rest[1..]), links - 1);
      }
    }
  }

  /** A plain step down keeps the reader on track. */
  lemma TrackDown(g: Graph, root: nat, path: Path, s: Place)
    requires OnTrack(g, root, path, s) && s.rest != [] && IsFolder(g, s.nid) && s.rest[0] in g[s.nid].kids
    requires var next := g[s.nid].kids[s.rest[0]]; next in g && !g[next].Link?
    ensures OnTrack(g, root, path, Place(g[s.nid].kids[s.rest[0]], s.cur + [s.rest[0]], s.rest[1..], s.links))
  {
    hide Walk;
    WalkStep(g, root, s.nid, s.rest, MAX_LINKS - s.links);
    PlainDown(g, root, s.cur, s.nid, s.rest[0]);
    var p := s.cur + [s.rest[0]];
    forall k | 0 < k <= |p| ensures NotLink(g, root, p[..k]) {
      if k <= |s.cur| {
        assert p[..k] == s.cur[..k];
      } else {
        assert p[..k] == p;
      }
    }
  }

  lemma PlainDown(g: Graph, root: nat, p: Path, d: nat, n: Name)
    requires Plain(g, root, p) == Some(d) && IsFolder(g, d) && n in g[d].kids
    ensures Plain(g, root, p + [n]) == Some(g[d].kids[n])
  {
    assert Dir(p + [n]) == p;
  }

  /** A link followed from the root keeps the reader on track, where it is not refused. */
  lemma TrackLink(g: Graph, root: nat, path: Path, s: Place, t: Target, to: Path)
    requires TreeShaped(g, root) && OnTrack(g, root, path, s) && s.rest != [] && s.links < MAX_LINKS
    requires IsFolder(g, s.nid) && s.rest[0] in g[s.nid].kids
    requires var next := g[s.nid].kids[s.rest[0]]; next in g && g[next] == Link(t)
    requires Rebase(s.cur, t, s.rest[1..]) == Ok(to)
    ensures OnTrack(g, root, path, Place(root, [], to, s.links + 1))
  {
    hide Walk, TreeShaped, Plain, Rebase, Straight, Downs;
    WalkStep(g, root, s.nid, s.rest, MAX_LINKS - s.links);
    RebaseAgrees(g, root, s.cur, s.nid, t, s.rest[1..], MAX_LINKS - s.links - 1);
    NoSteps(g, root);
    RootStraight(g, root);
  }

  /** How a resolution ends: at an inode under its plain path; with nothing there; or at one of its limits. */
  datatype End =
    | Found(nid: nat, at: Path)
    | Missing
    | NotFolder
    | OutOfLinks
    | Climbs
    | TooLong
    | OutOfSteps

  /** A cleaned path's length as text: with a slash in front where it is rooted. */
  function TextLen(p: Path, rooted: bool): int {
    |Join(p)| - if rooted then 0 else 1
  }

  /** One component: the end, or the next place. */
  datatype Move = Stop(end: End) | To(place: Place)

  /** resolve's loop body. */
  function Next(g: Graph, root: nat, s: Place, follow: bool): (m: Move)
    requires s.rest != []
    ensures m.Stop? ==> !m.end.Found?
  {
    if !IsFolder(g, s.nid) then Stop(NotFolder)
    else if s.rest[0] !in g[s.nid].kids then Stop(Missing)
    else
      var next, rest := g[s.nid].kids[s.rest[0]], s.rest[1..];
      if next in g && g[next].Link? && (follow || rest != []) then
        if s.links == MAX_LINKS then Stop(OutOfLinks)
        else
          var to := Rebase(s.cur, g[next].target, rest);
          if to.Err? then Stop(Climbs)
          else if TextLen(to.value, g[next].target.absolute || s.cur == []) > MAX_PATH then Stop(TooLong)
          else To(Place(root, [], to.value, s.links + 1))
      else To(Place(next, s.cur + [s.rest[0]], rest, s.links))
  }

  /** The moves from s, so many components at most. */
  function Run(g: Graph, root: nat, s: Place, follow: bool, steps: nat): End
    decreases steps
  {
    if s.rest == [] then Found(s.nid, s.cur)
    else if steps == 0 then OutOfSteps
    else match Next(g, root, s, follow)
      case Stop(e) => e
      case To(t) => Run(g, root, t, follow, steps - 1)
  }

  function Resolution(g: Graph, root: nat, path: Path, follow: bool): End {
    if TextLen(path, false) > MAX_PATH then TooLong else Run(g, root, Place(root, [], path, 0), follow, MAX_COMPONENTS)
  }

  /** A move that does not end the walk keeps the reader on track; one that finds nothing, or no links left, ends the reference's too. */
  lemma MoveTracks(g: Graph, root: nat, path: Path, s: Place)
    requires TreeShaped(g, root) && OnTrack(g, root, path, s) && s.rest != []
    ensures var m := Next(g, root, s, true);
            && (m.To? ==> OnTrack(g, root, path, m.place))
            && (m == Stop(Missing) || m == Stop(NotFolder) || m == Stop(OutOfLinks) ==> Walk(g, root, root, Downs(path), MAX_LINKS).None?)
  {
    hide TreeShaped, OnTrack, Plain, Straight, Walk, Downs, Rebase, TextLen;
    TrackFacts(g, root, path, s);
    WalkStep(g, root, s.nid, s.rest, MAX_LINKS - s.links);
    if IsFolder(g, s.nid) && s.rest[0] in g[s.nid].kids {
      EntryThere(g, root, s.nid, s.rest[0]);
      var next := g[s.nid].kids[s.rest[0]];
      if !g[next].Link? {
        TrackDown(g, root, path, s);
      } else if s.links < MAX_LINKS {
        var to := Rebase(s.cur, g[next].target, s.rest[1..]);
        if to.Ok? {
          TrackLink(g, root, path, s, g[next].target, to.value);
        }
      }
    }
  }

  lemma {:induction false} RunAgrees(g: Graph, root: nat, path: Path, s: Place, steps: nat)
    requires TreeShaped(g, root) && OnTrack(g, root, path, s)
    ensures var e, w := Run(g, root, s, true, steps), Walk(g, root, root, Downs(path), MAX_LINKS);
            && (e.Found? ==> w.Some? && w.value.nid == e.nid && Straight(g, root, e.at) && Plain(g, root, e.at) == Some(e.nid))
            && (e.Missing? || e.NotFolder? || e.OutOfLinks? ==> w.None?)
    decreases steps
  {
    hide TreeShaped, OnTrack, Plain, Straight, Walk, Downs, Next, Run;
    RunStep(g, root, s, true, steps);
    if s.rest == [] {
      TrackEnd(g, root, path, s);
    } else if steps > 0 {
      MoveTracks(g, root, path, s);
      if Next(g, root, s, true).To? {
        RunAgrees(g, root, path, Next(g, root, s, true).place, steps - 1);
      }
    }
  }

  /** On a tree, wherever no limit is met, the reader finds exactly what the reference finds: same inode, or nothing. */
  lemma ResolveAgrees(g: Graph, root: nat, path: Path)
    requires TreeShaped(g, root)
    ensures var e, w := Resolution(g, root, path, true), Walk(g, root, root, Downs(path), MAX_LINKS);
            && (e.Found? ==> w.Some? && w.value.nid == e.nid)
            && (e.Missing? || e.NotFolder? || e.OutOfLinks? ==> w.None?)
            && (e.Climbs? || e.TooLong? || e.OutOfSteps? || (e.Found? <==> w.Some?))
  {
    hide TreeShaped, OnTrack, Plain, Straight, Walk, Downs, Run, TextLen;
    TrackStart(g, root, path);
    RunAgrees(g, root, path, Place(root, [], path, 0), MAX_COMPONENTS);
  }

  /** The path a resolution ends on, walked plainly from the root, leads to the inode it ends on; that may be a link where the last is not followed. */
  lemma {:induction false} RunStraight(g: Graph, root: nat, s: Place, follow: bool, steps: nat)
    requires Plain(g, root, s.cur) == Some(s.nid)
    ensures var e := Run(g, root, s, follow, steps); e.Found? ==> Plain(g, root, e.at) == Some(e.nid)
    decreases steps
  {
    hide Plain, Rebase, TextLen;
    if s.rest != [] && steps > 0 {
      var m := Next(g, root, s, follow);
      if m.To? {
        NoSteps(g, root);
        if m.place.cur != [] {
          PlainDown(g, root, s.cur, s.nid, s.rest[0]);
        }
        RunStraight(g, root, m.place, follow, steps - 1);
      }
    }
  }

  /** Where the reader stands after k moves from s, while it has not stopped. */
  function After(g: Graph, root: nat, s: Place, follow: bool, k: nat): Option<Place> {
    if k == 0 then Some(s)
    else
      var t := After(g, root, s, follow, k - 1);
      if t.None? || t.value.rest == [] then None
      else match Next(g, root, t.value, follow)
        case Stop(_) => None
        case To(place) => Some(place)
  }

  /** At every iteration the current path, looked up plainly from the root, leads to the current nid. */
  lemma {:induction false} EveryPlace(g: Graph, root: nat, path: Path, follow: bool, k: nat)
    ensures var s := After(g, root, Place(root, [], path, 0), follow, k); s.Some? ==> Plain(g, root, s.value.cur) == Some(s.value.nid)
  {
    hide Plain, Rebase, TextLen;
    NoSteps(g, root);
    if k > 0 {
      EveryPlace(g, root, path, follow, k - 1);
      var t := After(g, root, Place(root, [], path, 0), follow, k - 1);
      if t.Some? && t.value.rest != [] {
        var m := Next(g, root, t.value, follow);
        if m.To? && m.place.cur != [] {
          PlainDown(g, root, t.value.cur, t.value.nid, t.value.rest[0]);
        }
      }
    }
  }

  function ErrorOf(e: End): Error {
    match e
    case Missing => NotExist
    case NotFolder => NotDirectory
    case OutOfLinks => Loop
    case OutOfSteps => Loop
    case _ => Invalid
  }

  /** resolve. */
  method ResolvePath(g: Graph, root: nat, path: Path, follow: bool) returns (r: Result<nat>, where: Path)
    ensures var e := Resolution(g, root, path, follow);
            if e.Found? then r == Ok(e.nid) && where == e.at && Plain(g, root, where) == Some(e.nid) else r == Err(ErrorOf(e))
  {
    hide Plain, Rebase, TextLen, Run;
    where := [];
    if TextLen(path, false) > MAX_PATH {
      return Err(Invalid), [];
    }
    var s := Place(root, [], path, 0);
    NoSteps(g, root);
    RunStraight(g, root, s, follow, MAX_COMPONENTS);
    var components := 0;
    while s.rest != []
      invariant components <= MAX_COMPONENTS
      invariant Run(g, root, s, follow, MAX_COMPONENTS - components) == Resolution(g, root, path, follow)
      decreases MAX_COMPONENTS - components
    {
      RunStep(g, root, s, follow, MAX_COMPONENTS - components);
      components := components + 1;
      if components > MAX_COMPONENTS {
        return Err(Loop), [];
      }
      if s.nid !in g || !g[s.nid].Folder? {
        return Err(NotDirectory), [];
      }
      var name, rest := s.rest[0], s.rest[1..];
      if name !in g[s.nid].kids {
        return Err(NotExist), [];
      }
      var next := g[s.nid].kids[name];
      if next in g && g[next].Link? && (follow || rest != []) {
        if s.links == MAX_LINKS {
          return Err(Loop), [];
        }
        var to := Rebase(s.cur, g[next].target, rest);
        if to.Err? || TextLen(to.value, g[next].target.absolute || s.cur == []) > MAX_PATH {
          return Err(Invalid), [];
        }
        s := Place(root, [], to.value, s.links + 1);
      } else {
        s := Place(next, s.cur + [name], rest, s.links);
      }
    }
    RunStep(g, root, s, follow, MAX_COMPONENTS - components);
    return Ok(s.nid), s.cur;
  }

  lemma RunStep(g: Graph, root: nat, s: Place, follow: bool, steps: nat)
    ensures s.rest == [] ==> Run(g, root, s, follow, steps) == Found(s.nid, s.cur)
    ensures s.rest != [] && steps == 0 ==> Run(g, root, s, follow, steps) == OutOfSteps
    ensures s.rest != [] && steps > 0 ==>
              var m := Next(g, root, s, follow);
              Run(g, root, s, follow, steps) == if m.Stop? then m.end else Run(g, root, m.place, follow, steps - 1)
  {
    hide Next;
  }

  lemma TrackFacts(g: Graph, root: nat, path: Path, s: Place)
    requires OnTrack(g, root, path, s)
    ensures s.links <= MAX_LINKS && Plain(g, root, s.cur) == Some(s.nid)
    ensures Walk(g, root, root, Downs(path), MAX_LINKS) == Walk(g, root, s.nid, Downs(s.rest), MAX_LINKS - s.links)
  {
  }

  lemma TrackEnd(g: Graph, root: nat, path: Path, s: Place)
    requires OnTrack(g, root, path, s) && s.rest == []
    ensures Plain(g, root, s.cur) == Some(s.nid) && Straight(g, root, s.cur)
    ensures var w := Walk(g, root, root, Downs(path), MAX_LINKS); w.Some? && w.value.nid == s.nid
  {
  }

  lemma EntryThere(g: Graph, root: nat, d: nat, n: Name)
    requires TreeShaped(g, root) && IsFolder(g, d) && n in g[d].kids
    ensures g[d].kids[n] in g
  {
  }
}
