/** Every run of a Writer's operations, against the same run on the map from paths to inodes (mkfs.go). */
module WriterRuns {
  import opened Bytes
  import opened Namespace
  import opened Entries
  import opened Growth
  import opened TreeFacts
  import opened WriterTree

  datatype Op =
    | Making(path: Path, kind: Kind, meta: Meta)
    | Linking(from: Path, path: Path)
    | Setting(path: Path, meta: Meta)
    | Removing(path: Path)
    | RemovingAll(path: Path)
    | Whiteout(path: Path)
    | Opaque(path: Path)
    | Placing(path: Path, kind: Kind, meta: Meta)
    | Relinking(prior: Path, path: Path)

  /** What a merge may ask for: no whiteout for the root, no file where names still live below, no further name for a directory. */
  predicate Permitted(n: Space, op: Op) {
    match op
    case Whiteout(p) => p != []
    case Placing(p, kind, _) => MayPlace(n, p, kind)
    case Relinking(prior, p) => p != [] && prior in n.at && n.at[prior].kind != Directory
    case _ => true
  }

  function Step(n: Space, op: Op): Outcome
    requires [] in n.at && Permitted(n, op)
  {
    match op
    case Making(p, kind, meta) => Make(n, p, kind, meta)
    case Linking(from, p) => Link(n, from, p)
    case Setting(p, meta) => SetMeta(n, p, meta)
    case Removing(p) => Remove(n, p)
    case RemovingAll(p) => RemoveAll(n, p)
    case Whiteout(p) => Outcome(RemoveTree(n, p), None)
    case Opaque(p) => Outcome(RemoveChildren(n, p), None)
    case Placing(p, kind, meta) => Place(n, p, kind, meta)
    case Relinking(prior, p) => PlaceLink(n, prior, p)
  }

  /** The run from n is permitted and ends in m, with these errors. */
  ghost predicate Runs(n: Space, ops: seq<Op>, errs: seq<Option<Error>>, m: Space)
    decreases |ops|
  {
    if ops == [] then errs == [] && m == n
    else
      && errs != [] && [] in n.at && Permitted(n, ops[0])
      && Step(n, ops[0]).error == errs[0] && Runs(Step(n, ops[0]).space, ops[1..], errs[1..], m)
  }

  ghost predicate AllPermitted(n: Space, ops: seq<Op>)
    decreases |ops|
  {
    ops == [] || ([] in n.at && Permitted(n, ops[0]) && AllPermitted(Step(n, ops[0]).space, ops[1..]))
  }

  method Do(w: Writer, op: Op) returns (err: Option<Error>)
    requires w.Valid() && Permitted(w.Names(), op)
    modifies w
    ensures w.Valid() && [] in old(w.Names()).at && Outcome(w.Names(), err) == Step(old(w.Names()), op)
  {
    hide Inv, Map, MayPlace, Make, Link, Remove, RemoveAll, RemoveTree, RemoveChildren, Place, PlaceLink, SetMeta;
    RootAt(w.State());
    match op
    case Making(p, kind, meta) => err := w.Make(p, kind, meta);
    case Linking(from, p) => err := w.Link(from, p);
    case Setting(p, meta) => err := w.SetMeta(p, meta);
    case Removing(p) => err := w.Remove(p);
    case RemovingAll(p) => err := w.RemoveAll(p);
    case Whiteout(p) => w.RemoveTree(p); err := None;
    case Opaque(p) => w.RemoveChildren(p); err := None;
    case Placing(p, kind, meta) => err := w.Place(p, kind, meta);
    case Relinking(prior, p) =>
      At(w.State(), prior);
      err := w.PlaceLink(p, w.byPath[prior]);
  }

  /** Whatever is done to a Writer, in whatever order, its tree stays sound and means what the same run makes of the map. */
  method Run(w: Writer, ops: seq<Op>) returns (errs: seq<Option<Error>>)
    requires w.Valid() && AllPermitted(w.Names(), ops)
    modifies w
    ensures w.Valid() && Sound(w.Names()) && |errs| == |ops| && Runs(old(w.Names()), ops, errs, w.Names())
    decreases |ops|
  {
    hide Inv, Map, Permitted, Step, Sound;
    if ops == [] {
      errs := [];
    } else {
      var err := Do(w, ops[0]);
      var rest := Run(w, ops[1..]);
      errs := [err] + rest;
      assert errs[1..] == rest;
    }
    MapSound(w.State());
  }

  // ---- What addChild and placeEntry do not keep ----

  const A: Path := [[0x61]]
  const AB: Path := [[0x61], [0x62]]

  /** A name whose directory is missing goes to the root's children, where its path does not say it is. */
  lemma OrphanFails()
    ensures var x := Fresh(AB, Inode(1, Regular, IMPLICIT), None);
            Inv(Start(), NONE) && MayAdd(Start(), x) && !Inv(Added(Start(), x), NONE)
  {
    hide Inv, Added;
    NewTree();
    AddedInv(Start(), Fresh(AB, Inode(1, Regular, IMPLICIT), None));
  }

  /** /a and /a/b. */
  function Two(): Tree {
    Added(Added(Start(), Fresh(A, Inode(1, Directory, IMPLICIT), None)), Fresh(AB, Inode(2, Regular, IMPLICIT), None))
  }

  /** A file placed over a directory keeps the children no file can have. */
  lemma FileOverDirectoryFails()
    ensures Inv(Two(), NONE) && 1 < |Two().ents| && MayRewrite(Two(), 1, Inode(3, Regular, IMPLICIT), 4)
    ensures !Inv(Rewritten(Two(), 1, Inode(3, Regular, IMPLICIT), 4), NONE)
  {
    hide Inv, Added;
    NewTree();
    var x, y := Fresh(A, Inode(1, Directory, IMPLICIT), None), Fresh(AB, Inode(2, Regular, IMPLICIT), None);
    var s := Added(Start(), x);
    assert Dir(A) == [];
    AddedInv(Start(), x);
    assert s.ents[1] == AddedEntry(Start(), x, 1);
    assert Dir(AB) == A;
    AddedInv(s, y);
    var t := Two();
    assert t.ents[1] == AddedEntry(s, y, 1) && t.ents[2] == AddedEntry(s, y, 2);
    assert HasLive(t, 1);
    RewrittenInv(t, 1, Inode(3, Regular, IMPLICIT), 4);
  }
}
