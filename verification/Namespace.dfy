/** What a Writer's tree means: a map from paths to inodes, and what each operation does to it (mkfs.go). */
module Namespace {
  import opened Bytes
  import opened Names

  /** A cleaned path: its elements, none for the root. */
  type Path = seq<Name>

  const MAX_PATH := 4096
  const MAX_NAME := 255

  function Dir(p: Path): (d: Path)
    requires p != []
    ensures d < p
  {
    p[..|p| - 1]
  }

  /** The path as a string: each element behind a slash. */
  function Join(p: Path): seq<byte> {
    if p == [] then [] else Join(Dir(p)) + [0x2F] + p[|p| - 1]
  }

  /** checkPathLen and checkNameLen. */
  predicate Fits(p: Path) {
    |Join(p)| <= MAX_PATH && forall i :: 0 <= i < |p| ==> |p[i]| <= MAX_NAME
  }

  datatype Kind = Directory | Regular | Symlink | Special

  /** What an inode holds beside its type: permission bits, the rest of its metadata and its data, and a link count set by hand. */
  datatype Meta = Meta(mode: nat, rest: seq<byte>, nlink: Option<nat>)

  /** An inode: its serial tells it apart from every other. */
  datatype Inode = Inode(serial: nat, kind: Kind, meta: Meta)

  datatype Space = Space(at: map<Path, Inode>, next: nat)

  datatype Outcome = Outcome(space: Space, error: Option<Error>)

  const IMPLICIT := Meta(0x1ED, [], None)

  // ---- Shape ----

  /** Every name lies in a directory, and names of one inode agree on it. */
  ghost predicate Sound(n: Space) {
    && [] in n.at && n.at[[]].kind == Directory
    && (forall p :: p in n.at && p != [] ==> Dir(p) in n.at && n.at[Dir(p)].kind == Directory)
    && (forall p :: p in n.at ==> n.at[p].serial < n.next)
    && (forall p, q :: p in n.at && q in n.at && n.at[p].serial == n.at[q].serial ==> n.at[p] == n.at[q])
    && (forall p, q :: p in n.at && q in n.at && n.at[p].serial == n.at[q].serial && n.at[p].kind == Directory ==> p == q)
  }

  // ---- Operations ----

  /** The nearest ancestor of p, or p itself, that exists. */
  function Nearest(at: map<Path, Inode>, p: Path): (a: Path)
    requires [] in at
    ensures a in at && a <= p
    ensures forall k :: |a| < k <= |p| ==> p[..k] !in at
  {
    if p in at then
      p
    else
      var a := Nearest(at, Dir(p));
      assert forall k :: 0 <= k < |p| ==> p[..k] == Dir(p)[..k];
      assert p[..|p|] == p;
      a
  }

  /** The missing directories down to p, topmost first. */
  function MakeDirs(n: Space, p: Path): Space {
    if p in n.at || p == [] then n
    else
      var m := MakeDirs(n, Dir(p));
      Space(m.at[p := Inode(m.next, Directory, IMPLICIT)], m.next + 1)
  }

  function EnsureParent(n: Space, p: Path): Result<Space>
    requires p != [] && [] in n.at
  {
    if n.at[Nearest(n.at, Dir(p))].kind != Directory then Err(NotDirectory) else Ok(MakeDirs(n, Dir(p)))
  }

  function Refuse(n: Space, e: Error): Outcome {
    Outcome(n, Some(e))
  }

  /** Create, Mkdir, Symlink and Mknod. */
  function Make(n: Space, p: Path, kind: Kind, meta: Meta): Outcome
    requires [] in n.at
  {
    if p == [] then
      if kind != Directory then Refuse(n, Exists)
      else
        var root := n.at[[]];
        Outcome(n.(at := n.at[[] := root.(meta := root.meta.(mode := meta.mode))]), None)
    else if !Fits(p) then Refuse(n, Invalid)
    else if p in n.at then Refuse(n, Exists)
    else
      var m := EnsureParent(n, p);
      if m.Err? then Refuse(n, m.error)
      else Outcome(Space(m.value.at[p := Inode(m.value.next, kind, meta)], m.value.next + 1), None)
  }

  function Link(n: Space, from: Path, p: Path): Outcome
    requires [] in n.at
  {
    if p == [] then Refuse(n, Exists)
    else if from !in n.at then Refuse(n, NotExist)
    else if n.at[from].kind == Directory then Refuse(n, IsDirectory)
    else if !Fits(p) then Refuse(n, Invalid)
    else if p in n.at then Refuse(n, Exists)
    else
      var m := EnsureParent(n, p);
      if m.Err? then Refuse(n, m.error) else Outcome(m.value.(at := m.value.at[p := n.at[from]]), None)
  }

  function Without(n: Space, gone: set<Path>): Space {
    n.(at := n.at - gone)
  }

  predicate HasChild(n: Space, p: Path) {
    exists q :: q in n.at && q != [] && Dir(q) == p
  }

  function Remove(n: Space, p: Path): Outcome {
    if p == [] then Refuse(n, Invalid)
    else if p !in n.at then Refuse(n, NotExist)
    else if n.at[p].kind == Directory && HasChild(n, p) then Refuse(n, NotEmpty)
    else Outcome(Without(n, {p}), None)
  }

  /** The names at and below p. */
  function Subtree(n: Space, p: Path): set<Path> {
    set q | q in n.at && p <= q
  }

  /** The names below p. */
  function Below(n: Space, p: Path): set<Path> {
    set q | q in n.at && p < q
  }

  function RemoveAll(n: Space, p: Path): Outcome
    requires [] in n.at
  {
    if p == [] then Refuse(n, Invalid)
    else if p !in n.at then
      if n.at[Nearest(n.at, Dir(p))].kind != Directory then Refuse(n, NotDirectory) else Outcome(n, None)
    else Outcome(Without(n, Subtree(n, p)), None)
  }

  /** A whiteout: p and all below it go. */
  function RemoveTree(n: Space, p: Path): Space {
    if p !in n.at then n else Without(n, Subtree(n, p))
  }

  /** An opaque whiteout: all below p goes. */
  function RemoveChildren(n: Space, p: Path): Space {
    if p !in n.at then n else Without(n, Below(n, p))
  }

  /** A later layer's entry may take p's place: a directory always, anything else where nothing lies below p. */
  predicate MayPlace(n: Space, p: Path, kind: Kind) {
    kind == Directory || !HasChild(n, p)
  }

  /** add: p becomes a new inode, whatever it was; the root keeps its own and takes the metadata. */
  function Place(n: Space, p: Path, kind: Kind, meta: Meta): Outcome
    requires [] in n.at
  {
    if !Fits(p) then Refuse(n, Invalid)
    else if p == [] then SetMeta(n, [], meta.(nlink := n.at[[]].meta.nlink))
    else
      var m := EnsureParent(n, p);
      if m.Err? then Refuse(n, m.error)
      else Outcome(Space(m.value.at[p := Inode(m.value.next, kind, meta)], m.value.next + 1), None)
  }

  /** add, for a further name of the inode at prior. */
  function PlaceLink(n: Space, prior: Path, p: Path): Outcome
    requires p != [] && [] in n.at && prior in n.at
  {
    if !Fits(p) then Refuse(n, Invalid)
    else
      var m := EnsureParent(n, p);
      if m.Err? then Refuse(n, m.error)
      else if p in n.at && n.at[p].kind == Directory then Refuse(n, IsDirectory)
      else Outcome(m.value.(at := m.value.at[p := n.at[prior]]), None)
  }

  /** Chmod, Chown, Chtimes, Setxattr and SetNlink: every name of the inode sees the change. */
  function SetMeta(n: Space, p: Path, meta: Meta): Outcome {
    if p !in n.at then Refuse(n, NotExist)
    else
      Outcome(n.(at := map q | q in n.at :: if n.at[q].serial == n.at[p].serial then n.at[q].(meta := meta) else n.at[q]), None)
  }
}
