/** The directory serialiser as it runs: sort, pack block by block, and the size the layout reserves (writer.go, layout.go). */
module DirWriter {
  import opened Bytes
  import opened Names
  import opened DirCodec

  // ---- Sorting ----

  function Insert(e: Dirent, es: seq<Dirent>): (r: seq<Dirent>)
    ensures multiset(r) == multiset(es) + multiset{e}
  {
    if es == [] || Less(e.name, es[0].name) then
      [e] + es
    else
      assert es == [es[0]] + es[1..];
      [es[0]] + Insert(e, es[1..])
  }

  function Sort(es: seq<Dirent>): (r: seq<Dirent>)
    ensures multiset(r) == multiset(es)
  {
    if es == [] then []
    else
      assert es == [es[0]] + es[1..];
      Insert(es[0], Sort(es[1..]))
  }

  predicate DistinctNames(es: seq<Dirent>) {
    forall i, j :: 0 <= i < j < |es| ==> es[i].name != es[j].name
  }

  lemma {:induction false} InsertSorted(e: Dirent, es: seq<Dirent>)
    requires Sorted(es) && (forall x :: x in es ==> x.name != e.name)
    ensures Sorted(Insert(e, es))
  {
    if es == [] {
    } else if Less(e.name, es[0].name) {
      forall j | 0 < j < |es| ensures Less(e.name, es[j].name) {
        Transitive(e.name, es[0].name, es[j].name);
      }
    } else {
      Trichotomy(e.name, es[0].name);
      InsertSorted(e, es[1..]);
      var r := Insert(e, es[1..]);
      forall j | 0 <= j < |r| ensures Less(es[0].name, r[j].name) {
        assert r[j] in multiset(r);
        assert r[j] == e || r[j] in es[1..];
      }
    }
  }

  /** Entries with distinct names come out strictly increasing, the same ones that went in. */
  lemma {:induction false} SortSorts(es: seq<Dirent>)
    requires DistinctNames(es)
    ensures Sorted(Sort(es))
  {
    if es != [] {
      SortSorts(es[1..]);
      forall x | x in Sort(es[1..]) ensures x.name != es[0].name {
        assert x in multiset(es[1..]);
      }
      InsertSorted(es[0], Sort(es[1..]));
    }
  }

  /** A directory's full entry list: itself, its parent and its children, in name order. */
  function DirEntries(nid: nat, parentNid: nat, children: seq<Dirent>): (es: seq<Dirent>)
    ensures |es| == |children| + 2
    ensures multiset(es) == multiset([Dirent(DOT, nid, TYPE_DIR), Dirent(DOTDOT, parentNid, TYPE_DIR)] + children)
  {
    var all := [Dirent(DOT, nid, TYPE_DIR), Dirent(DOTDOT, parentNid, TYPE_DIR)] + children;
    assert |multiset(Sort(all))| == |multiset(all)|;
    Sort(all)
  }

  /** Children a Writer's tree yields: proper, distinct names, none of them a dot entry. */
  predicate ValidChildren(children: seq<Dirent>) {
    && Encodable(children)
    && DistinctNames(children)
    && forall i :: 0 <= i < |children| ==> children[i].name != DOT && children[i].name != DOTDOT
  }

  lemma SortKeeps(es: seq<Dirent>)
    requires Encodable(es)
    ensures Encodable(Sort(es))
  {
    var r := Sort(es);
    forall i | 0 <= i < |r| ensures ProperName(r[i].name) && r[i].nid < Width(8) {
      assert r[i] in multiset(r);
    }
  }

  /** What a directory lists is sorted and writable, whatever order its children came in. */
  lemma DirEntriesSorted(nid: nat, parentNid: nat, children: seq<Dirent>)
    requires ValidChildren(children) && nid < Width(8) && parentNid < Width(8)
    ensures Sorted(DirEntries(nid, parentNid, children)) && Encodable(DirEntries(nid, parentNid, children))
  {
    hide Sort, Width;
    var all := [Dirent(DOT, nid, TYPE_DIR), Dirent(DOTDOT, parentNid, TYPE_DIR)] + children;
    assert ProperName(DOT) && ProperName(DOTDOT) && |DOT| < |DOTDOT|;
    SortSorts(all);
    SortKeeps(all);
  }

  // ---- Packing ----

  /** Copies s into a at off and leaves the rest of a alone. */
  method Put(a: array<byte>, off: nat, s: seq<byte>)
    requires off + |s| <= a.Length
    modifies a
    ensures a[..] == Splice(old(a[..]), off, s)
  {
    for k := 0 to |s|
      invariant a[..off] == old(a[..off]) && a[off..off + k] == s[..k]
      invariant a[off + |s|..] == old(a[off + |s|..])
    {
      a[off + k] := s[k];
    }
    assert a[..] == a[..off] + a[off..off + |s|] + a[off + |s|..];
  }

  /** The scratch block b holds the first j entries, their headers in front and their names behind. */
  predicate Filled(b: seq<byte>, es: seq<Dirent>, j: nat) {
    && j <= |es| && |b| == |Block(es)| && NameOff(es, j) <= |b|
    && b[..DIRENT_SIZE * j] == HeadersTo(es, j)
    && b[DIRENT_SIZE * |es|..NameOff(es, j)] == NamesTo(es, j)
  }

  lemma FillStep(b: seq<byte>, es: seq<Dirent>, j: nat)
    requires j < |es| && Filled(b, es, j)
    ensures NameOff(es, j) + |es[j].name| <= |b|
    ensures Filled(Splice(Splice(b, DIRENT_SIZE * j, Header(es[j], NameOff(es, j))), NameOff(es, j), es[j].name), es, j + 1)
  {
    hide Splice, Header, Block;
    var head, off, at, h, n := DIRENT_SIZE * |es|, DIRENT_SIZE * j, NameOff(es, j), Header(es[j], NameOff(es, j)), es[j].name;
    NamesWithin(es, j, |es|);
    var b1 := Splice(b, off, h);
    var b2 := Splice(b1, at, n);
    SpliceSlices(b, off, h, 0, off);
    SpliceSlices(b, off, h, head, at);
    SpliceSlices(b1, at, n, 0, off);
    SpliceSlices(b1, at, n, off, off + DIRENT_SIZE);
    SpliceSlices(b1, at, n, head, at);
    assert b2[..off + DIRENT_SIZE] == b2[0..off] + b2[off..off + DIRENT_SIZE];
    assert b2[head..at + |n|] == b2[head..at] + b2[at..at + |n|];
  }

  lemma FillEnds(b: seq<byte>, es: seq<Dirent>)
    requires |b| == |Block(es)|
    ensures Filled(b, es, 0)
    ensures Filled(b, es, |es|) ==> b == Block(es)
  {
    assert b == b[..DIRENT_SIZE * |es|] + b[DIRENT_SIZE * |es|..];
  }

  /** Serialises one block's entries into a scratch buffer of exactly their size. */
  method FillBlock(blk: array<byte>, es: seq<Dirent>)
    requires blk.Length == |Block(es)|
    modifies blk
    ensures blk[..] == Block(es)
  {
    hide Filled, Splice, Header, Block;
    var nameOff := DIRENT_SIZE * |es|;
    FillEnds(blk[..], es);
    for j := 0 to |es|
      invariant nameOff == NameOff(es, j) && Filled(blk[..], es, j)
    {
      FillStep(blk[..], es, j);
      NamesWithin(es, j, |es|);
      Put(blk, DIRENT_SIZE * j, Header(es[j], nameOff));
      Put(blk, nameOff, es[j].name);
      nameOff := nameOff + |es[j].name|;
    }
    FillEnds(blk[..], es);
  }

  /** How many entries from start fit one block, and the bytes they take. */
  method PackBlock(all: seq<Dirent>, start: nat, bs: nat) returns (i: nat, blockUsed: nat)
    requires start < |all|
    ensures i == start + Taken(all[start..], bs)
    ensures blockUsed == Used(all[start..], i - start)
  {
    var es := all[start..];
    i, blockUsed := start, 0;
    var nameSize, j := 0, start;
    while j < |all|
      invariant start <= i == j <= |all|
      invariant DIRENT_SIZE * (j - start) + nameSize == Used(es, j - start) == blockUsed
      invariant Fit(es, j - start, bs) == Fit(es, 0, bs)
    {
      nameSize := nameSize + |all[j].name|;
      var needed := (j - start + 1) * DIRENT_SIZE + nameSize;
      assert needed == Used(es, j - start + 1);
      if needed > bs {
        break;
      }
      blockUsed := needed;
      i, j := j + 1, j + 1;
    }
    assert Fit(es, 0, bs) == i - start;
    if i == start {
      blockUsed := DIRENT_SIZE + |all[i].name|;
      assert Used(es, 1) == blockUsed;
      i := i + 1;
    }
  }

  /** The next block of a directory's bytes, padded to the block size when more entries follow. */
  method WriteBlock(all: seq<Dirent>, start: nat, bs: nat) returns (i: nat, bytes: seq<byte>)
    requires start < |all| && bs > 0
    ensures i == start + Taken(all[start..], bs)
    ensures bytes == FirstBytes(all[start..], bs)
  {
    hide Block, Taken, Used;
    var blockUsed;
    i, blockUsed := PackBlock(all, start, bs);
    var ents := all[start..i];
    assert ents == all[start..][..i - start];
    TakenLength(all[start..], i - start);
    var blk := new byte[blockUsed](_ => 0);
    FillBlock(blk, ents);
    bytes := blk[..];
    assert bytes + Zeros(0) == bytes;
    if i < |all| && blockUsed % bs != 0 {
      bytes := bytes + Zeros(bs - blockUsed % bs);
    }
  }

  lemma TakenLength(es: seq<Dirent>, n: nat)
    requires n <= |es|
    ensures |Block(es[..n])| == Used(es, n)
  {
    UsedOfPrefix(es, n, n);
    UsedBytes(es[..n], n);
  }

  /** The bytes of a directory: its sorted entries, a block at a time. */
  method WriteDirents(nid: nat, parentNid: nat, children: seq<Dirent>, bs: nat) returns (out: seq<byte>)
    requires bs > 0
    ensures out == EncodeDir(DirEntries(nid, parentNid, children), bs)
  {
    hide FirstBytes, Taken, DirEntries;
    var all := DirEntries(nid, parentNid, children);
    var i := 0;
    out := [];
    assert all[0..] == all;
    while i < |all|
      invariant i <= |all|
      invariant out + EncodeDir(all[i..], bs) == EncodeDir(all, bs)
    {
      ghost var was, rest := out, all[i..];
      var start := i;
      var bytes;
      i, bytes := WriteBlock(all, start, bs);
      assert all[i..] == rest[i - start..];
      out := out + bytes;
      assert out + EncodeDir(all[i..], bs) == was + (bytes + EncodeDir(all[i..], bs));
    }
  }

  // ---- The size reserved before any nid exists ----

  predicate SameNames(a: seq<Dirent>, b: seq<Dirent>) {
    |a| == |b| && forall i :: 0 <= i < |a| ==> a[i].name == b[i].name
  }

  lemma {:induction false} InsertSame(e: Dirent, f: Dirent, a: seq<Dirent>, b: seq<Dirent>)
    requires SameNames(a, b) && e.name == f.name
    ensures SameNames(Insert(e, a), Insert(f, b))
  {
    hide Less, SameNames;
    HeadSame(a, b);
    if a != [] {
      InsertSame(e, f, a[1..], b[1..]);
      ConsSame(a[0], b[0], Insert(e, a[1..]), Insert(f, b[1..]));
    }
    ConsSame(e, f, a, b);
  }

  lemma HeadSame(a: seq<Dirent>, b: seq<Dirent>)
    requires SameNames(a, b)
    ensures a == [] <==> b == []
    ensures a != [] ==> a[0].name == b[0].name && SameNames(a[1..], b[1..])
  {
  }

  lemma ConsSame(e: Dirent, f: Dirent, a: seq<Dirent>, b: seq<Dirent>)
    requires SameNames(a, b) && e.name == f.name
    ensures SameNames([e] + a, [f] + b)
  {
  }

  lemma {:induction false} SortSame(a: seq<Dirent>, b: seq<Dirent>)
    requires SameNames(a, b)
    ensures SameNames(Sort(a), Sort(b))
  {
    if a != [] {
      SortSame(a[1..], b[1..]);
      InsertSame(a[0], b[0], Sort(a[1..]), Sort(b[1..]));
    }
  }

  lemma {:induction false} UsedSame(a: seq<Dirent>, b: seq<Dirent>, k: nat)
    requires SameNames(a, b) && k <= |a|
    ensures Used(a, k) == Used(b, k)
  {
    if k > 0 {
      UsedSame(a, b, k - 1);
    }
  }

  lemma {:induction false} FitSame(a: seq<Dirent>, b: seq<Dirent>, k: nat, bs: nat)
    requires SameNames(a, b) && k <= |a|
    ensures Fit(a, k, bs) == Fit(b, k, bs)
    decreases |a| - k
  {
    if k < |a| {
      UsedSame(a, b, k + 1);
      FitSame(a, b, k + 1, bs);
    }
  }

  lemma FirstSame(a: seq<Dirent>, b: seq<Dirent>, bs: nat)
    requires SameNames(a, b) && a != [] && bs > 0
    ensures Taken(a, bs) == Taken(b, bs) && |FirstBytes(a, bs)| == |FirstBytes(b, bs)|
  {
    hide Used, Fit, Block;
    FitSame(a, b, 0, bs);
    var n := Taken(a, bs);
    UsedSame(a, b, n);
    TakenLength(a, n);
    TakenLength(b, n);
  }

  /** The serialised length depends on the names alone. */
  lemma {:induction false} LengthSame(a: seq<Dirent>, b: seq<Dirent>, bs: nat)
    requires SameNames(a, b) && bs > 0
    ensures |EncodeDir(a, bs)| == |EncodeDir(b, bs)|
    decreases |a|
  {
    hide FirstBytes, Taken;
    if a != [] {
      FirstSame(a, b, bs);
      LengthSame(a[Taken(a, bs)..], b[Taken(a, bs)..], bs);
    }
  }

  lemma SizeSame(children: seq<Dirent>, nid: nat, parentNid: nat, kids: seq<Dirent>, bs: nat)
    requires SameNames(children, kids) && bs > 0
    ensures |EncodeDir(DirEntries(0, 0, children), bs)| == |EncodeDir(DirEntries(nid, parentNid, kids), bs)|
  {
    hide Sort, EncodeDir;
    SortSame([Dirent(DOT, 0, TYPE_DIR), Dirent(DOTDOT, 0, TYPE_DIR)] + children,
             [Dirent(DOT, nid, TYPE_DIR), Dirent(DOTDOT, parentNid, TYPE_DIR)] + kids);
    LengthSame(DirEntries(0, 0, children), DirEntries(nid, parentNid, kids), bs);
  }

  /** The size the layout reserves for a directory is the size its bytes take, whatever nids it is given later. */
  method CalcDirentDataSize(children: seq<Dirent>, bs: nat) returns (size: nat)
    requires bs > 0
    ensures forall nid, parentNid, kids :: SameNames(children, kids) ==>
              size == |EncodeDir(DirEntries(nid, parentNid, kids), bs)|
  {
    hide FirstBytes, Taken, DirEntries;
    var all := DirEntries(0, 0, children);
    size := 0;
    var i := 0;
    assert all[0..] == all;
    while i < |all|
      invariant i <= |all|
      invariant size + |EncodeDir(all[i..], bs)| == |EncodeDir(all, bs)|
    {
      ghost var rest := all[i..];
      var start := i;
      var blockUsed;
      i, blockUsed := PackBlock(all, start, bs);
      if i < |all| && blockUsed % bs != 0 {
        blockUsed := blockUsed + PadTo(blockUsed, bs);
      }
      assert all[i..] == rest[i - start..];
      FirstLength(rest, bs);
      size := size + blockUsed;
    }
    forall nid, parentNid, kids | SameNames(children, kids)
      ensures size == |EncodeDir(DirEntries(nid, parentNid, kids), bs)|
    {
      SizeSame(children, nid, parentNid, kids, bs);
    }
  }

  lemma FirstLength(es: seq<Dirent>, bs: nat)
    requires es != [] && bs > 0
    ensures var n := Taken(es, bs);
            |FirstBytes(es, bs)| == Used(es, n) + (if n < |es| then PadTo(Used(es, n), bs) else 0)
  {
    hide Used, Taken, Block;
    TakenLength(es, Taken(es, bs));
  }

  /** A directory read back is its entry list: itself, its parent and its children under their names. */
  lemma WrittenDirectory(nid: nat, parentNid: nat, children: seq<Dirent>, bs: nat)
    requires ValidChildren(children) && nid < Width(8) && parentNid < Width(8) && ValidBlockSize(bs)
    ensures var es := DirEntries(nid, parentNid, children);
            DecodeDir(EncodeDir(es, bs), bs) == Ok(es) && Sorted(es)
  {
    DirEntriesSorted(nid, parentNid, children);
    DirRoundTrip(DirEntries(nid, parentNid, children), bs);
  }
}
