/** Looking a name up in a directory the Writer wrote (writer.go, erofs.go, internal/erofsspec/dir.go). */
module DirLookup {
  import opened Bytes
  import opened Names
  import opened DirCodec
  import opened DirWriter
  import opened DirBlocks
  import opened DirSearch
  import KernelLookup

  lemma SortedDistinct(es: seq<Dirent>, e: Dirent, x: Dirent)
    requires Sorted(es) && e in es && x in es && e.name == x.name
    ensures e == x
  {
    var i :| 0 <= i < |es| && es[i] == e;
    var j :| 0 <= j < |es| && es[j] == x;
  }

  /** The entry a written directory has for a name: itself, its parent, a child, or none. */
  predicate Means(nid: nat, parentNid: nat, children: seq<Dirent>, name: Name, r: Result<Dirent>) {
    if name == DOT then r == Ok(Dirent(DOT, nid, TYPE_DIR))
    else if name == DOTDOT then r == Ok(Dirent(DOTDOT, parentNid, TYPE_DIR))
    else
      && (r.Ok? ==> r.value in children && r.value.name == name)
      && (r.Err? ==> r.error == NotExist && forall c :: c in children ==> c.name != name)
  }

  lemma InEntries(nid: nat, parentNid: nat, children: seq<Dirent>, e: Dirent)
    ensures e in DirEntries(nid, parentNid, children)
       <==> e == Dirent(DOT, nid, TYPE_DIR) || e == Dirent(DOTDOT, parentNid, TYPE_DIR) || e in children
  {
    hide DirEntries;
    var es := DirEntries(nid, parentNid, children);
    var all := [Dirent(DOT, nid, TYPE_DIR), Dirent(DOTDOT, parentNid, TYPE_DIR)] + children;
    assert e in es <==> e in multiset(es);
    assert e in all <==> e in multiset(all);
  }

  lemma ScanSorted(es: seq<Dirent>, name: Name)
    requires Sorted(es)
    ensures var r := Scan(es, name);
            if r.Ok? then r.value in es && r.value.name == name else r.error == NotExist && forall e :: e in es ==> e.name != name
  {
    hide Scan, Less;
    if e :| e in es && e.name == name {
      forall x | x in es && x.name == e.name ensures x == e {
        SortedDistinct(es, e, x);
      }
      ScanFinds(es, e);
    } else {
      ScanMisses(es, name);
    }
  }

  lemma WrittenScan(nid: nat, parentNid: nat, children: seq<Dirent>, name: Name)
    requires ValidChildren(children) && nid < Width(8) && parentNid < Width(8)
    ensures Means(nid, parentNid, children, name, Scan(DirEntries(nid, parentNid, children), name))
  {
    hide Width, DirEntries, Scan, Sorted, Encodable, DistinctNames;
    var es := DirEntries(nid, parentNid, children);
    DirEntriesSorted(nid, parentNid, children);
    ScanSorted(es, name);
    var r := Scan(es, name);
    assert DOT != DOTDOT by { assert |DOT| < |DOTDOT|; }
    InEntries(nid, parentNid, children, Dirent(DOT, nid, TYPE_DIR));
    InEntries(nid, parentNid, children, Dirent(DOTDOT, parentNid, TYPE_DIR));
    if r.Ok? {
      InEntries(nid, parentNid, children, r.value);
    } else {
      forall c | c in children ensures c.name != name {
        InEntries(nid, parentNid, children, c);
      }
    }
  }

  /** Both searches of a written directory's bytes agree, and find exactly its entries. */
  method LookupBoth(nid: nat, parentNid: nat, children: seq<Dirent>, bs: nat, name: Name) returns (reader: Result<Dirent>, kernel: Result<Dirent>)
    requires ValidChildren(children) && nid < Width(8) && parentNid < Width(8) && ValidBlockSize(bs)
    ensures reader == kernel && Means(nid, parentNid, children, name, reader)
  {
    hide DirEntries, Scan, EncodeDir, DecodeDir, Means, ValidChildren, Width;
    var data := WriteDirents(nid, parentNid, children, bs);
    WrittenDirectory(nid, parentNid, children, bs);
    WrittenScan(nid, parentNid, children, name);
    reader := ReaderLookup(data, bs, name);
    kernel := KernelLookup.Lookup(data, bs, name);
  }
}
