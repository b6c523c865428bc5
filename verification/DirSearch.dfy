/** The reader's two-level binary search over a directory's bytes (erofs.go: lookup). */
module DirSearch {
  import opened Arith
  import opened Bytes
  import opened Names
  import opened DirCodec
  import opened DirBlocks

  // ---- The reader's view of a block ----

  predicate NameOk(n: Name) {
    n != [] && SLASH !in n && 0 !in n
  }

  /** blockDirent: the i-th of entryN dirents with its name. */
  function BlockDirent(buf: seq<byte>, i: nat, entryN: nat): Result<Dirent> {
    if DIRENT_SIZE * (i + 1) > |buf| then Err(Corrupt)
    else if i + 1 < entryN && DIRENT_SIZE * (i + 1) + 10 > |buf| then Err(Corrupt)
    else
      var off := FieldNameOff(buf, i);
      var end := if i + 1 < entryN then Field(buf, DIRENT_SIZE * (i + 1) + 8, 2) else |buf|;
      if off > end || end > |buf| then Err(Corrupt)
      else
        var raw := buf[off..end];
        var name := if i + 1 == entryN then raw[..StrNLen(raw)] else raw;
        if !NameOk(name) then Err(Corrupt)
        else Ok(Dirent(name, Field(buf, DIRENT_SIZE * i, 8), buf[DIRENT_SIZE * i + 10]))
  }

  /** blockFirstName: the name a block starts with. */
  function BlockFirstName(buf: seq<byte>): Result<Name> {
    if |buf| < DIRENT_SIZE then Err(Corrupt)
    else
      var off := FieldNameOff(buf, 0);
      var entryN := off / DIRENT_SIZE;
      if entryN == 0 || off > |buf| then Err(Corrupt)
      else if entryN > 1 && DIRENT_SIZE + 10 > |buf| then Err(Corrupt)
      else
        var end := if entryN > 1 then Field(buf, DIRENT_SIZE + 8, 2) else |buf|;
        if off > end || end > |buf| then Err(Corrupt)
        else
          var raw := buf[off..end];
          var name := raw[..StrNLen(raw)];
          if !NameOk(name) then Err(Corrupt) else Ok(name)
  }

  /** Where readdir accepts a block, the reader cuts the same names out of it. */
  lemma DirentAgrees(buf: seq<byte>, count: nat, i: nat, e: Dirent)
    requires i < count && DIRENT_SIZE * count <= |buf| && DecodeEntry(buf, count, i) == Ok(e)
    ensures BlockDirent(buf, i, count) == Ok(e)
    ensures NameOk(e.name)
  {
    hide Field;
    var off := FieldNameOff(buf, i);
    if i + 1 == count {
      var raw := buf[off..];
      assert raw == buf[off..|buf|];
      assert raw[..StrNLen(raw)] == buf[off..off + StrNLen(raw)];
    }
  }

  lemma FirstAgrees(buf: seq<byte>, bs: nat, es: seq<Dirent>)
    requires DecodeBlock(buf, bs) == Ok(es)
    ensures es != [] && BlockFirstName(buf) == Ok(es[0].name)
  {
    hide Field, DecodeTo;
    var count := DeclaredCount(buf, bs).value;
    assert |es| == count && DecodeEntry(buf, count, 0) == Ok(es[0]);
    FirstNameAgrees(buf, count, es[0]);
  }

  lemma FirstNameAgrees(buf: seq<byte>, count: nat, e: Dirent)
    requires 0 < count && DIRENT_SIZE * count <= |buf| && DecodeEntry(buf, count, 0) == Ok(e)
    requires FieldNameOff(buf, 0) == DIRENT_SIZE * count
    ensures BlockFirstName(buf) == Ok(e.name)
  {
    hide Field;
    var off := FieldNameOff(buf, 0);
    assert off / DIRENT_SIZE == count;
    if count > 1 {
      assert FieldNameOff(buf, 1) == Field(buf, DIRENT_SIZE + 8, 2);
      StrNLenAt(e.name, |e.name|);
      assert e.name[..|e.name|] == e.name;
    } else {
      assert buf[off..|buf|] == buf[off..];
      assert buf[off..][..StrNLen(buf[off..])] == buf[off..off + StrNLen(buf[off..])];
    }
  }

  /** lookupBlock: binary search of one block. */
  method LookupBlock(buf: seq<byte>, target: Name, ghost bs: nat) returns (r: Result<Dirent>)
    ensures DecodeBlock(buf, bs).Ok? && Sorted(DecodeBlock(buf, bs).value) ==>
              r == Scan(DecodeBlock(buf, bs).value, target)
  {
    if |buf| < DIRENT_SIZE {
      return Err(Corrupt);
    }
    var first := FieldNameOff(buf, 0);
    if first % DIRENT_SIZE != 0 || first > |buf| {
      return Err(Corrupt);
    }
    var entryN := first / DIRENT_SIZE;
    ghost var d := DecodeBlock(buf, bs);
    ghost var es := if d.Ok? then d.value else [];
    ghost var good := d.Ok? && Sorted(es);
    var lo, hi := 0, entryN;
    while lo < hi
      invariant 0 <= lo <= hi <= entryN
      invariant good ==> |es| == entryN
      invariant good ==> forall i :: 0 <= i < lo ==> Less(es[i].name, target)
      invariant good ==> forall i :: hi <= i < entryN ==> Less(target, es[i].name)
    {
      var mid := lo + (hi - lo) / 2;
      var e := BlockDirent(buf, mid, entryN);
      ghost var agrees := good ==> e == Ok(es[mid]);
      assert agrees by {
        if good {
          DirentAgrees(buf, entryN, mid, es[mid]);
        }
      }
      if e.Err? {
        return Err(e.error);
      }
      if e.value.name == target {
        if good {
          ScanInBlock(es, mid);
        }
        return e;
      }
      Trichotomy(e.value.name, target);
      if Less(e.value.name, target) {
        lo := mid + 1;
        if good {
          BelowAll(es, mid, target);
        }
      } else {
        hi := mid;
        if good {
          AboveAll(es, mid, target);
        }
      }
    }
    if good {
      NotInBlock(es, lo, target);
    }
    return Err(NotExist);
  }

  lemma ScanInBlock(es: seq<Dirent>, i: nat)
    requires Sorted(es) && i < |es|
    ensures Scan(es, es[i].name) == Ok(es[i])
  {
    forall x | x in es && x.name == es[i].name ensures x == es[i] {
      var j :| 0 <= j < |es| && es[j] == x;
      Trichotomy(es[i].name, es[j].name);
    }
    ScanFinds(es, es[i]);
  }

  lemma BelowAll(es: seq<Dirent>, m: nat, name: Name)
    requires Sorted(es) && m < |es| && Less(es[m].name, name)
    ensures forall i :: 0 <= i <= m ==> Less(es[i].name, name)
  {
    forall i | 0 <= i < m ensures Less(es[i].name, name) {
      Transitive(es[i].name, es[m].name, name);
    }
  }

  lemma AboveAll(es: seq<Dirent>, m: nat, name: Name)
    requires Sorted(es) && m < |es| && Less(name, es[m].name)
    ensures forall i :: m <= i < |es| ==> Less(name, es[i].name)
  {
    forall i | m < i < |es| ensures Less(name, es[i].name) {
      Transitive(name, es[m].name, es[i].name);
    }
  }

  lemma NotInBlock(es: seq<Dirent>, m: nat, name: Name)
    requires m <= |es|
    requires forall i :: 0 <= i < m ==> Less(es[i].name, name)
    requires forall i :: m <= i < |es| ==> Less(name, es[i].name)
    ensures forall e :: e in es ==> e.name != name
    ensures Scan(es, name) == Err(NotExist)
  {
    Trichotomy(name, name);
    ScanMisses(es, name);
  }

  // ---- The reader's lookup ----

  /** A directory whose bytes decode to strictly increasing names. */
  predicate SortedDir(data: seq<byte>, bs: nat)
    requires bs > 0
  {
    DecodeDir(data, bs).Ok? && Sorted(DecodeDir(data, bs).value)
  }

  /** The facts a search works from: each block's entries, none of them empty, in order. */
  predicate Searchable(data: seq<byte>, bs: nat, ess: Listing)
    requires bs > 0
  {
    Decoded(data, bs, ess) && SortedBlocks(ess) && FirstsOk(ess)
  }

  lemma SearchableOf(data: seq<byte>, bs: nat) returns (ess: Listing)
    requires bs > 0 && SortedDir(data, bs)
    ensures Searchable(data, bs, ess) && Flat(ess) == DecodeDir(data, bs).value
  {
    hide DecodeDir, DecodeBlock, BlockOf, Sorted;
    ess := DecodedOf(data, bs);
    FlatSorted(ess);
    forall k | 0 <= k < |ess| ensures ess[k] != [] {
      FirstAgrees(BlockOf(data, bs, k), bs, ess[k]);
    }
  }

  /** A block in a sorted directory is sorted, and finding in the candidate block is finding in the directory. */
  lemma InCandidate(ess: Listing, name: Name, c: nat)
    requires SortedBlocks(ess) && FirstsOk(ess) && Candidate(ess, name, c) && c > 0
    ensures Sorted(ess[c - 1])
    ensures Scan(ess[c - 1], name) == Scan(Flat(ess), name)
  {
    var es := ess[c - 1];
    if e :| e in es && e.name == name {
      var i :| 0 <= i < |es| && es[i] == e;
      ScanInBlock(es, i);
      FoundAt(ess, c - 1, i);
    } else {
      ScanMisses(es, name);
      MissingFrom(ess, name, c);
    }
  }

  /** dir.lookup: a binary search over the blocks' first names, then one inside the candidate block. */
  method ReaderLookup(data: seq<byte>, bs: nat, target: Name) returns (r: Result<Dirent>)
    requires bs > 0
    ensures SortedDir(data, bs) ==> r == Scan(DecodeDir(data, bs).value, target)
  {
    hide DecodeDir, DecodeBlock, BlockOf, CeilDiv, SortedDir, Scan, SortedBlocks, Less;
    ghost var good := SortedDir(data, bs);
    ghost var ess: Listing := [];
    if good {
      ess := SearchableOf(data, bs);
    }
    var last: Option<seq<byte>> := None;
    var nblocks := CeilDiv(|data|, bs);
    var lo, hi := 0, nblocks;
    while lo < hi
      invariant 0 <= lo <= hi <= nblocks
      invariant good ==> Searchable(data, bs, ess)
      invariant good && lo > 0 ==> Leq(ess[lo - 1][0].name, target) && last == Some(BlockOf(data, bs, lo - 1))
      invariant good && hi < nblocks ==> Less(target, ess[hi][0].name)
      invariant lo == 0 ==> last == None
    {
      var mid := lo + (hi - lo) / 2;
      var b := BlockOf(data, bs, mid);
      var first := BlockFirstName(b);
      if good {
        FirstAgrees(b, bs, ess[mid]);
      }
      if first.Err? {
        return Err(first.error);
      }
      Trichotomy(first.value, target);
      if Leq(first.value, target) {
        last := Some(b);
        lo := mid + 1;
      } else {
        hi := mid;
      }
    }
    if last == None {
      if good {
        assert Candidate(ess, target, 0);
        MissingFrom(ess, target, 0);
      }
      return Err(NotExist);
    }
    if good {
      InCandidate(ess, target, lo);
    }
    r := LookupBlock(last.value, target, bs);
  }
}
