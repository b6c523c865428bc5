/** A decoded directory seen block by block, and what its order says about where a name can be. */
module DirBlocks {
  import opened Bytes
  import opened Names
  import opened DirCodec
  import opened Arith

  /** The k-th block of a directory's data, short when it is the last. */
  function BlockOf(data: seq<byte>, bs: nat, k: nat): (b: seq<byte>)
    requires bs > 0 && k < CeilDiv(|data|, bs)
  {
    CeilIndex(|data|, bs, k);
    data[k * bs..Min(k * bs + bs, |data|)]
  }

  type Listing = seq<seq<Dirent>>

  /** ess is the directory as readdir decodes it, one list a block. */
  predicate Decoded(data: seq<byte>, bs: nat, ess: Listing)
    requires bs > 0
  {
    && |ess| == CeilDiv(|data|, bs)
    && forall k :: 0 <= k < |ess| ==> DecodeBlock(BlockOf(data, bs, k), bs) == Ok(ess[k])
  }

  function Flat(ess: Listing): seq<Dirent> {
    if ess == [] then [] else ess[0] + Flat(ess[1..])
  }

  lemma BlockOfRest(data: seq<byte>, bs: nat, k: nat)
    requires bs > 0 && |data| > bs && k < CeilDiv(|data| - bs, bs)
    ensures k + 1 < CeilDiv(|data|, bs)
    ensures BlockOf(data, bs, k + 1) == BlockOf(data[bs..], bs, k)
  {
    hide CeilDiv;
    CeilStep(|data|, bs);
    CeilIndex(|data| - bs, bs, k);
    assert (k + 1) * bs == k * bs + bs;
    var o := k * bs;
    assert data[bs..][o..Min(o + bs, |data| - bs)] == data[o + bs..Min(o + bs + bs, |data|)];
  }

  lemma FirstOfData(data: seq<byte>, bs: nat)
    requires bs > 0 && data != []
    ensures CeilDiv(|data|, bs) == 1 + CeilDiv(|data[Min(bs, |data|)..]|, bs)
    ensures BlockOf(data, bs, 0) == data[..Min(bs, |data|)]
  {
    hide CeilDiv;
    CeilStep(|data|, bs);
  }

  /** Decoding the whole directory is decoding each of its blocks. */
  lemma {:induction false} DecodedOf(data: seq<byte>, bs: nat) returns (ess: Listing)
    requires bs > 0 && DecodeDir(data, bs).Ok?
    ensures Decoded(data, bs, ess) && Flat(ess) == DecodeDir(data, bs).value
    decreases |data|
  {
    hide DecodeBlock, CeilDiv, BlockOf;
    if data == [] {
      CeilStep(1, bs);
      ess := [];
    } else {
      var n := Min(bs, |data|);
      var rest := DecodedOf(data[n..], bs);
      FirstOfData(data, bs);
      ess := [DecodeBlock(data[..n], bs).value] + rest;
      forall k | 0 < k < |ess| ensures DecodeBlock(BlockOf(data, bs, k), bs) == Ok(ess[k]) {
        CeilIndex(|data[n..]|, bs, k - 1);
        BlockOfRest(data, bs, k - 1);
      }
      assert ess[1..] == rest;
    }
  }

  // ---- Order ----

  /** Names increase along every block and from any block to any later one. */
  predicate SortedBlocks(ess: Listing) {
    && (forall k, i, j :: 0 <= k < |ess| && 0 <= i < j < |ess[k]| ==> Less(ess[k][i].name, ess[k][j].name))
    && (forall k, l, i, j :: 0 <= k < l < |ess| && 0 <= i < |ess[k]| && 0 <= j < |ess[l]| ==>
          Less(ess[k][i].name, ess[l][j].name))
  }

  lemma {:induction false} InFlat(ess: Listing, k: nat, i: nat)
    requires k < |ess| && i < |ess[k]|
    ensures ess[k][i] in Flat(ess)
  {
    if k > 0 {
      InFlat(ess[1..], k - 1, i);
    }
  }

  lemma {:induction false} FromFlat(ess: Listing, e: Dirent) returns (k: nat, i: nat)
    requires e in Flat(ess)
    ensures k < |ess| && i < |ess[k]| && ess[k][i] == e
  {
    if e in ess[0] {
      k := 0;
      i :| i < |ess[0]| && ess[0][i] == e;
    } else {
      k, i := FromFlat(ess[1..], e);
      k := k + 1;
    }
  }

  lemma SortedParts(a: seq<Dirent>, b: seq<Dirent>)
    requires Sorted(a + b)
    ensures Sorted(a) && Sorted(b)
    ensures forall x, y :: x in a && y in b ==> Less(x.name, y.name)
  {
    assert forall i :: 0 <= i < |a| ==> (a + b)[i] == a[i];
    assert forall i :: 0 <= i < |b| ==> (a + b)[|a| + i] == b[i];
  }

  lemma {:induction false} FlatSorted(ess: Listing)
    requires Sorted(Flat(ess))
    ensures SortedBlocks(ess)
  {
    if ess != [] {
      SortedParts(ess[0], Flat(ess[1..]));
      FlatSorted(ess[1..]);
      var rest := ess[1..];
      assert forall k :: 0 < k < |ess| ==> ess[k] == rest[k - 1];
      forall l, i, j | 0 < l < |ess| && 0 <= i < |ess[0]| && 0 <= j < |ess[l]|
        ensures Less(ess[0][i].name, ess[l][j].name)
      {
        InFlat(rest, l - 1, j);
      }
    }
  }

  // ---- The answer a lookup owes ----

  /** The entry a linear scan finds. */
  function Scan(es: seq<Dirent>, name: Name): Result<Dirent> {
    if es == [] then Err(NotExist) else if es[0].name == name then Ok(es[0]) else Scan(es[1..], name)
  }

  lemma {:induction false} ScanFinds(es: seq<Dirent>, e: Dirent)
    requires e in es && (forall x :: x in es && x.name == e.name ==> x == e)
    ensures Scan(es, e.name) == Ok(e)
  {
    if es[0] != e {
      ScanFinds(es[1..], e);
    }
  }

  lemma {:induction false} ScanMisses(es: seq<Dirent>, name: Name)
    requires forall x :: x in es ==> x.name != name
    ensures Scan(es, name) == Err(NotExist)
  {
    if es != [] {
      ScanMisses(es[1..], name);
    }
  }

  lemma SamePlace(ess: Listing, k: nat, i: nat, l: nat, j: nat)
    requires SortedBlocks(ess) && k < |ess| && i < |ess[k]| && l < |ess| && j < |ess[l]|
    requires ess[k][i].name == ess[l][j].name
    ensures k == l && i == j
  {
    Trichotomy(ess[k][i].name, ess[l][j].name);
  }

  /** A name stands at one place only, and the scan finds it there. */
  lemma FoundAt(ess: Listing, k: nat, i: nat)
    requires SortedBlocks(ess) && k < |ess| && i < |ess[k]|
    ensures Scan(Flat(ess), ess[k][i].name) == Ok(ess[k][i])
  {
    var e := ess[k][i];
    InFlat(ess, k, i);
    forall x | x in Flat(ess) && x.name == e.name ensures x == e {
      var l, j := FromFlat(ess, x);
      SamePlace(ess, k, i, l, j);
    }
    ScanFinds(Flat(ess), e);
  }

  predicate FirstsOk(ess: Listing) {
    forall k :: 0 <= k < |ess| ==> ess[k] != []
  }

  /** The last block starting at or before name is the only one that can hold it. */
  predicate Candidate(ess: Listing, name: Name, c: nat)
    requires FirstsOk(ess)
  {
    && c <= |ess|
    && (c > 0 ==> Leq(ess[c - 1][0].name, name))
    && (c < |ess| ==> Less(name, ess[c][0].name))
  }

  lemma OnlyCandidate(ess: Listing, name: Name, c: nat, l: nat, j: nat)
    requires SortedBlocks(ess) && FirstsOk(ess) && Candidate(ess, name, c)
    requires l < |ess| && j < |ess[l]| && ess[l][j].name == name
    ensures c > 0 && l == c - 1
  {
    if c < |ess| {
      Trichotomy(ess[c][0].name, name);
    }
    if c > 0 {
      Trichotomy(ess[c - 1][0].name, name);
    }
  }

  /** A name missing from the candidate block is missing from the directory. */
  lemma MissingFrom(ess: Listing, name: Name, c: nat)
    requires SortedBlocks(ess) && FirstsOk(ess) && Candidate(ess, name, c)
    requires c > 0 ==> forall e :: e in ess[c - 1] ==> e.name != name
    ensures Scan(Flat(ess), name) == Err(NotExist)
  {
    forall x | x in Flat(ess) ensures x.name != name {
      var l, j := FromFlat(ess, x);
      if x.name == name {
        OnlyCandidate(ess, name, c, l, j);
        assert false;
      }
    }
    ScanMisses(Flat(ess), name);
  }
}
