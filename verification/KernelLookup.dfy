/** The kernel's directory lookup as the reference follows it literally (internal/erofsspec/dir.go): two binary searches whose comparisons skip the prefix both bounds already matched. */
module KernelLookup {
  import opened Arith
  import opened Bytes
  import opened Names
  import opened DirCodec
  import opened DirBlocks
  import opened DirSearch

  /** A stored name up to its terminator. */
  function CStr(s: seq<byte>): Name {
    s[..StrNLen(s)]
  }

  // ---- The comparison ----

  /** dirnamecmp: compares from the matched prefix on and reports where it stopped. */
  method DirNameCmp(name: Name, stored: seq<byte>, matched: nat) returns (ret: int, stop: nat)
    ensures Shares(name, CStr(stored), matched) ==>
              && stop == Lcp(name, CStr(stored))
              && (ret == 0 <==> name == CStr(stored))
              && (ret > 0 <==> Less(CStr(stored), name))
              && (ret < 0 <==> Less(name, CStr(stored)))
  {
    ghost var s := CStr(stored);
    ghost var good := Shares(name, s, matched);
    var i := matched;
    while i < |stored| && stored[i] != 0
      invariant good ==> Shares(name, s, i)
    {
      var c: byte := if i < |name| then name[i] else 0;
      if good {
        assert i < |s|;
      }
      if c != stored[i] {
        if good {
          PartAt(name, s, i);
        }
        return if c > stored[i] then 1 else -1, i;
      }
      if good {
        assert name[..i + 1] == name[..i] + [name[i]] && s[..i + 1] == s[..i] + [s[i]];
      }
      i := i + 1;
    }
    if good {
      assert i == |s|;
      PartAt(name, s, i);
    }
    return if i >= |name| then 0 else 1, i;
  }

  predicate Shares(a: Name, b: Name, m: nat) {
    m <= |a| && m <= |b| && a[..m] == b[..m]
  }

  /** Names that share i bytes and part there are ordered by what follows. */
  lemma PartAt(a: Name, b: Name, i: nat)
    requires Shares(a, b, i) && (i == |a| || i == |b| || a[i] != b[i])
    ensures Lcp(a, b) == i
    ensures a == b <==> i == |a| == |b|
    ensures Less(a, b) <==> i < |b| && (i == |a| || a[i] < b[i])
    ensures Less(b, a) <==> i < |a| && (i == |b| || b[i] < a[i])
  {
    LcpAt(a, b, i);
    if i == |a| == |b| {
      assert a == a[..i] && b == b[..i];
    }
  }

  /** What a search knows of a bound: nothing yet, or how much of the name it matched. */
  predicate BoundMatches(name: Name, bound: Option<Name>, prefix: nat) {
    if bound.None? then prefix == 0 else prefix == Lcp(name, bound.value)
  }

  /** Everything between the bounds shares with the name what both bounds share with it, so skipping it loses nothing. */
  lemma SkipIsSound(name: Name, lower: Option<Name>, mid: Name, upper: Option<Name>, startprfx: nat, endprfx: nat)
    requires BoundMatches(name, lower, startprfx) && BoundMatches(name, upper, endprfx)
    requires lower.Some? ==> Less(lower.value, mid)
    requires upper.Some? ==> Less(mid, upper.value)
    ensures Shares(name, mid, Min(startprfx, endprfx))
  {
    var m := Min(startprfx, endprfx);
    if m > 0 {
      var a, c := lower.value, upper.value;
      assert name[..m] == name[..startprfx][..m] == a[..startprfx][..m] == a[..m];
      assert name[..m] == name[..endprfx][..m] == c[..endprfx][..m] == c[..m];
      Squeeze(a, mid, c, m);
    }
  }

  predicate Increasing(names: seq<Name>) {
    forall i, j :: 0 <= i < j < |names| ==> Less(names[i], names[j])
  }

  /** The name compared at i, if the search that started at first has compared one there. */
  function Compared(names: seq<Name>, first: nat, i: int): Option<Name> {
    if first <= i < |names| then Some(names[i]) else None
  }

  /** The state of a search from first on: what is below head is below the name, what is above back is above it,
      and the two prefixes are what the bounds matched of it. */
  predicate Window(names: seq<Name>, name: Name, first: nat, head: int, back: int, startprfx: nat, endprfx: nat) {
    && first <= head <= back + 1 <= |names|
    && (head > 0 ==> Less(names[head - 1], name))
    && (back + 1 < |names| ==> Less(name, names[back + 1]))
    && BoundMatches(name, Compared(names, first, head - 1), startprfx)
    && BoundMatches(name, Compared(names, first, back + 1), endprfx)
  }

  lemma WindowSkips(names: seq<Name>, name: Name, first: nat, head: int, back: int, sp: nat, ep: nat, mid: nat)
    requires Increasing(names) && Window(names, name, first, head, back, sp, ep) && head <= mid <= back
    ensures Shares(name, names[mid], Min(sp, ep))
  {
    hide Less, Shares, BoundMatches;
    SkipIsSound(name, Compared(names, first, head - 1), names[mid], Compared(names, first, back + 1), sp, ep);
  }

  /** Either outcome of a comparison that skipped the matched prefix leaves a narrower window. */
  lemma WindowNarrows(names: seq<Name>, name: Name, first: nat, head: int, back: int, sp: nat, ep: nat, mid: nat)
    requires Window(names, name, first, head, back, sp, ep) && head <= mid <= back
    ensures Less(names[mid], name) ==> Window(names, name, first, mid + 1, back, Lcp(name, names[mid]), ep)
    ensures Less(name, names[mid]) ==> Window(names, name, first, head, mid - 1, sp, Lcp(name, names[mid]))
  {
  }

  /** A window that closed has put every name on one side. */
  lemma WindowCloses(names: seq<Name>, name: Name, first: nat, head: int, back: int, sp: nat, ep: nat)
    requires Increasing(names) && Window(names, name, first, head, back, sp, ep) && head > back
    ensures forall i :: 0 <= i < head ==> Less(names[i], name)
    ensures forall i :: head <= i < |names| ==> Less(name, names[i])
  {
    forall i | 0 <= i < head - 1 ensures Less(names[i], name) {
      Transitive(names[i], names[head - 1], name);
    }
    forall i | head < i < |names| ensures Less(name, names[i]) {
      Transitive(name, names[head], names[i]);
    }
  }

  // ---- A block as the page cache holds it ----

  /** Zero past the directory's size. */
  function Padded(buf: seq<byte>, bs: nat): (b: seq<byte>)
    ensures |b| == Max(|buf|, bs)
  {
    buf + Zeros(Max(bs - |buf|, 0))
  }

  /** The dirent count namei takes from the first name offset, masked to the block. */
  function NDirents(block: seq<byte>, bs: nat): nat
    requires |block| >= DIRENT_SIZE && bs > 0
  {
    FieldNameOff(block, 0) % bs / DIRENT_SIZE
  }

  /** The bytes compared for the i-th name: to the next name offset, or to the block's end for the last. */
  function Stored(block: seq<byte>, ndirents: nat, i: nat, bs: nat): seq<byte>
    requires 0 < bs == |block| && i < ndirents && DIRENT_SIZE * ndirents <= bs
  {
    var off := FieldNameOff(block, i) % bs;
    var end := if i + 1 < ndirents then FieldNameOff(block, i + 1) % bs else bs;
    if off <= end then block[off..end] else []
  }

  /** direntAt: the decoded entry, or its bare fields where the block does not decode. */
  function DirentAt(block: seq<byte>, i: nat): Dirent
    requires DIRENT_SIZE * (i + 1) <= |block|
  {
    var d := DecodeBlock(block, |block|);
    if d.Ok? && i < |d.value| then d.value[i]
    else Dirent([], Field(block, DIRENT_SIZE * i, 8), block[DIRENT_SIZE * i + 10])
  }

  lemma PaddedFields(buf: seq<byte>, bs: nat, i: nat)
    requires DIRENT_SIZE * (i + 1) <= |buf| <= bs
    ensures FieldNameOff(Padded(buf, bs), i) == FieldNameOff(buf, i)
    ensures Field(Padded(buf, bs), DIRENT_SIZE * i, 8) == Field(buf, DIRENT_SIZE * i, 8)
    ensures Padded(buf, bs)[DIRENT_SIZE * i + 10] == buf[DIRENT_SIZE * i + 10]
  {
    hide Num;
    var z := Zeros(Max(bs - |buf|, 0));
    SliceOfLeft(buf, z, DIRENT_SIZE * i, DIRENT_SIZE * i + 8);
    SliceOfLeft(buf, z, DIRENT_SIZE * i + 8, DIRENT_SIZE * i + 10);
  }

  lemma PaddedTail(buf: seq<byte>, bs: nat, off: nat)
    requires off <= |buf| <= bs
    ensures StrNLen(Padded(buf, bs)[off..]) == StrNLen(buf[off..])
    ensures CStr(Padded(buf, bs)[off..]) == CStr(buf[off..])
  {
    var n := StrNLen(buf[off..]);
    var p := Padded(buf, bs)[off..];
    assert p == buf[off..] + Zeros(bs - |buf|);
    StrNLenAt(p, n);
  }

  lemma PaddedNameLen(buf: seq<byte>, bs: nat, count: nat, i: nat)
    requires i < count && DIRENT_SIZE * count <= |buf| <= bs && DecodeEntry(buf, count, i).Ok?
    ensures NameLen(Padded(buf, bs), count, i) == NameLen(buf, count, i)
  {
    hide Padded, Field, FieldNameOff;
    PaddedFields(buf, bs, i);
    if i + 1 < count {
      PaddedFields(buf, bs, i + 1);
    } else {
      PaddedTail(buf, bs, FieldNameOff(buf, i));
    }
  }

  lemma PaddedEntry(buf: seq<byte>, bs: nat, count: nat, i: nat)
    requires i < count && DIRENT_SIZE * count <= |buf| <= bs && DecodeEntry(buf, count, i).Ok?
    ensures DecodeEntry(Padded(buf, bs), count, i) == DecodeEntry(buf, count, i)
  {
    hide Padded, Field, FieldNameOff, NameLen;
    PaddedFields(buf, bs, i);
    PaddedNameLen(buf, bs, count, i);
    PaddedSlice(buf, bs, FieldNameOff(buf, i), FieldNameOff(buf, i) + NameLen(buf, count, i));
  }

  lemma PaddedSlice(buf: seq<byte>, bs: nat, i: nat, j: nat)
    requires i <= j <= |buf| <= bs
    ensures Padded(buf, bs)[i..j] == buf[i..j]
  {
    SliceOfLeft(buf, Zeros(Max(bs - |buf|, 0)), i, j);
  }

  lemma {:induction false} PaddedTo(buf: seq<byte>, bs: nat, count: nat, n: nat)
    requires n <= count && DIRENT_SIZE * count <= |buf| <= bs && DecodeTo(buf, count, n).Ok?
    ensures DecodeTo(Padded(buf, bs), count, n) == DecodeTo(buf, count, n)
  {
    hide Padded, DecodeEntry;
    if n > 0 {
      PaddedTo(buf, bs, count, n - 1);
      PaddedEntry(buf, bs, count, n - 1);
    }
  }

  /** Padding a block to its full size changes nothing readdir reads from it. */
  lemma PaddedDecodes(buf: seq<byte>, bs: nat)
    requires DecodeBlock(buf, bs).Ok? && |buf| <= bs
    ensures DecodeBlock(Padded(buf, bs), bs) == DecodeBlock(buf, bs)
  {
    hide Padded, DecodeTo, FieldNameOff;
    PaddedFields(buf, bs, 0);
    var count := DeclaredCount(buf, bs).value;
    PaddedTo(buf, bs, count, count);
  }

  /** In a block readdir accepts, the bytes compared for an entry spell its name. */
  lemma StoredIsName(buf: seq<byte>, bs: nat, es: seq<Dirent>, i: nat)
    requires DecodeBlock(buf, bs) == Ok(es) && |buf| <= bs && i < |es|
    ensures DIRENT_SIZE * |es| <= bs
    ensures NDirents(Padded(buf, bs), bs) == |es|
    ensures CStr(Stored(Padded(buf, bs), |es|, i, bs)) == es[i].name
    ensures DirentAt(Padded(buf, bs), i) == es[i]
  {
    hide Padded, Field, FieldNameOff, DecodeTo;
    var b := Padded(buf, bs);
    PaddedDecodes(buf, bs);
    var count := DeclaredCount(b, bs).value;
    assert DeclaredCount(b, bs).Ok? && |es| == count;
    assert FieldNameOff(b, 0) % bs == FieldNameOff(b, 0);
    StoredAt(b, bs, count, i, es[i]);
  }

  lemma EntryName(b: seq<byte>, count: nat, i: nat)
    requires i < count && DIRENT_SIZE * count <= |b| && DecodeEntry(b, count, i).Ok?
    ensures var off, name := FieldNameOff(b, i), DecodeEntry(b, count, i).value.name;
            && off < off + |name| <= |b|
            && name == b[off..off + |name|]
            && 0 !in name
            && (if i + 1 < count then FieldNameOff(b, i + 1) == off + |name| else name == CStr(b[off..]))
  {
    hide Field, FieldNameOff;
  }

  lemma StoredAt(b: seq<byte>, bs: nat, count: nat, i: nat, e: Dirent)
    requires 0 < bs == |b| && DIRENT_SIZE * count <= bs && i < count
    requires DecodeEntry(b, count, i) == Ok(e) && (i + 1 < count ==> DecodeEntry(b, count, i + 1).Ok?)
    ensures CStr(Stored(b, count, i, bs)) == e.name
  {
    hide DecodeEntry, FieldNameOff;
    var off := FieldNameOff(b, i);
    EntryName(b, count, i);
    SmallMod(off, bs);
    if i + 1 < count {
      EntryName(b, count, i + 1);
      SmallMod(FieldNameOff(b, i + 1), bs);
      StrNLenAt(e.name, |e.name|);
      assert e.name[..|e.name|] == e.name;
    } else {
      assert b[off..bs] == b[off..];
    }
  }

  // ---- The two searches ----

  ghost function NamesOf(es: seq<Dirent>): (ns: seq<Name>)
    ensures |ns| == |es| && forall i :: 0 <= i < |es| ==> ns[i] == es[i].name
  {
    seq(|es|, i requires 0 <= i < |es| => es[i].name)
  }

  /** The padded block holds e as its i-th of n entries. */
  ghost predicate HoldsAt(block: seq<byte>, bs: nat, n: nat, i: nat, e: Dirent) {
    && 0 < bs == |block| && i < n && DIRENT_SIZE * n <= bs
    && CStr(Stored(block, n, i, bs)) == e.name && DirentAt(block, i) == e
  }

  /** The padded block decodes to the sorted entries es. */
  ghost predicate GoodBlock(block: seq<byte>, bs: nat, es: seq<Dirent>) {
    && 0 < bs == |block| && es != [] && DIRENT_SIZE * |es| <= bs && Sorted(es)
    && NDirents(block, bs) == |es|
    && forall i :: 0 <= i < |es| ==> HoldsAt(block, bs, |es|, i, es[i])
  }

  /** find_target_dirent: the entries after the first, which the block search has compared. */
  method FindTargetDirent(name: Name, block: seq<byte>, bs: nat, ndirents: nat, ghost es: seq<Dirent>)
    returns (r: Result<Dirent>)
    requires 0 < bs == |block| && DIRENT_SIZE * ndirents <= bs && ndirents > 0
    ensures GoodBlock(block, bs, es) && ndirents == |es| && Less(es[0].name, name) ==> r == Scan(es, name)
  {
    hide DirentAt, Stored, CStr, Less, NDirents, Scan, GoodBlock, Window, Increasing, Shares, Lcp;
    ghost var good := GoodBlock(block, bs, es) && ndirents == |es| && Less(es[0].name, name);
    ghost var names := NamesOf(es);
    if good {
      GoodBlockCount(block, bs, es);
      WindowOpens(names, name);
    }
    var head: int, back: int := 1, ndirents - 1;
    var startprfx, endprfx := 0, 0;
    while head <= back
      invariant 1 <= head <= back + 1 <= ndirents
      invariant good ==> Window(names, name, 1, head, back, startprfx, endprfx)
      decreases back - head
    {
      var mid := head + (back - head) / 2;
      var stored := Stored(block, ndirents, mid, bs);
      if good {
        HoldsWithin(block, bs, es, mid);
        WindowSkips(names, name, 1, head, back, startprfx, endprfx, mid);
        WindowNarrows(names, name, 1, head, back, startprfx, endprfx, mid);
      }
      var ret, matched := DirNameCmp(name, stored, Min(startprfx, endprfx));
      if ret == 0 {
        if good {
          ScanInBlock(es, mid);
        }
        return Ok(DirentAt(block, mid));
      } else if ret > 0 {
        head, startprfx := mid + 1, matched;
      } else {
        back, endprfx := mid - 1, matched;
      }
    }
    if good {
      WindowCloses(names, name, 1, head, back, startprfx, endprfx);
      NotInBlock(es, head, name);
    }
    return Err(NotExist);
  }

  lemma WindowOpens(names: seq<Name>, name: Name)
    ensures Window(names, name, 0, 0, |names| - 1, 0, 0)
    ensures names != [] && Less(names[0], name) ==> Window(names, name, 1, 1, |names| - 1, 0, 0)
  {
  }

  lemma GoodBlockOf(data: seq<byte>, bs: nat, ess: Listing, k: nat)
    requires bs > 0 && Searchable(data, bs, ess) && k < |ess|
    ensures GoodBlock(Padded(BlockOf(data, bs, k), bs), bs, ess[k])
  {
    hide DecodeBlock, Padded, Stored, CStr, DirentAt, NDirents, SortedBlocks, CeilDiv, BlockOf, Sorted;
    var buf, es := BlockOf(data, bs, k), ess[k];
    BlockFits(data, bs, k);
    BlockSorted(ess, k);
    assert DecodeBlock(buf, bs) == Ok(es);
    StoredIsName(buf, bs, es, 0);
    forall i | 0 <= i < |es| ensures HoldsAt(Padded(buf, bs), bs, |es|, i, es[i]) {
      StoredIsName(buf, bs, es, i);
    }
  }

  lemma BlockSorted(ess: Listing, k: nat)
    requires SortedBlocks(ess) && k < |ess|
    ensures Sorted(ess[k])
  {
  }

  lemma FirstNames(data: seq<byte>, bs: nat, ess: Listing) returns (ns: seq<Name>)
    requires bs > 0 && Searchable(data, bs, ess)
    ensures |ess| == CeilDiv(|data|, bs) && FirstsOk(ess)
    ensures |ns| == |ess| && (forall k :: 0 <= k < |ess| ==> ns[k] == ess[k][0].name) && Increasing(ns)
  {
    ns := seq(|ess|, k requires 0 <= k < |ess| => ess[k][0].name);
  }

  /** erofs_namei: the blocks by their first names, then the last block that starts below the name. */
  method Lookup(data: seq<byte>, bs: nat, name: Name) returns (r: Result<Dirent>)
    requires ValidBlockSize(bs)
    ensures SortedDir(data, bs) ==> r == Scan(DecodeDir(data, bs).value, name)
  {
    hide DecodeDir, DecodeBlock, BlockOf, CeilDiv, SortedDir, Scan, Less, Padded, Stored, CStr, DirentAt, NDirents,
         GoodBlock, Window, Increasing, Shares, Lcp, SortedBlocks, Searchable;
    ghost var good := SortedDir(data, bs);
    ghost var ess: Listing, names: seq<Name> := [], [];
    if good {
      ess := SearchableOf(data, bs);
      names := FirstNames(data, bs, ess);
      WindowOpens(names, name);
    }
    var nblocks: int := CeilDiv(|data|, bs);
    var head: int, back: int := 0, nblocks - 1;
    var startprfx, endprfx := 0, 0;
    var candidate: Option<seq<byte>> := None;
    while head <= back
      invariant 0 <= head <= back + 1 <= nblocks
      invariant good ==> Searchable(data, bs, ess) && Window(names, name, 0, head, back, startprfx, endprfx)
      invariant good ==> candidate == (if head > 0 then Some(Padded(BlockOf(data, bs, head - 1), bs)) else None)
      invariant candidate.Some? ==> |candidate.value| == bs && 0 < DIRENT_SIZE * NDirents(candidate.value, bs) <= bs
      decreases back - head
    {
      var mid: nat := head + (back - head) / 2;
      var block := Padded(BlockOf(data, bs, mid), bs);
      BlockFits(data, bs, mid);
      var ndirents := NDirents(block, bs);
      CountFits(block, bs);
      if good {
        GoodBlockOf(data, bs, ess, mid);
        GoodBlockCount(block, bs, ess[mid]);
        WindowSkips(names, name, 0, head, back, startprfx, endprfx, mid);
        WindowNarrows(names, name, 0, head, back, startprfx, endprfx, mid);
      }
      if ndirents == 0 {
        return Err(Corrupt);
      }
      var diff, matched := DirNameCmp(name, Stored(block, ndirents, 0, bs), Min(startprfx, endprfx));
      if diff < 0 {
        back, endprfx := mid - 1, matched;
      } else {
        candidate := Some(block);
        if diff == 0 {
          if good {
            FirstFound(data, bs, ess, mid);
          }
          return Ok(DirentAt(block, 0));
        }
        head, startprfx := mid + 1, matched;
      }
    }
    if good {
      WindowCloses(names, name, 0, head, back, startprfx, endprfx);
      Answers(data, bs, ess, name, head);
    }
    if candidate == None {
      return Err(NotExist);
    }
    ghost var es := if good then ess[head - 1] else [];
    if good {
      GoodBlockOf(data, bs, ess, head - 1);
      GoodBlockCount(candidate.value, bs, es);
    }
    r := FindTargetDirent(name, candidate.value, bs, NDirents(candidate.value, bs), es);
  }

  lemma FirstFound(data: seq<byte>, bs: nat, ess: Listing, k: nat)
    requires bs > 0 && Searchable(data, bs, ess) && k < |ess|
    ensures ess[k] != [] && Scan(Flat(ess), ess[k][0].name) == Ok(ess[k][0])
  {
    FoundAt(ess, k, 0);
  }

  /** Once the blocks are split around the name, its candidate block answers for the directory. */
  lemma Answers(data: seq<byte>, bs: nat, ess: Listing, name: Name, c: nat)
    requires bs > 0 && Searchable(data, bs, ess) && c <= |ess|
    requires forall k :: 0 <= k < c ==> Less(ess[k][0].name, name)
    requires forall k :: c <= k < |ess| ==> Less(name, ess[k][0].name)
    ensures c == 0 ==> Scan(Flat(ess), name) == Err(NotExist)
    ensures c > 0 ==> Scan(ess[c - 1], name) == Scan(Flat(ess), name)
  {
    assert Candidate(ess, name, c);
    if c == 0 {
      MissingFrom(ess, name, 0);
    } else {
      InCandidate(ess, name, c);
    }
  }

  lemma BlockFits(data: seq<byte>, bs: nat, k: nat)
    requires bs > 0 && k < CeilDiv(|data|, bs)
    ensures |BlockOf(data, bs, k)| <= bs == |Padded(BlockOf(data, bs, k), bs)|
  {
    CeilIndex(|data|, bs, k);
  }

  lemma CountFits(block: seq<byte>, bs: nat)
    requires DIRENT_SIZE <= |block| && bs > 0
    ensures DIRENT_SIZE * NDirents(block, bs) <= bs
  {
  }

  lemma GoodBlockCount(block: seq<byte>, bs: nat, es: seq<Dirent>)
    requires GoodBlock(block, bs, es)
    ensures es != [] && |block| == bs && DIRENT_SIZE * |es| <= bs && NDirents(block, bs) == |es| && Sorted(es)
    ensures Increasing(NamesOf(es))
    ensures HoldsAt(block, bs, |es|, 0, es[0])
  {
  }

  lemma HoldsWithin(block: seq<byte>, bs: nat, es: seq<Dirent>, i: nat)
    requires GoodBlock(block, bs, es) && i < |es|
    ensures HoldsAt(block, bs, |es|, i, es[i])
  {
  }
}
