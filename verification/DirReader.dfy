/** An open directory read in pages (erofs.go: dir.ReadDir). */
module DirReader {
  import opened Arith
  import opened Bytes
  import opened Names
  import opened DirCodec
  import opened DirBlocks
  import opened DirSearch

  /** The i-th of a block's entryN entries as ReadDir cuts it out, the names starting at nameBase. */
  function PageEntry(buf: seq<byte>, nameBase: nat, entryN: nat, i: nat): Result<Dirent>
    requires i < entryN && DIRENT_SIZE * entryN <= nameBase <= |buf|
  {
    var lo := FieldNameOff(buf, i);
    var last := i + 1 == entryN;
    var hi := if last then |buf| else FieldNameOff(buf, i + 1);
    if lo > |buf| || hi > |buf| || hi < lo then Err(Corrupt)
    else
      var raw := buf[lo..hi];
      var name := if last then raw[..StrNLen(raw)] else raw;
      if lo < nameBase || !NameOk(name) then Err(Corrupt)
      else Ok(Dirent(name, Field(buf, DIRENT_SIZE * i, 8), buf[DIRENT_SIZE * i + 10]))
  }

  /** Offsets ascend from the first in a block readdir accepts. */
  lemma {:induction false} OffsetsAscend(buf: seq<byte>, count: nat, i: nat)
    requires i < count && DIRENT_SIZE * count <= |buf|
    requires forall j :: 0 <= j < count ==> DecodeEntry(buf, count, j).Ok?
    ensures FieldNameOff(buf, 0) <= FieldNameOff(buf, i) < |buf|
  {
    hide Field, FieldNameOff;
    assert DecodeEntry(buf, count, i).Ok?;
    if i > 0 {
      OffsetsAscend(buf, count, i - 1);
      assert DecodeEntry(buf, count, i - 1).Ok?;
    }
  }

  lemma PageAgrees(buf: seq<byte>, count: nat, i: nat, e: Dirent)
    requires i < count && DIRENT_SIZE * count <= |buf| && DecodeEntry(buf, count, i) == Ok(e)
    requires FieldNameOff(buf, 0) == DIRENT_SIZE * count <= FieldNameOff(buf, i)
    ensures PageEntry(buf, DIRENT_SIZE * count, count, i) == Ok(e)
  {
    hide Field, FieldNameOff;
    var off := FieldNameOff(buf, i);
    if i + 1 == count {
      assert buf[off..|buf|] == buf[off..];
      assert buf[off..][..StrNLen(buf[off..])] == buf[off..off + StrNLen(buf[off..])];
    }
  }

  /** ReadDir reads every block readdir accepts to the same entries. */
  lemma PageDecodes(buf: seq<byte>, bs: nat, es: seq<Dirent>, i: nat)
    requires DecodeBlock(buf, bs) == Ok(es) && i < |es|
    ensures var first := FieldNameOff(buf, 0);
            && first == DIRENT_SIZE * |es| < |buf|
            && PageEntry(buf, first, |es|, i) == Ok(es[i])
  {
    hide Field, FieldNameOff, DecodeTo, DecodeEntry;
    var count := DeclaredCount(buf, bs).value;
    assert |es| == count && DecodeEntry(buf, count, i) == Ok(es[i]);
    OffsetsAscend(buf, count, 0);
    OffsetsAscend(buf, count, i);
    PageAgrees(buf, count, i, es[i]);
  }

  // ---- What a listing shows ----

  predicate Hidden(e: Dirent) {
    e.name == DOT || e.name == DOTDOT
  }

  /** es without "." and "..". */
  function Visible(es: seq<Dirent>): seq<Dirent> {
    if es == [] then [] else (if Hidden(es[0]) then [] else [es[0]]) + Visible(es[1..])
  }

  /** What is still to come from entry c of block k on. */
  function Rest(ess: Listing, k: nat, c: nat): seq<Dirent> {
    if k < |ess| && c <= |ess[k]| then Visible(ess[k][c..] + Flat(ess[k + 1..])) else []
  }

  lemma RestStep(ess: Listing, k: nat, c: nat)
    requires k < |ess| && c < |ess[k]|
    ensures Rest(ess, k, c) == (if Hidden(ess[k][c]) then [] else [ess[k][c]]) + Rest(ess, k, c + 1)
  {
    hide Hidden;
    var tail := Flat(ess[k + 1..]);
    assert (ess[k][c..] + tail)[0] == ess[k][c];
    assert (ess[k][c..] + tail)[1..] == ess[k][c + 1..] + tail;
  }

  /** One entry further: delivered unless it is hidden, and nothing is lost. */
  lemma Delivers(ess: Listing, k: nat, c: nat, all: seq<Dirent>, ents: seq<Dirent>)
    requires k < |ess| && c < |ess[k]| && all == ents + Rest(ess, k, c)
    ensures all == (if Hidden(ess[k][c]) then ents else ents + [ess[k][c]]) + Rest(ess, k, c + 1)
  {
    hide Hidden, Rest;
    RestStep(ess, k, c);
  }

  lemma RestNext(ess: Listing, k: nat)
    requires k < |ess|
    ensures Rest(ess, k, |ess[k]|) == Rest(ess, k + 1, 0)
  {
    var tail := ess[k + 1..];
    assert ess[k][|ess[k]|..] + Flat(tail) == Flat(tail);
    if tail != [] {
      assert tail[0] == ess[k + 1] && tail[1..] == ess[k + 2..];
      assert ess[k + 1][0..] == ess[k + 1];
    }
  }

  lemma RestStart(ess: Listing)
    ensures Rest(ess, 0, 0) == Visible(Flat(ess))
  {
    if ess != [] {
      assert ess[0][0..] == ess[0];
    }
  }

  /** Some call asks for all that remains. */
  predicate AsksAll(counts: seq<int>) {
    exists k :: 0 <= k < |counts| && counts[k] <= 0
  }

  class Dir {
    const data: seq<byte>
    const bs: nat
    var bn: nat          // the current block
    var consumed: nat    // how many of its entries have been returned
    ghost const ess: Listing

    /** The directory's blocks all decode. */
    ghost predicate Good() {
      bs > 0 && Decoded(data, bs, ess)
    }

    ghost predicate Valid()
      reads this
    {
      && bs > 0
      && (Good() && bn < |ess| ==> consumed <= |ess[bn]|)
    }

    /** What later calls have still to return. */
    ghost function Remaining(): seq<Dirent>
      reads this
    {
      Rest(ess, bn, consumed)
    }

    constructor (data: seq<byte>, bs: nat)
      requires bs > 0
      ensures Valid() && this.data == data && this.bs == bs
      ensures DecodeDir(data, bs).Ok? ==> Good() && Remaining() == Visible(DecodeDir(data, bs).value)
    {
      ghost var l: Listing := [];
      if DecodeDir(data, bs).Ok? {
        l := DecodedOf(data, bs);
        RestStart(l);
      }
      this.data, this.bs, this.ess := data, bs, l;
      bn, consumed := 0, 0;
    }

    /** Delivers from the current block: full when n entries are out, else past the block. */
    method DeliverBlock(n: int, sofar: seq<Dirent>) returns (ents: seq<Dirent>, full: bool, err: Option<Error>)
      requires Valid() && bn < CeilDiv(|data|, bs) && (n > 0 ==> |sofar| < n)
      modifies this
      ensures Valid()
      ensures Good() ==> err == None && sofar + old(Remaining()) == ents + Remaining()
      ensures err == None && full ==> n > 0 && |ents| == n
      ensures err == None && !full ==> bn == old(bn) + 1 && consumed == 0 && (n > 0 ==> |ents| < n)
    {
      hide DecodeBlock, BlockOf, CeilDiv, Rest, Hidden, PageEntry, FieldNameOff, Decoded;
      ents, full := sofar, false;
      var buf := BlockOf(data, bs, bn);
      ghost var all := sofar + Remaining();
      if Good() {
        BlockIs(data, bs, ess, bn);
      }
      ghost var es := if Good() then ess[bn] else [];
      if Good() {
        FirstAgrees(buf, bs, es);
        PageDecodes(buf, bs, es, 0);
      }
      if |buf| < DIRENT_SIZE {
        return ents, false, Some(Corrupt);
      }
      var nameBase := FieldNameOff(buf, 0);
      var entryN := nameBase / DIRENT_SIZE;
      if nameBase >= |buf| || entryN == 0 || nameBase % DIRENT_SIZE != 0 {
        return ents, false, Some(Corrupt);
      }
      var want := Max(entryN - consumed, 0);
      if 0 < n < want {
        want := n;
      }
      var used := 0; // entries placed in the block's slab of want
      var start := consumed;
      for i := 0 to entryN
        invariant Valid() && bn == old(bn) && start == old(consumed)
        invariant start <= consumed <= Max(i, start)
        invariant 0 <= used <= Max(i - start, 0)
        invariant |ents| == |sofar| + used && (n > 0 ==> |ents| < n)
        invariant Good() ==> |es| == entryN && es == ess[bn]
        invariant Good() ==> all == ents + Rest(ess, bn, Max(i, start))
      {
        var e := PageEntry(buf, nameBase, entryN, i);
        if Good() {
          PageDecodes(buf, bs, es, i);
        }
        if e.Err? {
          return ents, false, Some(e.error);
        }
        if Good() && i >= start {
          Delivers(ess, bn, i, all, ents);
        }
        if i >= consumed && !Hidden(e.value) {
          assert used < want;
          ents := ents + [e.value];
          used := used + 1;
          consumed := i + 1;
          if n > 0 && |ents| == n {
            if i == entryN - 1 {
              if Good() {
                RestNext(ess, bn);
              }
              consumed := 0;
              bn := bn + 1;
            }
            return ents, true, None;
          }
        }
      }
      if Good() {
        RestNext(ess, bn);
      }
      consumed := 0;
      bn := bn + 1;
      return ents, false, None;
    }

    /** ReadDir(n): the next n entries, or all that remain when n is not positive. */
    method ReadDir(n: int) returns (ents: seq<Dirent>, err: Option<Error>)
      requires Valid()
      modifies this
      ensures Valid()
      ensures Good() && n > 0 && n <= |old(Remaining())| ==>
                ents == old(Remaining())[..n] && Remaining() == old(Remaining())[n..] && err == None
      ensures Good() && n > 0 && n > |old(Remaining())| ==>
                ents == old(Remaining()) && Remaining() == [] && err == Some(Eof)
      ensures Good() && n <= 0 ==> ents == old(Remaining()) && Remaining() == [] && err == None
    {
      hide Decoded, CeilDiv, Rest;
      ents := [];
      ghost var all := Remaining();
      assert [] + all == all;
      while bn < CeilDiv(|data|, bs)
        invariant Valid() && (n > 0 ==> |ents| < n)
        invariant Good() ==> ents + Remaining() == all
        decreases CeilDiv(|data|, bs) - bn
      {
        var full;
        ents, full, err := DeliverBlock(n, ents);
        if err != None {
          return;
        }
        if full {
          assert Good() ==> ents == all[..n] && Remaining() == all[n..];
          return;
        }
      }
      if Good() {
        NoneLeft(data, bs, ess, bn, consumed);
      }
      err := if n > 0 then Some(Eof) else None;
    }

    /** Any run of calls returns the listing's entries in order, each once, and all of them once one call reports the end. */
    method ReadPages(counts: seq<int>) returns (pages: seq<Dirent>, ended: bool)
      requires Valid()
      modifies this
      ensures Valid()
      ensures Good() ==> pages + Remaining() == old(Remaining())
      ensures Good() && ended ==> pages == old(Remaining())
      ensures Good() && AsksAll(counts) ==> ended
    {
      hide Rest, Decoded;
      pages, ended := [], false;
      for i := 0 to |counts|
        invariant Valid()
        invariant Good() ==> pages + Remaining() == old(Remaining())
        invariant Good() && ended ==> Remaining() == []
        invariant Good() && (exists k :: 0 <= k < i && counts[k] <= 0) ==> ended
      {
        var ents, err := ReadDir(counts[i]);
        pages := pages + ents;
        ended := ended || err == Some(Eof) || counts[i] <= 0;
      }
    }
  }

  lemma BlockIs(data: seq<byte>, bs: nat, ess: Listing, k: nat)
    requires bs > 0 && Decoded(data, bs, ess) && k < CeilDiv(|data|, bs)
    ensures k < |ess| && DecodeBlock(BlockOf(data, bs, k), bs) == Ok(ess[k]) && ess[k] != []
  {
  }

  lemma NoneLeft(data: seq<byte>, bs: nat, ess: Listing, k: nat, c: nat)
    requires bs > 0 && Decoded(data, bs, ess) && k >= CeilDiv(|data|, bs)
    ensures Rest(ess, k, c) == []
  {
  }
}
