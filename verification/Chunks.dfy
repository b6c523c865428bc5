/** Runs of blocks and the chunk indexes they are written as (internal/builder/entry.go, writer.go, mkfs_image.go). */
module Chunks {
  import opened Arith
  import opened Bytes
  import opened BlockMap

  const NULL_BLOCK: nat := 0xFFFF_FFFF_FFFF_FFFF
  const MAX_COUNT: nat := 0xFFFF
  const CHUNK_INDEX: nat := 8

  /** count logical blocks at consecutive blocks of a device, or a hole when phys is the null block. */
  datatype Chunk = Chunk(phys: nat, count: nat, dev: nat)

  predicate Counted(cs: seq<Chunk>) {
    forall i :: 0 <= i < |cs| ==> 0 < cs[i].count <= MAX_COUNT
  }

  function Total(cs: seq<Chunk>): nat {
    if cs == [] then 0 else cs[0].count + Total(cs[1..])
  }

  function RunTarget(c: Chunk, b: nat): Target {
    if c.phys == NULL_BLOCK then Hole else At(c.dev, c.phys + b)
  }

  /** What logical block b of the runs maps to; past their end there is nothing but holes. */
  function TargetOf(cs: seq<Chunk>, b: nat): Target {
    if cs == [] then Hole
    else if b < cs[0].count then RunTarget(cs[0], b)
    else TargetOf(cs[1..], b - cs[0].count)
  }

  // ---- Appending ----

  lemma {:induction false} TotalConcat(a: seq<Chunk>, b: seq<Chunk>)
    ensures Total(a + b) == Total(a) + Total(b)
  {
    if a == [] {
      assert a + b == b;
    } else {
      assert (a + b)[1..] == a[1..] + b;
      TotalConcat(a[1..], b);
    }
  }

  lemma {:induction false} TargetConcat(a: seq<Chunk>, b: seq<Chunk>, k: nat)
    ensures TargetOf(a + b, k) == if k < Total(a) then TargetOf(a, k) else TargetOf(b, k - Total(a))
  {
    if a == [] {
      assert a + b == b;
    } else {
      assert (a + b)[1..] == a[1..] + b;
      if k >= a[0].count {
        TargetConcat(a[1..], b, k - a[0].count);
      }
    }
  }

  lemma TargetSingle(c: Chunk, k: nat)
    ensures TargetOf([c], k) == if k < c.count then RunTarget(c, k) else Hole
    ensures Total([c]) == c.count
  {
  }

  // ---- deviceChunks ----

  /** A run of blocks from start on a device, in runs a 16-bit count can hold; from the null block, holes. */
  method DeviceChunks(start: nat, blocks: nat, dev: nat) returns (cs: seq<Chunk>)
    requires start == NULL_BLOCK || start + blocks < NULL_BLOCK
    ensures Counted(cs) && Total(cs) == blocks && (0 < blocks <= MAX_COUNT <==> |cs| == 1)
    ensures forall b :: 0 <= b < blocks ==> TargetOf(cs, b) == RunTarget(Chunk(start, 0, dev), b)
    ensures forall c :: c in cs ==> (c.phys == NULL_BLOCK <==> start == NULL_BLOCK) && c.dev == dev
    ensures start != NULL_BLOCK ==> forall c :: c in cs ==> c.phys + c.count <= start + blocks
  {
    cs := [];
    var at: nat, left: nat := start, blocks;
    while left > 0
      invariant left <= blocks && Counted(cs) && Total(cs) == blocks - left && (left == blocks <==> cs == [])
      invariant |cs| == 1 ==> blocks - left == Min(blocks, MAX_COUNT)
      invariant |cs| > 1 ==> blocks > MAX_COUNT
      invariant at == if start == NULL_BLOCK then start else start + (blocks - left)
      invariant forall b :: 0 <= b < blocks - left ==> TargetOf(cs, b) == RunTarget(Chunk(start, 0, dev), b)
      invariant forall c :: c in cs ==> (c.phys == NULL_BLOCK <==> start == NULL_BLOCK) && c.dev == dev
      invariant start != NULL_BLOCK ==> forall c :: c in cs ==> c.phys + c.count <= start + (blocks - left)
    {
      var count := Min(left, MAX_COUNT);
      var c := Chunk(at, count, dev);
      TotalConcat(cs, [c]);
      TargetSingle(c, 0);
      forall b | 0 <= b < blocks - left + count ensures TargetOf(cs + [c], b) == RunTarget(Chunk(start, 0, dev), b) {
        TargetConcat(cs, [c], b);
        if b >= Total(cs) {
          TargetSingle(c, b - Total(cs));
        }
      }
      cs := cs + [c];
      if at != NULL_BLOCK {
        at := at + count;
      }
      left := left - count;
    }
  }

  // ---- Joining runs ----

  /** c continues last: both holes, or data next to each other on one device, and the sum still fits a count. */
  predicate Joins(last: Chunk, c: Chunk) {
    && last.count + c.count <= MAX_COUNT
    && (last.phys == NULL_BLOCK <==> c.phys == NULL_BLOCK)
    && (last.phys != NULL_BLOCK ==> last.dev == c.dev && last.phys + last.count == c.phys)
  }

  /** Grows the last run by c where c continues it, and adds c otherwise. */
  function Extend(cs: seq<Chunk>, c: Chunk): seq<Chunk> {
    if cs != [] && Joins(cs[|cs| - 1], c) then
      var last := cs[|cs| - 1];
      cs[|cs| - 1 := last.(count := last.count + c.count)]
    else cs + [c]
  }

  /** Joining runs changes no block's target. */
  lemma ExtendTarget(cs: seq<Chunk>, c: Chunk, b: nat)
    ensures Total(Extend(cs, c)) == Total(cs) + c.count
    ensures b < Total(cs) ==> TargetOf(Extend(cs, c), b) == TargetOf(cs, b)
    ensures Total(cs) <= b < Total(cs) + c.count ==> TargetOf(Extend(cs, c), b) == RunTarget(c, b - Total(cs))
  {
    hide TargetOf, Total;
    if cs != [] && Joins(cs[|cs| - 1], c) {
      var init, last := cs[..|cs| - 1], cs[|cs| - 1];
      var grown := last.(count := last.count + c.count);
      assert cs == init + [last] && Extend(cs, c) == init + [grown];
      TotalConcat(init, [last]);
      TotalConcat(init, [grown]);
      TargetConcat(init, [last], b);
      TargetConcat(init, [grown], b);
      TargetSingle(last, if b < Total(init) then 0 else b - Total(init));
      TargetSingle(grown, if b < Total(init) then 0 else b - Total(init));
    } else {
      TotalConcat(cs, [c]);
      TargetConcat(cs, [c], b);
      TargetSingle(c, if b < Total(cs) then 0 else b - Total(cs));
    }
  }

  // ---- writeChunkIndexes ----

  function NullIndex(): seq<byte> {
    LE(0xFFFF, 2) + LE(0, 2) + LE(NULL_ADDR, 4)
  }

  /** One index entry: no address bits above the low 32, the device, the block. */
  function IndexOf(t: Target): (b: seq<byte>)
    ensures |b| == CHUNK_INDEX
  {
    if t.Hole? then NullIndex() else LE(0, 2) + LE(t.dev, 2) + LE(t.blk, 4)
  }

  /** The first n entries of a map stepping bpc blocks an entry. */
  function IndexMap(cs: seq<Chunk>, bpc: nat, n: nat): (b: seq<byte>)
    ensures |b| == CHUNK_INDEX * n
  {
    if n == 0 then [] else IndexMap(cs, bpc, n - 1) + IndexOf(TargetOf(cs, (n - 1) * bpc))
  }

  /** Dropping whole runs from the front shifts the block asked for. */
  lemma {:induction false} TargetDrop(cs: seq<Chunk>, ci: nat, b: nat)
    requires ci <= |cs|
    ensures TargetOf(cs[ci..], b) == TargetOf(cs, Total(cs[..ci]) + b)
  {
    if ci == 0 {
      assert cs[0..] == cs && cs[..0] == [];
    } else {
      TargetDrop(cs[1..], ci - 1, b);
      assert cs[1..][ci - 1..] == cs[ci..];
      assert cs[..ci][1..] == cs[1..][..ci - 1];
    }
  }

  lemma TotalTake(cs: seq<Chunk>, ci: nat)
    requires ci < |cs|
    ensures Total(cs[..ci + 1]) == Total(cs[..ci]) + cs[ci].count
  {
    assert cs[..ci + 1] == cs[..ci] + [cs[ci]];
    TotalConcat(cs[..ci], [cs[ci]]);
    TargetSingle(cs[ci], 0);
  }

  /** Walks the runs and emits an entry per chunk, stepping bpc blocks at a time across them. */
  method WriteChunkIndexes(cs: seq<Chunk>, bpc: nat, nchunks: nat) returns (out: seq<byte>)
    requires bpc > 0 && Counted(cs)
    ensures out == IndexMap(cs, bpc, nchunks)
  {
    hide IndexOf, NullIndex, TargetOf, Total;
    out := [];
    var ci, coff := 0, 0;
    EmptyTotal(cs);
    for i := 0 to nchunks
      invariant out == IndexMap(cs, bpc, i)
      invariant 0 <= ci <= |cs| && 0 <= coff
      invariant Total(cs[..ci]) + coff == i * bpc
      invariant ci < |cs| ==> coff < cs[ci].count
    {
      var t := if ci >= |cs| || cs[ci].phys == NULL_BLOCK then Hole else At(cs[ci].dev, cs[ci].phys + coff);
      TargetHere(cs, ci, coff);
      out := out + IndexOf(t);
      coff := coff + bpc;
      assert (i + 1) * bpc == i * bpc + bpc;
      while ci < |cs| && coff >= cs[ci].count
        invariant 0 <= ci <= |cs| && 0 <= coff
        invariant Total(cs[..ci]) + coff == (i + 1) * bpc
        decreases |cs| - ci
      {
        TotalTake(cs, ci);
        coff := coff - cs[ci].count;
        ci := ci + 1;
      }
    }
  }

  lemma EmptyTotal(cs: seq<Chunk>)
    ensures Total(cs[..0]) == 0 && Total([]) == 0
  {
  }

  lemma TargetHere(cs: seq<Chunk>, ci: nat, coff: nat)
    requires ci <= |cs| && (ci < |cs| ==> coff < cs[ci].count)
    ensures TargetOf(cs, Total(cs[..ci]) + coff) ==
            if ci >= |cs| || cs[ci].phys == NULL_BLOCK then Hole else At(cs[ci].dev, cs[ci].phys + coff)
  {
    TargetDrop(cs, ci, coff);
  }
}
