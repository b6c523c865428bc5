/** planLayout: where each inode goes in the metadata area, and whether its data goes with it (layout.go). */
module Layout {
  import opened Arith
  import opened BlockMap

  const CORE_COMPACT: nat := 32
  const CORE_EXTENDED: nat := 64
  const SLOT: nat := 32
  const INDEX: nat := 8

  /** A block size: a power of two from 512 to 65536, so whole slots. */
  predicate BlockSize(bs: nat) {
    512 <= bs <= 0x1_0000 && bs % SLOT == 0
  }

  /** What follows an inode and its xattrs: nothing, size bytes that may be packed beside it, or a map of n chunk indexes. */
  datatype Need = Nothing | Whole(size: nat, inline: bool, file: bool) | Map(n: nat)

  datatype Shape = Shape(core: nat, xattr: nat, need: Need)

  datatype How = Plain | Inline | Chunked

  /** An inode's place: its byte offset from the metadata start, its layout, the gap before its chunk map and the bytes that trail it. */
  datatype Slot = Slot(off: nat, how: How, pad: nat, trailing: nat)

  function Header(s: Shape): nat {
    s.core + s.xattr
  }

  /** calcTrailingSize. */
  function Trailing(s: Shape, how: How): nat {
    match s.need
    case Nothing => 0
    case Whole(size, _, _) => if how == Inline then size else 0
    case Map(n) => INDEX * n
  }

  /** chunkIndexPad. */
  function ChunkPad(s: Shape, how: How): nat {
    if how == Chunked && Trailing(s, how) > 0 then AlignUp(Header(s), INDEX) - Header(s) else 0
  }

  /** The bytes an inode takes up, in whole slots. */
  function Extent(s: Shape, how: How): nat {
    AlignUp(Header(s) + ChunkPad(s, how) + Trailing(s, how), SLOT)
  }

  function End(s: Shape, p: Slot): nat {
    p.off + Extent(s, p.how)
  }

  // ---- What a plan promises ----

  /** The slot suits its entry: on a slot boundary, its core in one block, inline data in the core's block, and a plan of the right kind. */
  predicate Slotted(bs: nat, s: Shape, p: Slot)
    requires bs > 0
  {
    && p.off % SLOT == 0
    && Mod(p.off, bs) + s.core <= bs
    && p.pad == ChunkPad(s, p.how) && p.trailing == Trailing(s, p.how)
    && (p.how == Chunked <==> s.need.Map?)
    && (p.how == Inline ==> s.need.Whole? && s.need.inline && s.need.size > 0 && Mod(p.off, bs) + Header(s) + s.need.size <= bs)
  }

  /** Slots follow one another from the start with no overlap, and a gap only to keep the next core in one block. */
  predicate Planned(bs: nat, shapes: seq<Shape>, plan: seq<Slot>)
    requires bs > 0
  {
    && |plan| <= |shapes|
    && (forall i :: 0 <= i < |plan| ==> Slotted(bs, shapes[i], plan[i]))
    && (|plan| > 0 ==> plan[0].off == 0 && Follows(bs, 0, shapes[0], plan[0]))
    && (forall i :: 0 < i < |plan| ==> Follows(bs, End(shapes[i - 1], plan[i - 1]), shapes[i], plan[i]))
  }

  /** A slot after the byte at: right there, or at the next block where its core would cross one; and beside its data exactly where that fits, after the byte and in the slot. */
  predicate Follows(bs: nat, at: nat, s: Shape, p: Slot)
    requires bs > 0
  {
    && at <= p.off < at + CORE_EXTENDED
    && (p.off > at ==> Mod(p.off, bs) == 0 && Mod(at, bs) + s.core > bs)
    && (p.how == Inline <==>
          && s.need.Whole? && s.need.inline && s.need.size > 0
          && Mod(at + Header(s), bs) + s.need.size <= bs && Mod(p.off, bs) + Header(s) + s.need.size <= bs)
  }

  function PlanEnd(shapes: seq<Shape>, plan: seq<Slot>): nat
    requires |plan| <= |shapes|
  {
    if plan == [] then 0 else End(shapes[|plan| - 1], plan[|plan| - 1])
  }

  predicate ShapeOk(s: Shape) {
    s.core == CORE_COMPACT || s.core == CORE_EXTENDED
  }

  // ---- The planner ----

  lemma Bump(at: nat, core: nat, bs: nat)
    requires BlockSize(bs) && at % SLOT == 0 && core <= CORE_EXTENDED && Mod(at, bs) + core > bs
    ensures var to := CeilDiv(at, bs) * bs; at < to < at + CORE_EXTENDED && Mod(to, bs) == 0 && to % SLOT == 0
  {
    DivMod(at, bs);
    var q, r := Div(at, bs), Mod(at, bs);
    assert (q + 1) * bs == q * bs + bs;
    CeilUnique(at, bs, q + 1);
    DivUnique((q + 1) * bs, bs, q + 1, 0);
    MultipleOf(q + 1, bs);
  }

  lemma MultipleOf(q: nat, bs: nat)
    requires bs % SLOT == 0
    ensures (q * bs) % SLOT == 0
  {
    var m := bs / SLOT;
    assert q * bs == (q * m) * SLOT;
  }

  lemma SlotSum(off: nat, n: nat)
    requires off % SLOT == 0
    ensures (off + AlignUp(n, SLOT)) % SLOT == 0
  {
  }

  /** Where the data fits beside the inode it also fits after the header. */
  lemma FitsAfter(at: nat, header: nat, size: nat, bs: nat)
    requires bs > 0 && Mod(at, bs) + header + size <= bs && size > 0
    ensures Mod(at + header, bs) + size <= bs
  {
    DivMod(at, bs);
    DivUnique(at + header, bs, Div(at, bs), Mod(at, bs) + header);
  }

  /** The layout planLayout tries first. */
  function FirstChoice(bs: nat, at: nat, s: Shape): How
    requires bs > 0
  {
    match s.need
    case Nothing => Plain
    case Map(_) => Chunked
    case Whole(size, inline, file) =>
      if inline && size > 0 && (file ==> Header(s) + size <= bs) && Mod(at + Header(s), bs) + size <= bs then Inline else Plain
  }

  /** One entry's slot, after the byte at. */
  method PlaceOne(bs: nat, at: nat, s: Shape) returns (p: Slot)
    requires BlockSize(bs) && ShapeOk(s) && at % SLOT == 0
    ensures Slotted(bs, s, p) && Follows(bs, at, s, p)
  {
    hide AlignUp, Mod, CeilDiv;
    var off, how := at, FirstChoice(bs, at, s);
    if Mod(off, bs) + s.core > bs {
      Bump(off, s.core, bs);
      off := CeilDiv(off, bs) * bs;
    }
    if how == Inline && Mod(off, bs) + Header(s) + Trailing(s, how) > bs {
      how := Plain;
    }
    if s.need.Whole? && s.need.size > 0 && Mod(at, bs) + Header(s) + s.need.size <= bs {
      FitsAfter(at, Header(s), s.need.size, bs);
    }
    p := Slot(off, how, ChunkPad(s, how), Trailing(s, how));
  }

  method PlanLayout(bs: nat, shapes: seq<Shape>) returns (plan: seq<Slot>)
    requires BlockSize(bs) && forall i :: 0 <= i < |shapes| ==> ShapeOk(shapes[i])
    ensures |plan| == |shapes| && Planned(bs, shapes, plan)
  {
    hide Slotted, Follows, Extent;
    plan := [];
    var at := 0;
    for i := 0 to |shapes|
      invariant |plan| == i && Planned(bs, shapes, plan) && at % SLOT == 0 && at == PlanEnd(shapes, plan)
    {
      var p := PlaceOne(bs, at, shapes[i]);
      SlotStep(bs, shapes, plan, p);
      plan := plan + [p];
      at := p.off + Extent(shapes[i], p.how);
    }
  }

  lemma SlotStep(bs: nat, shapes: seq<Shape>, plan: seq<Slot>, p: Slot)
    requires BlockSize(bs) && |plan| < |shapes| && ShapeOk(shapes[|plan|])
    requires Planned(bs, shapes, plan) && Slotted(bs, shapes[|plan|], p) && Follows(bs, PlanEnd(shapes, plan), shapes[|plan|], p)
    ensures Planned(bs, shapes, plan + [p]) && End(shapes[|plan|], p) % SLOT == 0
  {
    hide Extent;
    assert p.off % SLOT == 0;
    EndAligned(shapes[|plan|], p);
    if plan == [] {
      assert Mod(0, bs) == 0 by { SmallMod(0, bs); }
      assert p.off == 0;
    }
  }

  lemma EndAligned(s: Shape, p: Slot)
    requires p.off % SLOT == 0
    ensures End(s, p) % SLOT == 0
  {
    SlotSum(p.off, Header(s) + ChunkPad(s, p.how) + Trailing(s, p.how));
  }

  // ---- Consequences ----

  /** Slots are in order and no two overlap. */
  lemma {:induction false} Disjoint(bs: nat, shapes: seq<Shape>, plan: seq<Slot>, i: nat, j: nat)
    requires bs > 0 && Planned(bs, shapes, plan) && i < j < |plan|
    ensures End(shapes[i], plan[i]) <= plan[j].off
    decreases j
  {
    hide Slotted, Extent;
    assert Follows(bs, End(shapes[j - 1], plan[j - 1]), shapes[j], plan[j]);
    if i < j - 1 {
      Disjoint(bs, shapes, plan, i, j - 1);
    }
  }

  lemma Distinct(bs: nat, shapes: seq<Shape>, plan: seq<Slot>, i: nat, j: nat)
    requires bs > 0 && Planned(bs, shapes, plan) && i < j < |plan| && ShapeOk(shapes[i])
    ensures plan[i].off < plan[j].off && plan[i].off / SLOT < plan[j].off / SLOT
  {
    hide Follows;
    Disjoint(bs, shapes, plan, i, j);
    assert Slotted(bs, shapes[i], plan[i]) && Slotted(bs, shapes[j], plan[j]);
  }

  /** A slot's rules leave one slot. */
  lemma SlotUnique(bs: nat, at: nat, s: Shape, p: Slot, q: Slot)
    requires BlockSize(bs) && ShapeOk(s) && Slotted(bs, s, p) && Slotted(bs, s, q) && Follows(bs, at, s, p) && Follows(bs, at, s, q)
    ensures p == q
  {
    hide ChunkPad, Trailing, Header;
    if p.off > at && q.off > at {
      NextBlock(at, p.off, q.off, bs);
    }
  }

  /** The block boundaries within 64 bytes of a place are one. */
  lemma NextBlock(at: nat, x: nat, y: nat, bs: nat)
    requires BlockSize(bs) && at < x < at + CORE_EXTENDED && at < y < at + CORE_EXTENDED && Mod(x, bs) == 0 && Mod(y, bs) == 0
    ensures x == y
  {
    DivMod(x, bs);
    DivMod(y, bs);
    var a, b := Div(x, bs), Div(y, bs);
    assert (a + 1) * bs == a * bs + bs && (b + 1) * bs == b * bs + bs;
    MulCancel(a, b + 1, bs);
    MulCancel(b, a + 1, bs);
  }

  /** The shapes have one plan. */
  lemma PlanUnique(bs: nat, shapes: seq<Shape>, a: seq<Slot>, b: seq<Slot>)
    requires BlockSize(bs) && |a| == |b| && Planned(bs, shapes, a) && Planned(bs, shapes, b)
    requires forall i :: 0 <= i < |shapes| ==> ShapeOk(shapes[i])
    ensures a == b
  {
    forall i | 0 <= i < |a| ensures a[i] == b[i] {
      SameSlot(bs, shapes, a, b, i);
    }
  }

  lemma {:induction false} SameSlot(bs: nat, shapes: seq<Shape>, a: seq<Slot>, b: seq<Slot>, i: nat)
    requires BlockSize(bs) && i < |a| == |b| && Planned(bs, shapes, a) && Planned(bs, shapes, b)
    requires forall k :: 0 <= k < |shapes| ==> ShapeOk(shapes[k])
    ensures a[i] == b[i]
  {
    hide Slotted, Follows, ShapeOk, BlockSize, Extent;
    if i == 0 {
      SlotUnique(bs, 0, shapes[0], a[0], b[0]);
    } else {
      SameSlot(bs, shapes, a, b, i - 1);
      SlotUnique(bs, End(shapes[i - 1], a[i - 1]), shapes[i], a[i], b[i]);
    }
  }

  lemma MapAligned(bs: nat, metaBlk: nat)
    requires BlockSize(bs)
    ensures (metaBlk * bs) % INDEX == 0
  {
    MultipleOf(metaBlk, bs);
    WholeIndexes(metaBlk * bs);
  }

  lemma WholeIndexes(n: nat)
    requires n % SLOT == 0
    ensures n % INDEX == 0
  {
  }

  lemma AlignShift(x: nat, h: nat)
    requires x % INDEX == 0
    ensures AlignUp(x + h, INDEX) == x + AlignUp(h, INDEX)
  {
  }

  /** The chunk map starts exactly where the reader aligns to. */
  lemma MapWhereRead(bs: nat, s: Shape, p: Slot, metaStart: nat)
    requires bs > 0 && Slotted(bs, s, p) && s.need.Map? && s.need.n > 0 && metaStart % INDEX == 0
    ensures metaStart + p.off + Header(s) + p.pad == AlignUp(metaStart + p.off + Header(s), INDEX)
  {
    hide AlignUp, Mod;
    WholeIndexes(p.off);
    BothWhole(metaStart, p.off);
    AlignShift(metaStart + p.off, Header(s));
  }

  lemma BothWhole(a: nat, b: nat)
    requires a % INDEX == 0 && b % INDEX == 0
    ensures (a + b) % INDEX == 0
  {
  }
}
