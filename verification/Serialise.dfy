/** The two passes that put a planned image's bytes out: the data blocks, then the metadata (writer.go). */
module Serialise {
  import opened Arith
  import opened Bytes
  import opened BlockMap
  import opened Layout

  /** What one entry contributes: its inode's bytes, its xattr area and what trails them; its data blocks' bytes, and a copied tail. */
  datatype Part = Part(core: seq<byte>, xattr: seq<byte>, trail: seq<byte>, data: seq<byte>, tail: seq<byte>)

  /** s holds w from byte o on. */
  predicate HoldsAt(s: seq<byte>, o: nat, w: seq<byte>) {
    o + |w| <= |s| && s[o..o + |w|] == w
  }

  lemma HoldsLonger(s: seq<byte>, more: seq<byte>, o: nat, w: seq<byte>)
    requires HoldsAt(s, o, w)
    ensures HoldsAt(s + more, o, w)
  {
    SliceOfLeft(s, more, o, o + |w|);
  }

  lemma HoldsBehind(front: seq<byte>, s: seq<byte>, o: nat, w: seq<byte>)
    requires HoldsAt(s, o, w)
    ensures HoldsAt(front + s, |front| + o, w)
  {
    SliceOfRight(front, s, o, o + |w|);
  }

  lemma HoldsEnd(s: seq<byte>, w: seq<byte>)
    ensures HoldsAt(s + w, |s|, w)
  {
  }

  lemma HoldsPart(s: seq<byte>, o: nat, a: seq<byte>, b: seq<byte>)
    requires HoldsAt(s, o, a + b)
    ensures HoldsAt(s, o, a) && HoldsAt(s, o + |a|, b)
  {
    assert s[o..o + |a|] == (a + b)[..|a|];
    assert s[o + |a|..o + |a| + |b|] == (a + b)[|a|..];
  }

  // ---- Metadata ----

  function Blob(p: Part, slot: Slot): seq<byte> {
    p.core + p.xattr + Zeros(slot.pad) + p.trail
  }

  /** The part is as big as its plan. */
  predicate Sized(s: Shape, slot: Slot, p: Part) {
    |p.core| == s.core && |p.xattr| == s.xattr && |p.trail| == slot.trailing
  }

  ghost predicate AllSized(shapes: seq<Shape>, plan: seq<Slot>, parts: seq<Part>) {
    |parts| == |plan| == |shapes| && forall i :: 0 <= i < |parts| ==> Sized(shapes[i], plan[i], parts[i])
  }

  /** metadataBytes: the area's size without the padding of its last block. */
  method MetadataBytes(bs: nat, shapes: seq<Shape>, plan: seq<Slot>) returns (n: nat)
    requires bs > 0 && |plan| == |shapes| && Planned(bs, shapes, plan)
    ensures n == PlanEnd(shapes, plan)
  {
    hide Slotted, Extent, Planned;
    n := 0;
    for i := 0 to |plan|
      invariant n == PlanEnd(shapes, plan[..i])
    {
      if n < plan[i].off {
        n := plan[i].off;
      }
      NextAfter(bs, shapes, plan, i);
      assert n == plan[i].off;
      var sz := shapes[i].core + shapes[i].xattr + ChunkPad(shapes[i], plan[i].how) + Trailing(shapes[i], plan[i].how);
      if sz % 32 != 0 {
        sz := sz + 32 - sz % 32;
      }
      ExtentIs(shapes[i], plan[i].how);
      n := n + sz;
      assert plan[..i + 1][i] == plan[i];
    }
    assert plan[..|plan|] == plan;
  }

  lemma ExtentIs(s: Shape, how: How)
    ensures var sz := s.core + s.xattr + ChunkPad(s, how) + Trailing(s, how);
            Extent(s, how) == if sz % 32 != 0 then sz + 32 - sz % 32 else sz
  {
    hide ChunkPad, Trailing;
  }

  /** Slot i starts at or just past where the slots before it end. */
  lemma NextAfter(bs: nat, shapes: seq<Shape>, plan: seq<Slot>, i: nat)
    requires bs > 0 && |plan| == |shapes| && Planned(bs, shapes, plan) && i < |plan|
    ensures PlanEnd(shapes, plan[..i]) <= plan[i].off < PlanEnd(shapes, plan[..i]) + CORE_EXTENDED
    ensures Slotted(bs, shapes[i], plan[i])
  {
    hide Extent, Slotted;
    if i > 0 {
      assert Follows(bs, End(shapes[i - 1], plan[i - 1]), shapes[i], plan[i]);
      assert plan[..i][i - 1] == plan[i - 1];
    }
  }

  /** The slots before i hold their parts. */
  ghost predicate Landed(plan: seq<Slot>, parts: seq<Part>, out: seq<byte>, i: nat)
    requires i <= |plan| == |parts|
  {
    forall k :: 0 <= k < i ==> HoldsAt(out, plan[k].off, Blob(parts[k], plan[k]))
  }

  lemma LandedMore(plan: seq<Slot>, parts: seq<Part>, out: seq<byte>, more: seq<byte>, i: nat)
    requires i <= |plan| == |parts| && Landed(plan, parts, out, i)
    ensures Landed(plan, parts, out + more, i)
  {
    hide HoldsAt, Blob;
    forall k | 0 <= k < i ensures HoldsAt(out + more, plan[k].off, Blob(parts[k], plan[k])) {
      HoldsLonger(out, more, plan[k].off, Blob(parts[k], plan[k]));
    }
  }

  lemma BlobLength(s: Shape, slot: Slot, p: Part)
    requires Sized(s, slot, p) && slot.pad == ChunkPad(s, slot.how) && slot.trailing == Trailing(s, slot.how)
    ensures |Blob(p, slot)| == Header(s) + ChunkPad(s, slot.how) + Trailing(s, slot.how)
  {
  }

  /** writeMetadataInodes: no slot is overrun, each part lands at its nid, and the area is whole blocks. The padding is cut from one block of zeros. */
  method WriteMetadata(bs: nat, shapes: seq<Shape>, plan: seq<Slot>, parts: seq<Part>) returns (r: Result<seq<byte>>)
    requires BlockSize(bs) && |plan| == |shapes| == |parts|
    ensures Planned(bs, shapes, plan) && AllSized(shapes, plan, parts) ==>
              && r.Ok?
              && |r.value| == CeilDiv(PlanEnd(shapes, plan), bs) * bs
              && Landed(plan, parts, r.value, |plan|)
  {
    hide Planned, AllSized, Landed, Extent, Slotted, CeilDiv, PlanEnd, Blob;
    ghost var good := Planned(bs, shapes, plan) && AllSized(shapes, plan, parts);
    var zero := Zeros(bs);
    var out: seq<byte> := [];
    NothingLanded(shapes, plan, parts);
    for i := 0 to |plan|
      invariant good ==> Landed(plan, parts, out, i) && |out| == PlanEnd(shapes, plan[..i])
    {
      var at := plan[i].off;
      if at < |out| {
        if good {
          NextAfter(bs, shapes, plan, i);
          assert false;
        }
        return Err(Corrupt);
      }
      if good {
        NextAfter(bs, shapes, plan, i);
        assert at - |out| <= |zero|;
      }
      ghost var before := out;
      if at - |out| > |zero| {
        return Err(Corrupt);
      }
      out := out + zero[..at - |out|];
      ghost var gap := out;
      out := out + parts[i].core + parts[i].xattr + Zeros(plan[i].pad) + parts[i].trail;
      BlobIs(gap, parts[i], plan[i]);
      var total := |parts[i].core| + |parts[i].xattr| + plan[i].pad + |parts[i].trail|;
      var fill := if total % 32 != 0 then zero[..32 - total % 32] else [];
      out := out + fill;
      if good {
        PartLands(bs, shapes, plan, parts, before, gap, fill, i);
      }
    }
    assert plan[..|plan|] == plan;
    ghost var before := out;
    if |out| % bs != 0 {
      out := out + zero[..bs - |out| % bs];
    }
    if good {
      LandedMore(plan, parts, before, out[|before|..], |plan|);
      assert out == before + out[|before|..];
      WholeBlocks(|before|, bs);
    }
    return Ok(out);
  }

  lemma NothingLanded(shapes: seq<Shape>, plan: seq<Slot>, parts: seq<Part>)
    requires |plan| == |parts| == |shapes|
    ensures Landed(plan, parts, [], 0) && PlanEnd(shapes, plan[..0]) == 0
  {
  }

  lemma WholeBlocks(n: nat, bs: nat)
    requires bs > 0
    ensures CeilDiv(n, bs) * bs == if n % bs != 0 then n + (bs - n % bs) else n
  {
    DivMod(n, bs);
    var q := Div(n, bs);
    assert (q + 1) * bs == q * bs + bs;
    CeilUnique(n, bs, if n % bs != 0 then q + 1 else q);
  }

  /** One slot's bytes: up to its start, the part, the fill to a whole slot. */
  lemma PartLands(bs: nat, shapes: seq<Shape>, plan: seq<Slot>, parts: seq<Part>, before: seq<byte>, gap: seq<byte>, fill: seq<byte>, i: nat)
    requires bs > 0 && i < |plan| == |shapes| == |parts| && Planned(bs, shapes, plan) && AllSized(shapes, plan, parts)
    requires Landed(plan, parts, before, i) && before <= gap && |gap| == plan[i].off
    requires var total := |parts[i].core| + |parts[i].xattr| + plan[i].pad + |parts[i].trail|;
             |fill| == if total % 32 != 0 then 32 - total % 32 else 0
    ensures var out := gap + Blob(parts[i], plan[i]) + fill; Landed(plan, parts, out, i + 1) && |out| == PlanEnd(shapes, plan[..i + 1])
  {
    hide Landed, Planned, PlanEnd, Slotted, Extent, HoldsAt, Blob;
    var slot, p, blob := plan[i], parts[i], Blob(parts[i], plan[i]);
    var out := gap + blob + fill;
    NextAfter(bs, shapes, plan, i);
    SlotParts(bs, shapes[i], slot);
    assert Sized(shapes[i], slot, p);
    BlobLength(shapes[i], slot, p);
    ExtentIs(shapes[i], slot.how);
    var more := out[|before|..];
    assert out == before + more;
    LandedMore(plan, parts, before, more, i);
    HoldsEnd(gap, blob);
    HoldsLonger(gap + blob, fill, |gap|, blob);
    LandedNext(plan, parts, out, i);
    EndOf(shapes, plan, i);
  }

  lemma SlotParts(bs: nat, s: Shape, p: Slot)
    requires bs > 0 && Slotted(bs, s, p)
    ensures p.pad == ChunkPad(s, p.how) && p.trailing == Trailing(s, p.how)
  {
  }

  lemma BlobIs(gap: seq<byte>, p: Part, slot: Slot)
    ensures gap + p.core + p.xattr + Zeros(slot.pad) + p.trail == gap + Blob(p, slot)
    ensures |Blob(p, slot)| == |p.core| + |p.xattr| + slot.pad + |p.trail|
  {
  }

  lemma LandedNext(plan: seq<Slot>, parts: seq<Part>, out: seq<byte>, i: nat)
    requires i < |plan| == |parts| && Landed(plan, parts, out, i) && HoldsAt(out, plan[i].off, Blob(parts[i], plan[i]))
    ensures Landed(plan, parts, out, i + 1)
  {
  }

  lemma EndOf(shapes: seq<Shape>, plan: seq<Slot>, i: nat)
    requires i < |plan| == |shapes|
    ensures PlanEnd(shapes, plan[..i + 1]) == plan[i].off + Extent(shapes[i], plan[i].how)
  {
    assert plan[..i + 1][i] == plan[i];
  }

  // ---- Data blocks ----

  /** Where an entry's data and its copied tail start. */
  datatype Place = Place(data: nat, tail: nat)

  function PartBlocks(bs: nat, p: Part): nat
    requires bs > 0
  {
    CeilDiv(|p.data|, bs) + if |p.tail| > 0 then 1 else 0
  }

  /** The blocks the first i entries fill. */
  function BlocksTo(bs: nat, parts: seq<Part>, i: nat): nat
    requires bs > 0 && i <= |parts|
  {
    if i == 0 then 0 else BlocksTo(bs, parts, i - 1) + PartBlocks(bs, parts[i - 1])
  }

  /** Entry k is given the first blocks after those of the entries before it. */
  predicate Placed(bs: nat, parts: seq<Part>, from: nat, k: nat, at: Place)
    requires bs > 0 && k < |parts|
  {
    && at.data == (if |parts[k].data| > 0 then from + BlocksTo(bs, parts, k) else 0)
    && at.tail == (if |parts[k].tail| > 0 then from + BlocksTo(bs, parts, k) + CeilDiv(|parts[k].data|, bs) else 0)
  }

  ghost predicate AllPlaced(bs: nat, parts: seq<Part>, from: nat, places: seq<Place>)
    requires bs > 0
  {
    |places| <= |parts| && forall k :: 0 <= k < |places| ==> Placed(bs, parts, from, k, places[k])
  }

  /** assignFlatPlainAddrs: consecutive blocks, in order. */
  method AssignAddrs(bs: nat, parts: seq<Part>, from: nat) returns (places: seq<Place>, end: nat)
    requires bs > 0
    ensures |places| == |parts| && AllPlaced(bs, parts, from, places) && end == from + BlocksTo(bs, parts, |parts|)
  {
    hide CeilDiv;
    places, end := [], from;
    CeilZero(bs);
    for i := 0 to |parts|
      invariant |places| == i && AllPlaced(bs, parts, from, places) && end == from + BlocksTo(bs, parts, i)
    {
      var at := Place(0, 0);
      if |parts[i].data| > 0 {
        at := at.(data := end);
        end := end + CeilDiv(|parts[i].data|, bs);
      }
      if |parts[i].tail| > 0 {
        at := at.(tail := end);
        end := end + 1;
      }
      places := places + [at];
    }
  }

  lemma {:induction false} BlocksGrow(bs: nat, parts: seq<Part>, i: nat, j: nat)
    requires bs > 0 && i <= j <= |parts|
    ensures BlocksTo(bs, parts, i) <= BlocksTo(bs, parts, j)
    decreases j
  {
    if i < j {
      BlocksGrow(bs, parts, i, j - 1);
    }
  }

  /** The blocks depend on the data and tails alone. */
  lemma {:induction false} BlocksSame(bs: nat, a: seq<Part>, b: seq<Part>, i: nat)
    requires bs > 0 && i <= |a| == |b| && forall k :: 0 <= k < |a| ==> a[k].data == b[k].data && a[k].tail == b[k].tail
    ensures BlocksTo(bs, a, i) == BlocksTo(bs, b, i)
  {
    if i > 0 {
      BlocksSame(bs, a, b, i - 1);
    }
  }

  lemma CeilZero(bs: nat)
    requires bs > 0
    ensures CeilDiv(0, bs) == 0
  {
    CeilUnique(0, bs, 0);
  }

  /** The bytes of the first i entries lie where AssignAddrs puts them. */
  ghost predicate Stored(bs: nat, parts: seq<Part>, out: seq<byte>, i: nat)
    requires bs > 0 && i <= |parts|
  {
    forall k :: 0 <= k < i ==> StoredOne(bs, parts, out, k)
  }

  predicate StoredOne(bs: nat, parts: seq<Part>, out: seq<byte>, k: nat)
    requires bs > 0 && k < |parts|
  {
    && HoldsAt(out, BlocksTo(bs, parts, k) * bs, parts[k].data)
    && HoldsAt(out, (BlocksTo(bs, parts, k) + CeilDiv(|parts[k].data|, bs)) * bs, parts[k].tail)
  }

  /** n bytes, filled up to whole blocks. */
  function Filled(b: seq<byte>, bs: nat): (r: seq<byte>)
    requires bs > 0
    ensures |r| == CeilDiv(|b|, bs) * bs && b <= r
  {
    WholeBlocks(|b|, bs);
    if |b| % bs != 0 then b + Zeros(bs - |b| % bs) else b
  }

  /** writeDataBlocks and writeTailBlock: every entry's bytes in the blocks it was given, the rest of each last block zero. */
  method WriteData(bs: nat, parts: seq<Part>) returns (out: seq<byte>)
    requires bs > 0 && forall k :: 0 <= k < |parts| ==> |parts[k].tail| <= bs
    ensures |out| == BlocksTo(bs, parts, |parts|) * bs && Stored(bs, parts, out, |parts|)
  {
    hide Filled, CeilDiv, Stored, StoredOne, BlocksTo;
    out := [];
    NothingStored(bs, parts);
    for i := 0 to |parts|
      invariant |out| == BlocksTo(bs, parts, i) * bs && Stored(bs, parts, out, i)
    {
      StoreStep(bs, parts, out, i);
      out := out + Filled(parts[i].data, bs) + Filled(parts[i].tail, bs);
    }
  }

  lemma NothingStored(bs: nat, parts: seq<Part>)
    requires bs > 0
    ensures BlocksTo(bs, parts, 0) * bs == 0 && Stored(bs, parts, [], 0)
  {
  }

  lemma TailBlocks(t: seq<byte>, bs: nat)
    requires bs > 0 && |t| <= bs
    ensures CeilDiv(|t|, bs) == if |t| > 0 then 1 else 0
  {
    CeilUnique(|t|, bs, if |t| > 0 then 1 else 0);
  }

  lemma StoreStep(bs: nat, parts: seq<Part>, out: seq<byte>, i: nat)
    requires bs > 0 && i < |parts| && |parts[i].tail| <= bs && |out| == BlocksTo(bs, parts, i) * bs && Stored(bs, parts, out, i)
    ensures var next := out + Filled(parts[i].data, bs) + Filled(parts[i].tail, bs);
            |next| == BlocksTo(bs, parts, i + 1) * bs && Stored(bs, parts, next, i + 1)
  {
    hide Filled, CeilDiv, HoldsAt;
    var d, t := Filled(parts[i].data, bs), Filled(parts[i].tail, bs);
    var next := out + d + t;
    var n, m := BlocksTo(bs, parts, i), CeilDiv(|parts[i].data|, bs);
    TailBlocks(parts[i].tail, bs);
    assert (n + m) * bs == n * bs + m * bs;
    assert (n + PartBlocks(bs, parts[i])) * bs == |next|;
    FilledHolds(out, parts[i].data, bs);
    FilledHolds(out + d, parts[i].tail, bs);
    HoldsLonger(out + d, t, |out|, parts[i].data);
    assert StoredOne(bs, parts, next, i);
    forall k | 0 <= k < i ensures StoredOne(bs, parts, next, k) {
      StoredLonger(bs, parts, out, d + t, k);
      assert out + (d + t) == next;
    }
  }

  lemma FilledHolds(out: seq<byte>, b: seq<byte>, bs: nat)
    requires bs > 0
    ensures HoldsAt(out + Filled(b, bs), |out|, b)
  {
    hide Filled, CeilDiv;
    var f := Filled(b, bs);
    assert (out + f)[|out|..|out| + |b|] == f[..|b|];
  }

  lemma StoredLonger(bs: nat, parts: seq<Part>, out: seq<byte>, more: seq<byte>, k: nat)
    requires bs > 0 && k < |parts| && StoredOne(bs, parts, out, k)
    ensures StoredOne(bs, parts, out + more, k)
  {
    hide HoldsAt, CeilDiv, BlocksTo;
    HoldsLonger(out, more, BlocksTo(bs, parts, k) * bs, parts[k].data);
    HoldsLonger(out, more, (BlocksTo(bs, parts, k) + CeilDiv(|parts[k].data|, bs)) * bs, parts[k].tail);
  }

  // ---- The image ----

  /** sbAreaSize in blocks, for a table of so many devices. */
  function SuperBlocks(bs: nat, devices: nat): nat
    requires bs > 0
  {
    CeilDiv(1024 + 128 + 128 * devices, bs)
  }

  /** The count the superblock declares. */
  function TotalBlocks(bs: nat, devices: nat, shapes: seq<Shape>, plan: seq<Slot>, parts: seq<Part>): nat
    requires bs > 0 && |plan| == |shapes| == |parts|
  {
    SuperBlocks(bs, devices) + CeilDiv(PlanEnd(shapes, plan), bs) + BlocksTo(bs, parts, |parts|)
  }

  /** Entry k's data and tail are in its blocks and its inode, xattrs and trailing bytes in its slot. */
  ghost predicate Laid(bs: nat, plan: seq<Slot>, parts: seq<Part>, from: nat, image: seq<byte>, k: nat)
    requires bs > 0 && k < |plan| == |parts|
  {
    && HoldsAt(image, (from + BlocksTo(bs, parts, k)) * bs, parts[k].data)
    && HoldsAt(image, (from + BlocksTo(bs, parts, k) + CeilDiv(|parts[k].data|, bs)) * bs, parts[k].tail)
    && HoldsAt(image, (from + BlocksTo(bs, parts, |parts|)) * bs + plan[k].off, Blob(parts[k], plan[k]))
  }

  /** writeSeekable: the superblock's area, the data blocks, the metadata; everything where it was planned, and as long as the superblock says. */
  method WriteImage(bs: nat, devices: nat, super: seq<byte>, shapes: seq<Shape>, plan: seq<Slot>, parts: seq<Part>)
    returns (r: Result<seq<byte>>, places: seq<Place>, metaBlk: nat)
    requires BlockSize(bs) && |plan| == |shapes| == |parts| && |super| == SuperBlocks(bs, devices) * bs
    requires forall k :: 0 <= k < |parts| ==> |parts[k].tail| <= bs
    ensures |places| == |parts| && AllPlaced(bs, parts, SuperBlocks(bs, devices), places)
    ensures metaBlk == SuperBlocks(bs, devices) + BlocksTo(bs, parts, |parts|)
    ensures Planned(bs, shapes, plan) && AllSized(shapes, plan, parts) ==>
              && r.Ok? && |r.value| == TotalBlocks(bs, devices, shapes, plan, parts) * bs
              && forall k :: 0 <= k < |parts| ==> Laid(bs, plan, parts, SuperBlocks(bs, devices), r.value, k)
  {
    hide Planned, AllSized, Landed, Stored, StoredOne, CeilDiv, PlanEnd, BlocksTo, AllPlaced, Laid, Blob, SuperBlocks;
    places, metaBlk := AssignAddrs(bs, parts, SuperBlocks(bs, devices));
    var data := WriteData(bs, parts);
    r := WriteMetadata(bs, shapes, plan, parts);
    if r.Err? {
      return;
    }
    var meta := r.value;
    r := Ok(super + data + meta);
    if Planned(bs, shapes, plan) && AllSized(shapes, plan, parts) {
      var sb, n, m := SuperBlocks(bs, devices), BlocksTo(bs, parts, |parts|), CeilDiv(PlanEnd(shapes, plan), bs);
      SumBlocks(sb, m, n, bs);
      forall k | 0 <= k < |parts| ensures Laid(bs, plan, parts, sb, r.value, k) {
        Assembled(bs, sb, super, data, meta, plan, parts, k);
      }
    }
  }

  /** An entry's data, and its tail behind it, end before the next entry's blocks, and so before the metadata. */
  lemma RegionsDisjoint(bs: nat, parts: seq<Part>, from: nat, k: nat, j: nat)
    requires bs > 0 && k < j <= |parts| && |parts[k].tail| <= bs
    ensures var data := from + BlocksTo(bs, parts, k);
            var tail := data + CeilDiv(|parts[k].data|, bs);
            && data * bs + |parts[k].data| <= tail * bs
            && tail * bs + |parts[k].tail| <= (from + BlocksTo(bs, parts, j)) * bs <= (from + BlocksTo(bs, parts, |parts|)) * bs
  {
    hide CeilDiv, BlocksTo;
    var data := from + BlocksTo(bs, parts, k);
    var n := CeilDiv(|parts[k].data|, bs);
    CeilBounds(|parts[k].data|, bs);
    assert (data + n) * bs == data * bs + n * bs;
    BlocksGrow(bs, parts, k + 1, j);
    BlocksGrow(bs, parts, j, |parts|);
    NextBlocks(bs, parts, k);
    assert (data + n + 1) * bs == (data + n) * bs + bs;
    MulMono(data + PartBlocks(bs, parts[k]), from + BlocksTo(bs, parts, j), bs);
    MulMono(from + BlocksTo(bs, parts, j), from + BlocksTo(bs, parts, |parts|), bs);
  }

  lemma NextBlocks(bs: nat, parts: seq<Part>, k: nat)
    requires bs > 0 && k < |parts|
    ensures BlocksTo(bs, parts, k + 1) == BlocksTo(bs, parts, k) + PartBlocks(bs, parts[k])
  {
  }

  lemma SumBlocks(a: nat, b: nat, c: nat, bs: nat)
    ensures (a + b + c) * bs == a * bs + b * bs + c * bs
  {
  }

  lemma Assembled(bs: nat, sb: nat, super: seq<byte>, data: seq<byte>, meta: seq<byte>, plan: seq<Slot>, parts: seq<Part>, k: nat)
    requires bs > 0 && k < |plan| == |parts| && |super| == sb * bs && |data| == BlocksTo(bs, parts, |parts|) * bs
    requires Stored(bs, parts, data, |parts|) && Landed(plan, parts, meta, |plan|)
    ensures Laid(bs, plan, parts, sb, super + data + meta, k)
  {
    hide CeilDiv, BlocksTo, HoldsAt, Blob;
    assert StoredOne(bs, parts, data, k);
    var n, m := BlocksTo(bs, parts, k), CeilDiv(|parts[k].data|, bs);
    HoldsBehind(super, data, n * bs, parts[k].data);
    HoldsBehind(super, data, (n + m) * bs, parts[k].tail);
    HoldsLonger(super + data, meta, |super| + n * bs, parts[k].data);
    HoldsLonger(super + data, meta, |super| + (n + m) * bs, parts[k].tail);
    HoldsBehind(super + data, meta, plan[k].off, Blob(parts[k], plan[k]));
    assert (sb + n) * bs == sb * bs + n * bs;
    assert (sb + n + m) * bs == sb * bs + (n + m) * bs;
    assert (sb + BlocksTo(bs, parts, |parts|)) * bs == |super| + |data|;
  }
}
