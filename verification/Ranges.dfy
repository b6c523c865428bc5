/** A file's layout as byte ranges of devices, in logical order, and their one coalesced form (erofs.go: DataRange). */
module Ranges {
  import opened Bytes

  const HOLE_OFFSET: int := -1

  /** size bytes at off of a device, or a hole when off is -1. */
  datatype DataRange = DataRange(dev: nat, off: int, size: int)

  /** Where one position of a file lies: past the ranges, in a hole, or at a device's byte. */
  datatype Spot = Past | InHole | On(dev: nat, off: int)

  predicate IsHoleRange(r: DataRange) {
    r.off == HOLE_OFFSET
  }

  /** Ranges a file can have: positive sizes, and data at addresses from zero on. */
  predicate Proper(rs: seq<DataRange>) {
    forall i :: 0 <= i < |rs| ==> rs[i].size > 0 && rs[i].off >= HOLE_OFFSET
  }

  function Sum(rs: seq<DataRange>): int {
    if rs == [] then 0 else rs[0].size + Sum(rs[1..])
  }

  function SpotIn(r: DataRange, k: nat): Spot {
    if IsHoleRange(r) then InHole else On(r.dev, r.off + k)
  }

  function SpotAt(rs: seq<DataRange>, p: nat): Spot {
    if rs == [] then Past
    else if p < rs[0].size then SpotIn(rs[0], p)
    else if rs[0].size < 0 then Past
    else SpotAt(rs[1..], p - rs[0].size)
  }

  // ---- Merging ----

  /** r goes on where last ends: hole after hole, or the next bytes of the same device. */
  predicate Continues(last: DataRange, r: DataRange) {
    && (IsHoleRange(last) <==> IsHoleRange(r))
    && (!IsHoleRange(r) ==> last.dev == r.dev && last.off + last.size == r.off)
  }

  /** Grows the last range by r where r continues it, and adds r otherwise. */
  function Push(rs: seq<DataRange>, r: DataRange): seq<DataRange> {
    if rs != [] && Continues(rs[|rs| - 1], r) then
      var last := rs[|rs| - 1];
      rs[|rs| - 1 := last.(size := last.size + r.size)]
    else rs + [r]
  }

  /** No two neighbours could be one range. */
  predicate Normal(rs: seq<DataRange>) {
    && Proper(rs)
    && forall i :: 0 < i < |rs| ==> !Continues(rs[i - 1], rs[i])
  }

  function Coalesce(rs: seq<DataRange>): seq<DataRange> {
    if rs == [] then [] else Push(Coalesce(rs[..|rs| - 1]), rs[|rs| - 1])
  }

  lemma {:induction false} SumConcat(a: seq<DataRange>, b: seq<DataRange>)
    ensures Sum(a + b) == Sum(a) + Sum(b)
  {
    if a == [] {
      assert a + b == b;
    } else {
      assert (a + b)[1..] == a[1..] + b;
      SumConcat(a[1..], b);
    }
  }

  lemma {:induction false} SumProper(rs: seq<DataRange>)
    requires Proper(rs)
    ensures Sum(rs) >= 0 && (rs != [] ==> Sum(rs) > 0)
  {
    if rs != [] {
      SumProper(rs[1..]);
    }
  }

  lemma {:induction false} SpotConcat(a: seq<DataRange>, b: seq<DataRange>, p: nat)
    requires Proper(a)
    ensures SpotAt(a + b, p) == if p < Sum(a) then SpotAt(a, p) else SpotAt(b, p - Max(Sum(a), 0))
    ensures SpotAt(a, p) == Past <==> p >= Sum(a)
  {
    if a == [] {
      assert a + b == b;
    } else {
      assert (a + b)[1..] == a[1..] + b;
      SumProper(a[1..]);
      if p >= a[0].size {
        SpotConcat(a[1..], b, p - a[0].size);
      }
    }
  }

  lemma SpotSingle(r: DataRange, p: nat)
    requires r.size > 0
    ensures SpotAt([r], p) == if p < r.size then SpotIn(r, p) else Past
    ensures Sum([r]) == r.size
  {
  }

  /** Merging keeps every position where it was. */
  lemma PushSpot(rs: seq<DataRange>, r: DataRange, p: nat)
    requires Proper(rs) && r.size > 0 && r.off >= HOLE_OFFSET
    ensures Proper(Push(rs, r)) && Sum(Push(rs, r)) == Sum(rs) + r.size && Sum(rs) >= 0
    ensures SpotAt(Push(rs, r), p) ==
            if p < Sum(rs) then SpotAt(rs, p) else if p < Sum(rs) + r.size then SpotIn(r, p - Sum(rs)) else Past
  {
    hide SpotAt, Sum;
    SumProper(rs);
    if rs != [] && Continues(rs[|rs| - 1], r) {
      var init, last := rs[..|rs| - 1], rs[|rs| - 1];
      var grown := last.(size := last.size + r.size);
      assert rs == init + [last] && Push(rs, r) == init + [grown];
      SumProper(init);
      SumConcat(init, [last]);
      SumConcat(init, [grown]);
      SpotConcat(init, [last], p);
      SpotConcat(init, [grown], p);
      var q := if p < Sum(init) then 0 else p - Sum(init);
      SpotSingle(last, q);
      SpotSingle(grown, q);
    } else {
      SumConcat(rs, [r]);
      SpotConcat(rs, [r], p);
      SpotSingle(r, if p < Sum(rs) then 0 else p - Sum(rs));
    }
  }

  lemma PushNormal(rs: seq<DataRange>, r: DataRange)
    requires Normal(rs) && r.size > 0 && r.off >= HOLE_OFFSET
    ensures Normal(Push(rs, r))
  {
  }

  /** Coalescing any proper ranges yields their normal form: the same total, the same place for every position. */
  lemma {:induction false} CoalesceMeans(rs: seq<DataRange>, p: nat)
    requires Proper(rs)
    ensures Normal(Coalesce(rs)) && Sum(Coalesce(rs)) == Sum(rs)
    ensures SpotAt(Coalesce(rs), p) == SpotAt(rs, p)
  {
    if rs != [] {
      hide SpotAt, Sum, Push, Normal;
      var init, r := rs[..|rs| - 1], rs[|rs| - 1];
      CoalesceMeans(init, p);
      assert rs == init + [r];
      SumConcat(init, [r]);
      SpotConcat(init, [r], p);
      SumProper(init);
      SpotSingle(r, if p < Sum(init) then 0 else p - Sum(init));
      NormalProper(Coalesce(init));
      PushSpot(Coalesce(init), r, p);
      PushNormal(Coalesce(init), r);
    }
  }

  lemma NormalProper(rs: seq<DataRange>)
    requires Normal(rs)
    ensures Proper(rs)
  {
  }

  // ---- The normal form is unique ----

  predicate PlainHoles(rs: seq<DataRange>) {
    forall i :: 0 <= i < |rs| && IsHoleRange(rs[i]) ==> rs[i].dev == 0
  }

  ghost predicate SameSpots(a: seq<DataRange>, b: seq<DataRange>) {
    Sum(a) == Sum(b) && forall p: nat :: p < Sum(a) ==> SpotAt(a, p) == SpotAt(b, p)
  }

  /** A normal form's first range is as long as the file's layout lets it be. */
  lemma FirstIsLongest(a: seq<DataRange>, b: seq<DataRange>)
    requires Normal(a) && Normal(b) && SameSpots(a, b) && a != [] && b != []
    ensures a[0].size >= b[0].size
  {
    SumProper(a[1..]);
    SumProper(b[1..]);
    if a[0].size < b[0].size {
      var p := a[0].size;
      assert a[1..] != [] && a[1..][0] == a[1];
      assert SpotAt(a, 0) == SpotAt(b, 0);
      assert SpotAt(a, p) == SpotIn(a[1], 0);
      assert SpotAt(b, p) == SpotIn(b[0], p);
      assert Continues(a[0], a[1]);
      assert false;
    }
  }

  /** Two normal forms that put every position in the same place are the same ranges. */
  lemma {:induction false} NormalUnique(a: seq<DataRange>, b: seq<DataRange>)
    requires Normal(a) && Normal(b) && PlainHoles(a) && PlainHoles(b) && SameSpots(a, b)
    ensures a == b
  {
    SumProper(a);
    SumProper(b);
    if a != [] && b != [] {
      FirstIsLongest(a, b);
      FirstIsLongest(b, a);
      assert SpotAt(a, 0) == SpotAt(b, 0);
      assert a[0] == b[0];
      forall p: nat | p < Sum(a[1..]) ensures SpotAt(a[1..], p) == SpotAt(b[1..], p) {
        assert SpotAt(a, p + a[0].size) == SpotAt(b, p + a[0].size);
      }
      assert Normal(a[1..]) && Normal(b[1..]);
      NormalUnique(a[1..], b[1..]);
      assert a == [a[0]] + a[1..] && b == [b[0]] + b[1..];
    }
  }
}
