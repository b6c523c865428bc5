/** The mask over chunk indexes' device ids (erofs.go: roundupPowerOfTwo, device_id_mask). */
module DeviceMask {
  import opened Arith
  import opened BlockMap

  // ---- Bits ----

  /** a | b. */
  function Or(a: nat, b: nat): nat {
    if a == 0 && b == 0 then 0 else 2 * Or(a / 2, b / 2) + if a % 2 == 1 || b % 2 == 1 then 1 else 0
  }

  /** a & b. */
  function And(a: nat, b: nat): nat {
    if a == 0 || b == 0 then 0 else 2 * And(a / 2, b / 2) + if a % 2 == 1 && b % 2 == 1 then 1 else 0
  }

  /** n >> k. */
  function Shr(n: nat, k: nat): nat {
    Div(n, Pow2(k))
  }

  /** k ones. */
  function Ones(k: nat): (n: nat)
    ensures n + 1 == Pow2(k)
  {
    Pow2(k) - 1
  }

  /** roundupPowerOfTwo: every bit below the highest set, then one more. */
  function RoundUp(v: nat): nat
    requires v > 0
  {
    var a := v - 1;
    var b := Or(a, Shr(a, 1));
    var c := Or(b, Shr(b, 2));
    var d := Or(c, Shr(c, 4));
    var e := Or(d, Shr(d, 8));
    var f := Or(e, Shr(e, 16));
    f + 1
  }

  // ---- Shifts ----

  lemma Halve(n: nat, k: nat)
    requires k > 0
    ensures Shr(n, k) == Shr(n / 2, k - 1)
  {
    var q, r := n / 2, n % 2;
    var p := Pow2(k - 1);
    var h, l := q / p, q % p;
    assert n == h * (2 * p) + (2 * l + r);
    DivUnique(n, 2 * p, h, 2 * l + r);
  }

  lemma {:induction false} ShrShr(n: nat, j: nat, k: nat)
    ensures Shr(Shr(n, j), k) == Shr(n, j + k)
    decreases j
  {
    hide Shr;
    ShrZero(n);
    if j > 0 {
      Halve(n, j);
      ShrShr(n / 2, j - 1, k);
      Halve(n, j + k);
    }
  }

  lemma ShrZero(n: nat)
    ensures Shr(n, 0) == n && Pow2(0) == 1
  {
  }

  lemma {:induction false} OnesShr(s: nat, k: nat)
    requires k <= s
    ensures Shr(Ones(s), k) == Ones(s - k)
    decreases k
  {
    hide Shr, Pow2;
    ShrZero(Ones(s));
    if k > 0 {
      PowStep(s);
      Halve(Ones(s), k);
      assert Ones(s) / 2 == Ones(s - 1);
      OnesShr(s - 1, k - 1);
    }
  }

  lemma PowStep(k: nat)
    requires k > 0
    ensures Pow2(k) == 2 * Pow2(k - 1)
  {
  }

  lemma {:induction false} PowAdd(j: nat, k: nat)
    ensures Pow2(j + k) == Pow2(j) * Pow2(k)
  {
    hide Pow2;
    if j == 0 {
      ShrZero(k);
    } else {
      PowAdd(j - 1, k);
      PowStep(j);
      PowStep(j + k);
      Twice(Pow2(j - 1), Pow2(k));
    }
  }

  lemma Twice(a: nat, b: nat)
    ensures (2 * a) * b == 2 * (a * b)
  {
  }

  lemma ShrSmall(n: nat, k: nat)
    requires n < Pow2(k)
    ensures Shr(n, k) == 0
  {
    SmallMod(n, Pow2(k));
  }

  // ---- Or ----

  lemma {:induction false} OrNone(a: nat)
    ensures Or(a, 0) == a
  {
    if a > 0 {
      OrNone(a / 2);
    }
  }

  lemma {:induction false} OrBelow(a: nat, b: nat, k: nat)
    requires a < Pow2(k) && b < Pow2(k)
    ensures Or(a, b) < Pow2(k)
    decreases k
  {
    if k > 0 {
      OrBelow(a / 2, b / 2, k - 1);
    }
  }

  lemma OrHalf(a: nat, b: nat)
    ensures Or(a, b) / 2 == Or(a / 2, b / 2)
  {
  }

  lemma {:induction false} OrShr(a: nat, b: nat, k: nat)
    ensures Shr(Or(a, b), k) == Or(Shr(a, k), Shr(b, k))
    decreases k
  {
    hide Shr, Or, Pow2;
    ShrZero(a);
    ShrZero(b);
    ShrZero(Or(a, b));
    if k > 0 {
      Halve(a, k);
      Halve(b, k);
      Halve(Or(a, b), k);
      OrHalf(a, b);
      OrShr(a / 2, b / 2, k - 1);
    }
  }

  lemma {:induction false} OrOnes(r: nat, k: nat)
    requires r < Pow2(k)
    ensures Or(r, Ones(k)) == Ones(k)
    decreases k
  {
    if k > 0 {
      OrOnes(r / 2, k - 1);
      assert Ones(k) / 2 == Ones(k - 1) && Ones(k) % 2 == 1;
    }
  }

  /** High bits over low ones: the or fills the low bits and leaves the high. */
  lemma {:induction false} OrFills(h: nat, r: nat, k: nat)
    requires r < Pow2(k)
    ensures Or(h * Pow2(k) + r, Ones(k)) == h * Pow2(k) + Ones(k)
    decreases k
  {
    if k == 0 {
      assert h * Pow2(0) == h;
      OrNone(h);
    } else {
      var p := Pow2(k - 1);
      assert h * Pow2(k) == 2 * (h * p);
      OrFills(h, r / 2, k - 1);
      assert (h * Pow2(k) + r) / 2 == h * p + r / 2;
      assert Ones(k) / 2 == Ones(k - 1) && Ones(k) % 2 == 1;
    }
  }

  // ---- Smearing ----

  /** v has b bits, the upper s of them set. */
  predicate Top(v: nat, b: nat, s: nat) {
    v < Pow2(b) && if s < b then Shr(v, b - s) == Ones(s) else v == Ones(b)
  }

  /** u's upper half is ones; or-ing as many ones fills the lower. */
  lemma Filled(u: nat, s: nat, k: nat)
    requires Shr(u, k) == Ones(s)
    ensures Or(u, Ones(k)) == Ones(s + k)
  {
    hide Pow2, Or;
    DivMod(u, Pow2(k));
    OrFills(Ones(s), Mod(u, Pow2(k)), k);
    PowAdd(s, k);
    Telescope(Pow2(s), Pow2(k));
  }

  lemma Telescope(a: nat, p: nat)
    requires a > 0
    ensures (a - 1) * p + p == a * p
  {
  }

  /** v |= v >> s: twice as many upper bits set. */
  lemma Smear(v: nat, b: nat, s: nat)
    requires s > 0 && Top(v, b, s)
    ensures Top(Or(v, Shr(v, s)), b, 2 * s)
  {
    hide Shr, Or, Pow2;
    var w := Shr(v, s);
    if s >= b {
      PowMono(b, s);
      ShrSmall(v, s);
      OrNone(v);
    } else {
      ShrLess(v, s);
      OrBelow(v, w, b);
      if 2 * s < b {
        var u := Shr(v, b - 2 * s);
        OrShr(v, w, b - 2 * s);
        ShrShr(v, s, b - 2 * s);
        ShrShr(v, b - 2 * s, s);
        assert Shr(u, s) == Ones(s);
        Filled(u, s, s);
      } else {
        ShrShr(v, b - s, 2 * s - b);
        OnesShr(s, 2 * s - b);
        assert w == Ones(b - s);
        Filled(v, s, b - s);
      }
    }
  }

  lemma ShrLess(v: nat, s: nat)
    ensures Shr(v, s) <= v
  {
    DivMod(v, Pow2(s));
    MulMono(1, Pow2(s), Shr(v, s));
  }

  lemma {:induction false} PowMono(j: nat, k: nat)
    requires j <= k
    ensures Pow2(j) <= Pow2(k)
  {
    if j < k {
      PowMono(j, k - 1);
    }
  }

  // ---- The mask ----

  lemma {:induction false} MaskLeast(devices: nat, from: nat)
    requires from == 0 || Pow2(from - 1) <= devices
    ensures var b := MaskBits(devices, from); Pow2(b) > devices && (b == 0 || Pow2(b - 1) <= devices)
    decreases devices - Pow2(from)
  {
    if Pow2(from) <= devices {
      MaskLeast(devices, from + 1);
    }
  }

  /** A table of n devices rounds up to the least power of two above n. */
  lemma LeastPower(n: nat)
    requires n <= 0xFFFF
    ensures RoundUp(n + 1) == Pow2(MaskBits(n, 0)) > n
    ensures n == 0 || RoundUp(n + 1) <= 2 * n
  {
    hide Shr, Or, Pow2, MaskBits;
    var b := MaskBits(n, 0);
    MaskLeast(n, 0);
    FewBits(n, b);
    if b == 0 {
      ShrZero(n);
      AllZero();
    } else {
      assert Top(n, b, 1) by { FirstBit(n, b); }
      var x1 := Or(n, Shr(n, 1));
      Smear(n, b, 1);
      var x2 := Or(x1, Shr(x1, 2));
      Smear(x1, b, 2);
      var x3 := Or(x2, Shr(x2, 4));
      Smear(x2, b, 4);
      var x4 := Or(x3, Shr(x3, 8));
      Smear(x3, b, 8);
      Smear(x4, b, 16);
      PowStep(b);
    }
  }

  lemma AllZero()
    ensures RoundUp(1) == 1
  {
    assert forall k :: Shr(0, k) == 0;
    assert Or(0, 0) == 0;
  }

  lemma FirstBit(n: nat, b: nat)
    requires b > 0 && Pow2(b - 1) <= n < Pow2(b)
    ensures Top(n, b, 1)
  {
    DivUnique(n, Pow2(b - 1), 1, n - Pow2(b - 1));
    assert Pow2(1) == 2;
  }

  lemma FewBits(n: nat, b: nat)
    requires n <= 0xFFFF && (b == 0 || Pow2(b - 1) <= n)
    ensures b <= 16
  {
    hide Pow2;
    if b > 16 {
      PowMono(16, b - 1);
      Sixteen();
    }
  }

  lemma Sixteen()
    ensures Pow2(16) == 0x1_0000
  {
    assert Pow2(8) == 256;
  }

  /** A mask of low ones keeps the remainder. */
  lemma {:induction false} AndOnes(x: nat, k: nat)
    ensures And(x, Ones(k)) == Mod(x, Pow2(k))
    decreases k
  {
    hide And, Pow2, Mod, Ones;
    if k == 0 {
      NoBits(x);
    } else {
      AndOnes(x / 2, k - 1);
      OnesHalf(k);
      AndHalf(x, Ones(k));
      PowStep(k);
      ModHalf(x, Pow2(k - 1));
    }
  }

  lemma NoBits(x: nat)
    ensures And(x, Ones(0)) == 0 == Mod(x, Pow2(0))
  {
  }

  lemma OnesHalf(k: nat)
    requires k > 0
    ensures Ones(k) / 2 == Ones(k - 1) && Ones(k) % 2 == 1
  {
  }

  lemma AndHalf(x: nat, y: nat)
    ensures And(x, y) == 2 * And(x / 2, y / 2) + if x % 2 == 1 && y % 2 == 1 then 1 else 0
  {
  }

  lemma ModHalf(x: nat, p: nat)
    requires p > 0
    ensures Mod(x, 2 * p) == 2 * Mod(x / 2, p) + x % 2
  {
    var q, l := (x / 2) / p, (x / 2) % p;
    Twice(p, q);
    assert x == q * (2 * p) + (2 * l + x % 2);
    DivUnique(x, 2 * p, q, 2 * l + x % 2);
  }

  /** The mask the reader applies, bit by bit, is the one ids are read under. */
  lemma MaskIs(id: nat, n: nat)
    requires n <= 0xFFFF
    ensures And(id, RoundUp(n + 1) - 1) == MaskId(id, n)
  {
    hide RoundUp, And, Pow2;
    LeastPower(n);
    AndOnes(id, MaskBits(n, 0));
  }

  /** Every id the table has survives the mask, and nothing above twice its size does. */
  lemma KeepsIds(n: nat, id: nat)
    requires n <= 0xFFFF
    ensures id <= n ==> And(id, RoundUp(n + 1) - 1) == id
    ensures And(id, RoundUp(n + 1) - 1) <= 2 * n
  {
    hide RoundUp, And, Pow2;
    LeastPower(n);
    MaskIs(id, n);
    var p := Pow2(MaskBits(n, 0));
    if id <= n {
      SmallMod(id, p);
    }
    if n == 0 {
      One();
    }
  }

  lemma One()
    ensures Pow2(MaskBits(0, 0)) == 1
  {
  }
}
