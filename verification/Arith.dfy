/** The few facts of division the layouts rest on. */
module Arith {

  lemma MulMono(a: nat, b: nat, d: nat)
    requires a <= b
    ensures a * d <= b * d
  {
  }

  lemma MulCancel(a: int, b: int, d: nat)
    requires d > 0 && a * d < b * d
    ensures a < b
  {
  }

  lemma DivUnique(n: nat, d: nat, q: nat, r: nat)
    requires d > 0 && n == q * d + r && r < d
    ensures n / d == q && n % d == r
  {
    var p, s := n / d, n % d;
    assert n == p * d + s;
    assert q * d < (p + 1) * d by { assert (p + 1) * d == p * d + d; }
    MulCancel(q, p + 1, d);
    assert p * d < (q + 1) * d by { assert (q + 1) * d == q * d + d; }
    MulCancel(p, q + 1, d);
  }

  lemma SmallMod(n: nat, d: nat)
    requires n < d
    ensures n % d == n && n / d == 0
  {
  }

  /** The byte address off bytes into block blk. */
  function Addr(blk: nat, bs: nat, off: nat): nat {
    blk * bs + off
  }

  function Div(n: nat, d: nat): nat
    requires d > 0
  {
    n / d
  }

  function Mod(n: nat, d: nat): (r: nat)
    requires d > 0
    ensures r < d
  {
    n % d
  }

  lemma DivMod(n: nat, d: nat)
    requires d > 0
    ensures n == Div(n, d) * d + Mod(n, d)
    ensures Div(n, d) * d <= n
  {
  }

  /** n / d, rounded up. */
  function CeilDiv(n: nat, d: nat): nat
    requires d > 0
  {
    (n + d - 1) / d
  }

  lemma CeilBounds(n: nat, d: nat)
    requires d > 0
    ensures n <= CeilDiv(n, d) * d < n + d
  {
    var q := CeilDiv(n, d);
    assert n + d - 1 == q * d + (n + d - 1) % d;
  }

  lemma CeilUnique(n: nat, d: nat, q: nat)
    requires d > 0 && n <= q * d < n + d
    ensures CeilDiv(n, d) == q
  {
    DivUnique(n + d - 1, d, q, n + d - 1 - q * d);
  }

  /** k indexes a unit of n bytes exactly when the unit starts below n. */
  lemma CeilIndex(n: nat, d: nat, k: nat)
    requires d > 0
    ensures k < CeilDiv(n, d) <==> k * d < n
  {
    var q := CeilDiv(n, d);
    CeilBounds(n, d);
    if k < q {
      MulMono(k + 1, q, d);
      assert (k + 1) * d == k * d + d;
    } else {
      MulMono(q, k, d);
    }
  }

  function SumOf(ns: seq<nat>): nat {
    if ns == [] then 0 else SumOf(ns[..|ns| - 1]) + ns[|ns| - 1]
  }

  lemma CeilStep(n: nat, d: nat)
    requires d > 0 && n > 0
    ensures CeilDiv(n, d) == 1 + CeilDiv(if n < d then 0 else n - d, d)
    ensures CeilDiv(0, d) == 0
  {
    var rest := if n < d then 0 else n - d;
    CeilUnique(0, d, 0);
    CeilBounds(rest, d);
    var q := CeilDiv(rest, d);
    assert (q + 1) * d == q * d + d;
    if n < d {
      assert q * d == 0;
    }
    CeilUnique(n, d, 1 + q);
  }
}
