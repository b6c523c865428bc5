/** Names are byte strings ordered as bytes.Compare orders them. */
module Names {
  import opened Bytes

  type Name = seq<byte>

  /** The length of the longest common prefix. */
  function Lcp(a: Name, b: Name): (k: nat)
    ensures k <= |a| && k <= |b|
    ensures a[..k] == b[..k]
    ensures k < |a| && k < |b| ==> a[k] != b[k]
  {
    if a == [] || b == [] || a[0] != b[0] then 0
    else
      var k := Lcp(a[1..], b[1..]);
      assert a[..k + 1] == [a[0]] + a[1..][..k];
      assert b[..k + 1] == [b[0]] + b[1..][..k];
      k + 1
  }

  /** bytes.Compare(a, b) < 0. */
  predicate Less(a: Name, b: Name) {
    var k := Lcp(a, b);
    k < |b| && (k == |a| || a[k] < b[k])
  }

  predicate Leq(a: Name, b: Name) {
    a == b || Less(a, b)
  }

  /** Two names that agree below k and part at k have k as their common prefix. */
  lemma {:induction false} LcpAt(a: Name, b: Name, k: nat)
    requires k <= |a| && k <= |b| && a[..k] == b[..k]
    requires k == |a| || k == |b| || a[k] != b[k]
    ensures Lcp(a, b) == k && Lcp(b, a) == k
  {
    if k > 0 {
      assert a[0] == a[..k][0] == b[..k][0] == b[0];
      assert a[1..][..k - 1] == a[..k][1..] == b[..k][1..] == b[1..][..k - 1];
      LcpAt(a[1..], b[1..], k - 1);
    }
  }

  lemma Trichotomy(a: Name, b: Name)
    ensures Less(a, b) || a == b || Less(b, a)
    ensures !(Less(a, b) && Less(b, a))
    ensures !Less(a, a)
  {
    LcpAt(a, b, Lcp(a, b));
    LcpAt(a, a, |a|);
    if Lcp(a, b) == |a| == |b| {
      assert a == a[..|a|] == b[..|b|] == b;
    }
  }

  lemma Transitive(a: Name, b: Name, c: Name)
    requires Less(a, b) && Less(b, c)
    ensures Less(a, c)
  {
    var k := Min(Lcp(a, b), Lcp(b, c));
    assert a[..k] == b[..k] by { assert a[..k] == a[..Lcp(a, b)][..k] && b[..k] == b[..Lcp(a, b)][..k]; }
    assert b[..k] == c[..k] by { assert b[..k] == b[..Lcp(b, c)][..k] && c[..k] == c[..Lcp(b, c)][..k]; }
    if k < Lcp(b, c) {
      assert b[..Lcp(b, c)][k] == c[..Lcp(b, c)][k];
    } else if k < Lcp(a, b) {
      assert a[..Lcp(a, b)][k] == b[..Lcp(a, b)][k];
    }
    LcpAt(a, c, k);
  }

  /** A name that leaves a shared prefix upwards is above every name that keeps it. */
  lemma LeavesUpwards(a: Name, b: Name, c: Name, m: nat)
    requires Less(a, b) && Lcp(a, b) < m
    requires m <= |a| && m <= |c| && a[..m] == c[..m]
    ensures Less(c, b)
  {
    var j := Lcp(a, b);
    assert a[..j] == a[..m][..j] == c[..m][..j] == c[..j];
    assert a[j] == a[..m][j] == c[..m][j] == c[j];
    LcpAt(c, b, j);
  }

  /** Everything ordered between two names that share a prefix shares it too. */
  lemma Squeeze(a: Name, b: Name, c: Name, m: nat)
    requires Less(a, b) && Less(b, c)
    requires m <= |a| && m <= |c| && a[..m] == c[..m]
    ensures m <= |b| && b[..m] == a[..m]
  {
    Trichotomy(b, c);
    if Lcp(a, b) < m {
      LeavesUpwards(a, b, c, m);
      assert false;
    }
    assert b[..m] == b[..Lcp(a, b)][..m] == a[..Lcp(a, b)][..m] == a[..m];
  }
}
