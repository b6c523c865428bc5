/** Bytes and the little-endian fields every on-disk structure is made of. */
module Bytes {

  type byte = b: int | 0 <= b < 256

  datatype Option<+T> = None | Some(value: T)

  /** The error classes the package reports, and a result that is either a value or one of them. */
  datatype Error = Corrupt | Invalid | NotImplemented | NotExist | NotDirectory | IsDirectory | Exists | NotEmpty | Loop | Eof

  datatype Result<+T> = Ok(value: T) | Err(error: Error) {
    predicate IsFailure() {
      Err?
    }

    function PropagateFailure<U>(): Result<U>
      requires Err?
    {
      Err(error)
    }

    function Extract(): T
      requires Ok?
    {
      value
    }
  }

  function Zeros(n: nat): (z: seq<byte>)
    ensures |z| == n
    ensures forall i :: 0 <= i < n ==> z[i] == 0
  {
    seq(n, _ => 0)
  }

  /** The number of values an n-byte field holds. */
  function Width(n: nat): (w: nat)
    ensures w > 0
  {
    if n == 0 then 1 else 256 * Width(n - 1)
  }

  /** v as n little-endian bytes. */
  function LE(v: nat, n: nat): (b: seq<byte>)
    ensures |b| == n
  {
    if n == 0 then [] else [v % 256] + LE(v / 256, n - 1)
  }

  /** The number b spells, least significant byte first. */
  function Num(b: seq<byte>): (v: nat)
    ensures v < Width(|b|)
  {
    if b == [] then 0 else b[0] + 256 * Num(b[1..])
  }

  /** The n-byte field of b at off. */
  function Field(b: seq<byte>, off: nat, n: nat): nat
    requires off + n <= |b|
  {
    Num(b[off..off + n])
  }

  /** A field wide enough for its value reads back as that value. */
  lemma {:induction false} NumLE(v: nat, n: nat)
    requires v < Width(n)
    ensures Num(LE(v, n)) == v
  {
    if n > 0 {
      NumLE(v / 256, n - 1);
      assert LE(v, n)[1..] == LE(v / 256, n - 1);
    }
  }

  lemma Widths()
    ensures Width(1) == 0x100 && Width(2) == 0x1_0000 && Width(4) == 0x1_0000_0000
    ensures Width(8) == 0x1_0000_0000_0000_0000
  {
    assert Width(3) == 0x100_0000;
    assert Width(5) == 256 * 0x1_0000_0000;
    assert Width(6) == 65536 * 0x1_0000_0000;
    assert Width(7) == 65536 * 256 * 0x1_0000_0000;
  }

  /** The field found inside a longer buffer is the field that was put there. */
  lemma FieldOf(b: seq<byte>, off: nat, v: nat, n: nat)
    requires off + n <= |b| && b[off..off + n] == LE(v, n) && v < Width(n)
    ensures Field(b, off, n) == v
  {
    NumLE(v, n);
  }

  /** The first position of a zero in b, or its length. */
  function StrNLen(b: seq<byte>): (n: nat)
    ensures n <= |b|
    ensures forall i :: 0 <= i < n ==> b[i] != 0
    ensures n < |b| ==> b[n] == 0
  {
    if b == [] || b[0] == 0 then 0 else 1 + StrNLen(b[1..])
  }

  lemma SubSlice<T>(b: seq<T>, o: nat, n: nat, i: nat, j: nat)
    requires i <= j <= n && o + n <= |b|
    ensures b[o..o + n][i..j] == b[o + i..o + j]
  {
    var s, t := b[o..o + n][i..j], b[o + i..o + j];
    assert forall k :: 0 <= k < |s| ==> s[k] == t[k];
  }

  lemma SliceOfLeft<T>(a: seq<T>, b: seq<T>, i: nat, j: nat)
    requires i <= j <= |a|
    ensures (a + b)[i..j] == a[i..j]
  {
  }

  lemma SliceOfRight<T>(a: seq<T>, b: seq<T>, i: nat, j: nat)
    requires i <= j <= |b|
    ensures (a + b)[|a| + i..|a| + j] == b[i..j]
  {
  }

  /** b with s written over it from off on. */
  function Splice(b: seq<byte>, off: nat, s: seq<byte>): (r: seq<byte>)
    requires off + |s| <= |b|
    ensures |r| == |b|
  {
    b[..off] + s + b[off + |s|..]
  }

  /** A write leaves what lies wholly before or after it, and is found where it was put. */
  lemma SpliceSlices(b: seq<byte>, off: nat, s: seq<byte>, i: nat, j: nat)
    requires off + |s| <= |b| && i <= j <= |b|
    ensures Splice(b, off, s)[off..off + |s|] == s
    ensures j <= off || off + |s| <= i ==> Splice(b, off, s)[i..j] == b[i..j]
  {
  }

  function Min(a: int, b: int): int {
    if a < b then a else b
  }

  function Max(a: int, b: int): int {
    if a < b then b else a
  }
}
