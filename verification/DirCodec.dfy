/** Directory data: dirents packed into blocks (writer.go, layout.go) and decoded again (internal/erofsspec/dir.go). */
module DirCodec {
  import opened Bytes
  import opened Names

  datatype Dirent = Dirent(name: Name, nid: nat, ftype: byte)

  const DIRENT_SIZE := 12
  const NAME_MAX := 255
  const TYPE_DIR: byte := 2
  const TYPE_SYMLINK: byte := 7
  const SLASH: byte := 47
  const DOT: Name := [46]
  const DOTDOT: Name := [46, 46]

  predicate ValidBlockSize(bs: nat) {
    512 <= bs <= 0x1_0000
  }

  /** What the kernel's lookup can reach: 1 to 255 bytes, no NUL and no separator. */
  predicate ProperName(n: Name) {
    1 <= |n| <= NAME_MAX && 0 !in n && SLASH !in n
  }

  predicate Encodable(es: seq<Dirent>) {
    forall i :: 0 <= i < |es| ==> ProperName(es[i].name) && es[i].nid < Width(8)
  }

  /** Strictly increasing names: what a lookup relies on. */
  predicate Sorted(es: seq<Dirent>) {
    forall i, j :: 0 <= i < j < |es| ==> Less(es[i].name, es[j].name)
  }

  // ---- The bytes a directory is made of ----

  /** The names of the first k entries, back to back. */
  function NamesTo(es: seq<Dirent>, k: nat): (b: seq<byte>)
    requires k <= |es|
  {
    if k == 0 then [] else NamesTo(es, k - 1) + es[k - 1].name
  }

  function NameOff(es: seq<Dirent>, k: nat): nat
    requires k <= |es|
  {
    DIRENT_SIZE * |es| + |NamesTo(es, k)|
  }

  /** A dirent on disk; the name offset narrows to its 16-bit field. */
  function Header(e: Dirent, off: nat): (b: seq<byte>)
    ensures |b| == DIRENT_SIZE
  {
    LE(e.nid, 8) + LE(off, 2) + [e.ftype, 0]
  }

  function HeadersTo(es: seq<Dirent>, k: nat): (b: seq<byte>)
    requires k <= |es|
    ensures |b| == DIRENT_SIZE * k
  {
    if k == 0 then [] else HeadersTo(es, k - 1) + Header(es[k - 1], NameOff(es, k - 1))
  }

  function Block(es: seq<Dirent>): (b: seq<byte>)
    ensures |b| == NameOff(es, |es|)
  {
    HeadersTo(es, |es|) + NamesTo(es, |es|)
  }

  /** The bytes the first k entries take in one block. */
  function Used(es: seq<Dirent>, k: nat): nat
    requires k <= |es|
  {
    if k == 0 then 0 else Used(es, k - 1) + DIRENT_SIZE + |es[k - 1].name|
  }

  /** How many entries from the k-th on still fit one block. */
  function Fit(es: seq<Dirent>, k: nat, bs: nat): (n: nat)
    requires k <= |es|
    ensures k <= n <= |es|
    decreases |es| - k
  {
    if k < |es| && Used(es, k + 1) <= bs then Fit(es, k + 1, bs) else k
  }

  function Taken(es: seq<Dirent>, bs: nat): (n: nat)
    requires es != []
    ensures 1 <= n <= |es|
  {
    Max(1, Fit(es, 0, bs))
  }

  function PadTo(n: nat, unit: nat): (p: nat)
    requires unit > 0
    ensures p < unit
  {
    if n % unit == 0 then 0 else unit - n % unit
  }

  /** The first block of a directory: as many entries as fit, padded when more follow. */
  function FirstBytes(es: seq<Dirent>, bs: nat): seq<byte>
    requires es != [] && bs > 0
  {
    var n := Taken(es, bs);
    var b := Block(es[..n]);
    if n == |es| then b else b + Zeros(PadTo(|b|, bs))
  }

  function EncodeDir(es: seq<Dirent>, bs: nat): seq<byte>
    requires bs > 0
    decreases |es|
  {
    if es == [] then [] else FirstBytes(es, bs) + EncodeDir(es[Taken(es, bs)..], bs)
  }

  // ---- Decoding, as readdir decodes ----

  function FieldNameOff(block: seq<byte>, i: nat): nat
    requires DIRENT_SIZE * (i + 1) <= |block|
  {
    Field(block, DIRENT_SIZE * i + 8, 2)
  }

  function NameLen(block: seq<byte>, count: nat, i: nat): int
    requires i < count && DIRENT_SIZE * count <= |block|
  {
    var off := FieldNameOff(block, i);
    if i + 1 < count then FieldNameOff(block, i + 1) - off
    else if |block| <= off then -1
    else StrNLen(block[off..])
  }

  function DecodeEntry(block: seq<byte>, count: nat, i: nat): Result<Dirent>
    requires i < count && DIRENT_SIZE * count <= |block|
  {
    var off := FieldNameOff(block, i);
    var len := NameLen(block, count, i);
    if len < 1 || len > NAME_MAX || off + len > |block| then Err(Corrupt)
    else
      var name := block[off..off + len];
      if 0 in name || SLASH in name then Err(Corrupt)
      else Ok(Dirent(name, Field(block, DIRENT_SIZE * i, 8), block[DIRENT_SIZE * i + 10]))
  }

  /** The first n entries of a block of count, or the first error among them. */
  function DecodeTo(block: seq<byte>, count: nat, n: nat): (r: Result<seq<Dirent>>)
    requires n <= count && DIRENT_SIZE * count <= |block|
    ensures r.Ok? ==> |r.value| == n
    ensures r.Ok? ==> forall i :: 0 <= i < n ==> DecodeEntry(block, count, i) == Ok(r.value[i])
  {
    if n == 0 then Ok([])
    else
      var es :- DecodeTo(block, count, n - 1);
      var e :- DecodeEntry(block, count, n - 1);
      Ok(es + [e])
  }

  /** The entry count a block declares through its first name offset, where readdir accepts it. */
  function DeclaredCount(block: seq<byte>, bs: nat): (r: Result<nat>)
    ensures r.Ok? ==> r.value > 0 && DIRENT_SIZE * r.value <= |block|
    ensures r.Ok? ==> FieldNameOff(block, 0) == DIRENT_SIZE * r.value < bs
  {
    if |block| < DIRENT_SIZE then Err(Corrupt)
    else
      var off := FieldNameOff(block, 0);
      if off == 0 || off >= bs || off % DIRENT_SIZE != 0 || off > |block| then Err(Corrupt)
      else Ok(off / DIRENT_SIZE)
  }

  function DecodeBlock(block: seq<byte>, bs: nat): Result<seq<Dirent>> {
    var count :- DeclaredCount(block, bs);
    DecodeTo(block, count, count)
  }

  /** The whole directory, block by block. */
  function DecodeDir(data: seq<byte>, bs: nat): Result<seq<Dirent>>
    requires bs > 0
    decreases |data|
  {
    if data == [] then Ok([])
    else
      var n := Min(bs, |data|);
      var es :- DecodeBlock(data[..n], bs);
      var rest :- DecodeDir(data[n..], bs);
      Ok(es + rest)
  }

  // ---- Round trip ----

  lemma {:induction false} NamesWithin(es: seq<Dirent>, i: nat, k: nat)
    requires i <= k <= |es|
    ensures NamesTo(es, i) <= NamesTo(es, k)
    ensures i < k ==> |NamesTo(es, i)| + |es[i].name| <= |NamesTo(es, k)|
    ensures i < k ==> NamesTo(es, k)[|NamesTo(es, i)|..|NamesTo(es, i)| + |es[i].name|] == es[i].name
  {
    if i + 1 < k {
      NamesWithin(es, i, k - 1);
    }
  }

  lemma {:induction false} UsedBytes(es: seq<Dirent>, k: nat)
    requires k <= |es|
    ensures Used(es, k) == DIRENT_SIZE * k + |NamesTo(es, k)|
  {
    if k > 0 {
      UsedBytes(es, k - 1);
    }
  }

  /** Packing is greedy: what is taken fits, and one entry more would not. */
  lemma {:induction false} FitIsGreedy(es: seq<Dirent>, k: nat, bs: nat)
    requires k <= |es| && Used(es, k) <= bs
    ensures Used(es, Fit(es, k, bs)) <= bs
    ensures Fit(es, k, bs) < |es| ==> Used(es, Fit(es, k, bs) + 1) > bs
    decreases |es| - k
  {
    if k < |es| && Used(es, k + 1) <= bs {
      FitIsGreedy(es, k + 1, bs);
    }
  }

  lemma {:induction false} HeaderWithin(es: seq<Dirent>, i: nat, k: nat)
    requires i < k <= |es|
    ensures HeadersTo(es, k)[DIRENT_SIZE * i..DIRENT_SIZE * (i + 1)] == Header(es[i], NameOff(es, i))
  {
    if i + 1 < k {
      HeaderWithin(es, i, k - 1);
      assert HeadersTo(es, k)[..DIRENT_SIZE * (k - 1)] == HeadersTo(es, k - 1);
    }
  }

  /** The i-th dirent of a written block, wherever the block ends. */
  lemma HeaderBytes(es: seq<Dirent>, pad: nat, i: nat)
    requires i < |es|
    ensures var b, o, h := Block(es) + Zeros(pad), DIRENT_SIZE * i, Header(es[i], NameOff(es, i));
            b[o..o + 8] == h[..8] && b[o + 8..o + 10] == h[8..10] && b[o + 10] == h[10]
  {
    hide HeadersTo, NamesTo, Header;
    var b, o := Block(es) + Zeros(pad), DIRENT_SIZE * i;
    var hs, rest := HeadersTo(es, |es|), NamesTo(es, |es|) + Zeros(pad);
    HeaderWithin(es, i, |es|);
    assert b == hs + rest;
    SliceOfLeft(hs, rest, o, o + DIRENT_SIZE);
    SubSlice(b, o, DIRENT_SIZE, 0, 8);
    SubSlice(b, o, DIRENT_SIZE, 8, 10);
    assert b[o + 10] == b[o..o + DIRENT_SIZE][10];
  }

  /** Every name offset fits its 16-bit field, and every field of the i-th dirent reads back. */
  lemma HeaderFields(es: seq<Dirent>, pad: nat, i: nat)
    requires i < |es| && Encodable(es) && |Block(es)| + pad <= 0x1_0000
    ensures var b := Block(es) + Zeros(pad);
            && NameOff(es, i) < 0x1_0000
            && FieldNameOff(b, i) == NameOff(es, i)
            && Field(b, DIRENT_SIZE * i, 8) == es[i].nid
            && b[DIRENT_SIZE * i + 10] == es[i].ftype
  {
    hide Block, NamesTo, Width, LE, Num;
    var b, o, h := Block(es) + Zeros(pad), DIRENT_SIZE * i, Header(es[i], NameOff(es, i));
    NamesWithin(es, i, |es|);
    HeaderBytes(es, pad, i);
    assert h[..8] == LE(es[i].nid, 8);
    assert h[8..10] == LE(NameOff(es, i), 2);
    Widths();
    FieldOf(b, o, es[i].nid, 8);
    FieldOf(b, o + 8, NameOff(es, i), 2);
  }

  lemma {:induction false} StrNLenAt(b: seq<byte>, n: nat)
    requires n <= |b| && (forall i :: 0 <= i < n ==> b[i] != 0) && (n < |b| ==> b[n] == 0)
    ensures StrNLen(b) == n
  {
    if n > 0 {
      StrNLenAt(b[1..], n - 1);
    }
  }

  lemma NameBytes(es: seq<Dirent>, pad: nat, i: nat)
    requires i < |es|
    ensures var off := NameOff(es, i);
            && off + |es[i].name| == NameOff(es, i + 1) <= |Block(es)|
            && (Block(es) + Zeros(pad))[off..off + |es[i].name|] == es[i].name
  {
    hide HeadersTo;
    var hs, ns := HeadersTo(es, |es|), NamesTo(es, |es|);
    var o, len := |NamesTo(es, i)|, |es[i].name|;
    NamesWithin(es, i, |es|);
    assert Block(es) + Zeros(pad) == hs + (ns + Zeros(pad));
    SliceOfRight(hs, ns + Zeros(pad), o, o + len);
    SliceOfLeft(ns, Zeros(pad), o, o + len);
  }

  /** The name a reader cuts out of a written block is as long as the one put there. */
  lemma NameLenOf(es: seq<Dirent>, pad: nat, i: nat)
    requires i < |es| && Encodable(es) && |Block(es)| + pad <= 0x1_0000
    ensures NameLen(Block(es) + Zeros(pad), |es|, i) == |es[i].name|
  {
    hide Block, FieldNameOff;
    var b, off, len := Block(es) + Zeros(pad), NameOff(es, i), |es[i].name|;
    HeaderFields(es, pad, i);
    NameBytes(es, pad, i);
    if i + 1 < |es| {
      HeaderFields(es, pad, i + 1);
    } else {
      forall j | 0 <= j < len ensures b[off..][j] != 0 {
        assert b[off..][j] == b[off..off + len][j] == es[i].name[j];
      }
      StrNLenAt(b[off..], len);
    }
  }

  lemma EntryRoundTrip(es: seq<Dirent>, pad: nat, i: nat)
    requires i < |es| && Encodable(es) && |Block(es)| + pad <= 0x1_0000
    ensures DecodeEntry(Block(es) + Zeros(pad), |es|, i) == Ok(es[i])
  {
    hide Block, FieldNameOff, NameLen, Field;
    HeaderFields(es, pad, i);
    NameBytes(es, pad, i);
    NameLenOf(es, pad, i);
  }

  lemma {:induction false} DecodesTo(es: seq<Dirent>, pad: nat, n: nat)
    requires n <= |es| && Encodable(es) && |Block(es)| + pad <= 0x1_0000
    ensures DecodeTo(Block(es) + Zeros(pad), |es|, n) == Ok(es[..n])
  {
    hide DecodeEntry, Block, Encodable;
    if n > 0 {
      DecodesTo(es, pad, n - 1);
      EntryRoundTrip(es, pad, n - 1);
      assert es[..n] == es[..n - 1] + [es[n - 1]];
    }
  }

  lemma CountOfBlock(es: seq<Dirent>, pad: nat, bs: nat)
    requires es != [] && Encodable(es) && |Block(es)| + pad <= bs <= 0x1_0000
    ensures DeclaredCount(Block(es) + Zeros(pad), bs) == Ok(|es|)
  {
    hide Block, FieldNameOff;
    HeaderFields(es, pad, 0);
    NamesWithin(es, 0, |es|);
  }

  lemma BlockRoundTrip(es: seq<Dirent>, pad: nat, bs: nat)
    requires es != [] && Encodable(es) && |Block(es)| + pad <= bs <= 0x1_0000
    ensures DecodeBlock(Block(es) + Zeros(pad), bs) == Ok(es)
  {
    hide DecodeTo, DeclaredCount, Block;
    CountOfBlock(es, pad, bs);
    DecodesTo(es, pad, |es|);
    assert es[..|es|] == es;
  }

  lemma {:induction false} UsedOfPrefix(es: seq<Dirent>, n: nat, k: nat)
    requires k <= n <= |es|
    ensures Used(es[..n], k) == Used(es, k)
  {
    if k > 0 {
      UsedOfPrefix(es, n, k - 1);
    }
  }

  /** A block always takes an entry, and what it takes fits: no entry is too large for a block. */
  lemma TakenFits(es: seq<Dirent>, bs: nat)
    requires es != [] && Encodable(es) && ValidBlockSize(bs)
    ensures Fit(es, 0, bs) > 0
    ensures 0 < |Block(es[..Taken(es, bs)])| <= bs
  {
    FitIsGreedy(es, 0, bs);
    assert Used(es, 1) == DIRENT_SIZE + |es[0].name|;
    UsedOfPrefix(es, Taken(es, bs), Taken(es, bs));
    UsedBytes(es[..Taken(es, bs)], Taken(es, bs));
  }

  lemma PadCompletes(n: nat, unit: nat)
    requires 0 < n <= unit
    ensures n + PadTo(n, unit) == unit
  {
    if n < unit {
      assert n % unit == n;
    } else {
      assert n % unit == 0;
    }
  }

  lemma EncodableSlices(es: seq<Dirent>, n: nat)
    requires Encodable(es) && n <= |es|
    ensures Encodable(es[..n]) && Encodable(es[n..])
  {
  }

  /** The first block is a whole one when more follow, and at most one when it is the last. */
  lemma FirstBlock(es: seq<Dirent>, bs: nat)
    requires es != [] && Encodable(es) && ValidBlockSize(bs)
    ensures var n, first := Taken(es, bs), FirstBytes(es, bs);
            && (n < |es| ==> |first| == bs)
            && 0 < |first| <= bs
            && DecodeBlock(first, bs) == Ok(es[..n])
  {
    hide DecodeBlock, Block, Used, Taken, Encodable;
    var n := Taken(es, bs);
    var b := Block(es[..n]);
    TakenFits(es, bs);
    EncodableSlices(es, n);
    PadCompletes(|b|, bs);
    var pad := if n == |es| then 0 else PadTo(|b|, bs);
    BlockRoundTrip(es[..n], pad, bs);
    assert FirstBytes(es, bs) == b + Zeros(pad);
  }

  lemma DecodeLast(data: seq<byte>, bs: nat)
    requires 0 < |data| <= bs && DecodeBlock(data, bs).Ok?
    ensures DecodeDir(data, bs) == DecodeBlock(data, bs)
  {
    assert data[..|data|] == data && data[|data|..] == [];
    assert DecodeDir([], bs) == Ok([]);
    assert DecodeBlock(data, bs).value + [] == DecodeBlock(data, bs).value;
  }

  lemma DecodeMore(first: seq<byte>, data: seq<byte>, bs: nat, es: seq<Dirent>, rest: seq<Dirent>)
    requires 0 < bs == |first|
    requires DecodeBlock(first, bs) == Ok(es) && DecodeDir(data, bs) == Ok(rest)
    ensures DecodeDir(first + data, bs) == Ok(es + rest)
  {
    hide DecodeBlock;
    assert (first + data)[..bs] == first && (first + data)[bs..] == data;
  }

  lemma StepRoundTrip(es: seq<Dirent>, bs: nat)
    requires es != [] && Encodable(es) && ValidBlockSize(bs)
    requires DecodeDir(EncodeDir(es[Taken(es, bs)..], bs), bs) == Ok(es[Taken(es, bs)..])
    ensures DecodeDir(FirstBytes(es, bs) + EncodeDir(es[Taken(es, bs)..], bs), bs) == Ok(es)
  {
    hide DecodeDir, EncodeDir, DecodeBlock, FirstBytes, Taken, Encodable;
    var n, first := Taken(es, bs), FirstBytes(es, bs);
    FirstBlock(es, bs);
    if n == |es| {
      assert es[n..] == [] && es[..n] == es;
      EmptyDir(bs);
      assert first + [] == first;
      DecodeLast(first, bs);
    } else {
      DecodeMore(first, EncodeDir(es[n..], bs), bs, es[..n], es[n..]);
      assert es == es[..n] + es[n..];
    }
  }

  lemma EmptyDir(bs: nat)
    requires bs > 0
    ensures EncodeDir([], bs) == []
  {
  }

  /** Decoding what was written, block by block, yields the entries in order. */
  lemma {:induction false} DirRoundTrip(es: seq<Dirent>, bs: nat)
    requires Encodable(es) && ValidBlockSize(bs)
    ensures DecodeDir(EncodeDir(es, bs), bs) == Ok(es)
    decreases |es|
  {
    if es != [] {
      hide DecodeDir, FirstBytes, Taken, Encodable;
      EncodableSlices(es, Taken(es, bs));
      DirRoundTrip(es[Taken(es, bs)..], bs);
      StepRoundTrip(es, bs);
    }
  }
}
