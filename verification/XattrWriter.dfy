/** writeXattrs, and that both parsers invert it (format.go, writer.go). */
module XattrWriter {
  import opened Bytes
  import opened Names
  import opened Xattrs

  /** An inode's attributes in the order they are written. */
  type Listing = seq<(Name, seq<byte>)>

  /** The first index from k on whose prefix the name has, else none. */
  function FirstPrefix(name: Name, k: nat): (index: nat)
    requires 0 < k <= INDEXES
    ensures index < INDEXES && PrefixAt(index) <= name
    decreases INDEXES - k
  {
    if k == INDEXES then NoPrefix(); 0 else if PrefixAt(k) <= name then k else FirstPrefix(name, k + 1)
  }

  function IndexFor(name: Name): (index: nat)
    ensures index < INDEXES && PrefixAt(index) <= name
  {
    FirstPrefix(name, 1)
  }

  function Suffix(name: Name): (s: Name)
    ensures PrefixAt(IndexFor(name)) + s == name
  {
    name[|PrefixAt(IndexFor(name))|..]
  }

  lemma {:induction false} FirstIs(name: Name, k: nat, index: nat)
    requires 0 < k <= INDEXES && index < INDEXES && (index == 0 || k <= index)
    requires PrefixAt(index) <= name && forall j :: k <= j < INDEXES && (index == 0 || j < index) ==> !(PrefixAt(j) <= name)
    ensures FirstPrefix(name, k) == index
    decreases INDEXES - k
  {
    hide PrefixAt;
    if k < INDEXES && k != index {
      FirstIs(name, k + 1, index);
    }
  }

  /** validateXattr: the fields' widths, and something after a prefix that asks for it. */
  predicate Valid(name: Name, value: seq<byte>) {
    && |Suffix(name)| <= 255 && |value| <= 65535
    && (Suffix(name) == [] ==> IndexFor(name) == 2 || IndexFor(name) == 3)
  }

  /** An entry without the padding after it. */
  function EntryCore(name: Name, value: seq<byte>): (b: seq<byte>)
    requires Valid(name, value)
    ensures |b| == ENTRY + |Suffix(name)| + |value|
  {
    [|Suffix(name)|, IndexFor(name)] + LE(|value|, 2) + Suffix(name) + value
  }

  function EntryBytes(name: Name, value: seq<byte>): (b: seq<byte>)
    requires Valid(name, value)
    ensures |b| == Round4(ENTRY + |Suffix(name)| + |value|)
  {
    var n := |EntryCore(name, value)|;
    EntryCore(name, value) + Zeros(Round4(n) - n)
  }

  predicate AllValid(attrs: Listing) {
    && (forall i :: 0 <= i < |attrs| ==> Valid(attrs[i].0, attrs[i].1))
    && forall i, j :: 0 <= i < j < |attrs| ==> attrs[i].0 != attrs[j].0
  }

  function Entries(attrs: Listing): (b: seq<byte>)
    requires forall i :: 0 <= i < |attrs| ==> Valid(attrs[i].0, attrs[i].1)
  {
    if attrs == [] then [] else Entries(attrs[..|attrs| - 1]) + EntryBytes(attrs[|attrs| - 1].0, attrs[|attrs| - 1].1)
  }

  function AreaHeader(): (b: seq<byte>)
    ensures |b| == HEADER && b[4] == 0
  {
    LE(0xFFFF_FFFF, 4) + [0] + Zeros(7)
  }

  /** The whole area. */
  function Area(attrs: Listing): seq<byte>
    requires forall i :: 0 <= i < |attrs| ==> Valid(attrs[i].0, attrs[i].1)
  {
    AreaHeader() + Entries(attrs)
  }

  function MapOf(attrs: Listing): Attrs {
    if attrs == [] then map[] else MapOf(attrs[..|attrs| - 1])[attrs[|attrs| - 1].0 := attrs[|attrs| - 1].1]
  }

  lemma {:induction false} MapKeys(attrs: Listing, name: Name)
    ensures name in MapOf(attrs) <==> exists i :: 0 <= i < |attrs| && attrs[i].0 == name
  {
    if attrs != [] {
      var n := |attrs| - 1;
      MapKeys(attrs[..n], name);
      if name in MapOf(attrs[..n]) {
        var i :| 0 <= i < n && attrs[..n][i].0 == name;
        assert attrs[i].0 == name;
      }
      if i :| 0 <= i < n && attrs[i].0 == name {
        assert attrs[..n][i].0 == name;
      }
    }
  }

  lemma EntriesStep(attrs: Listing, k: nat)
    requires k < |attrs| && forall i :: 0 <= i < |attrs| ==> Valid(attrs[i].0, attrs[i].1)
    ensures Entries(attrs[..0]) == [] && Entries(attrs[..k + 1]) == Entries(attrs[..k]) + EntryBytes(attrs[k].0, attrs[k].1)
  {
    hide EntryBytes, Valid;
    assert attrs[..k + 1][..k] == attrs[..k];
  }

  lemma NoEntries(attrs: Listing)
    requires forall i :: 0 <= i < |attrs| ==> Valid(attrs[i].0, attrs[i].1)
    ensures Entries(attrs[..0]) == []
  {
  }

  // ---- Writing ----

  /** One attribute: its entry and the padding behind it. */
  method WriteEntry(name: Name, value: seq<byte>) returns (e: seq<byte>)
    requires Valid(name, value)
    ensures e == EntryBytes(name, value)
  {
    hide EntryBytes, PrefixAt, LE, IndexFor, Suffix;
    var index, suffix := Split(name);
    SplitIs(name, index, suffix);
    var n := ENTRY + |suffix| + |value|;
    e := [|suffix|, index] + LE(|value|, 2) + suffix + value;
    assert e == EntryCore(name, value);
    if n % 4 != 0 {
      e := e + Zeros(4 - n % 4);
    }
    EntryIs(name, value, e);
  }

  /** writeXattrs. */
  method WriteXattrs(attrs: Listing) returns (out: seq<byte>)
    requires AllValid(attrs)
    ensures out == Area(attrs)
  {
    hide EntryBytes, LE, Zeros, Entries, Valid;
    out := LE(0xFFFF_FFFF, 4) + [0] + Zeros(7);
    NoEntries(attrs);
    for i := 0 to |attrs|
      invariant out == AreaHeader() + Entries(attrs[..i])
    {
      var e := WriteEntry(attrs[i].0, attrs[i].1);
      EntriesStep(attrs, i);
      out := out + e;
    }
    assert attrs[..|attrs|] == attrs;
  }

  /** What Split finds is the index and the suffix. */
  lemma SplitIs(name: Name, index: nat, suffix: Name)
    requires index < INDEXES && PrefixAt(index) + suffix == name
    requires forall k :: 0 < k < INDEXES && (index == 0 || k < index) ==> !(PrefixAt(k) <= name)
    ensures index == IndexFor(name) && suffix == Suffix(name)
  {
    hide PrefixAt;
    FirstIs(name, 1, index);
    var p := PrefixAt(index);
    assert suffix == (p + suffix)[|p|..];
  }

  lemma EntryIs(name: Name, value: seq<byte>, e: seq<byte>)
    requires Valid(name, value)
    requires var d := EntryCore(name, value); e == if |d| % 4 != 0 then d + Zeros(4 - |d| % 4) else d
    ensures e == EntryBytes(name, value)
  {
    hide EntryCore, Valid;
  }

  /** calcXattrSize: none without attributes, else the area's size. */
  method CalcXattrSize(attrs: Listing) returns (size: nat)
    requires AllValid(attrs)
    ensures size == if attrs == [] then 0 else |Area(attrs)|
  {
    hide EntryBytes, PrefixAt, LE, IndexFor, Suffix, Entries;
    if attrs == [] {
      return 0;
    }
    size := 0;
    NoEntries(attrs);
    for i := 0 to |attrs|
      invariant size == |Entries(attrs[..i])|
    {
      EntriesStep(attrs, i);
      var index, suffix := Split(attrs[i].0);
      SplitIs(attrs[i].0, index, suffix);
      var sz := ENTRY + |suffix| + |attrs[i].1|;
      if sz % 4 != 0 {
        sz := (sz + 3) / 4 * 4;
      }
      size := size + sz;
    }
    assert attrs[..|attrs|] == attrs;
    size := HEADER + size;
  }

  // ---- Reading back ----

  /** An entry found in a longer buffer is the attribute it was written for. */
  lemma CoreAt(env: Env, b: seq<byte>, pos: nat, name: Name, value: seq<byte>)
    requires Valid(name, value)
    requires var e := EntryCore(name, value); pos + |e| <= |b| && b[pos..pos + |e|] == e
    ensures EntryAt(env, b, pos) == Ok((name, value)) && EntryLen(b, pos) == |EntryCore(name, value)|
  {
    hide LE, Num, Width, PrefixAt, Suffix, IndexFor;
    var e := EntryCore(name, value);
    var n, v := |Suffix(name)|, |value|;
    assert e[0] == n && e[1] == IndexFor(name);
    assert b[pos] == b[pos..pos + |e|][0] && b[pos + 1] == b[pos..pos + |e|][1];
    SubSlice(b, pos, |e|, 2, ENTRY);
    assert e[2..ENTRY] == LE(v, 2);
    Widths();
    FieldOf(b, pos + 2, v, 2);
    SubSlice(b, pos, |e|, ENTRY, ENTRY + n);
    assert e[ENTRY..ENTRY + n] == Suffix(name);
    SubSlice(b, pos, |e|, ENTRY + n, ENTRY + n + v);
    assert e[ENTRY + n..ENTRY + n + v] == value;
  }

  lemma {:induction false} EntriesPrefix(attrs: Listing, k: nat)
    requires k <= |attrs| && forall i :: 0 <= i < |attrs| ==> Valid(attrs[i].0, attrs[i].1)
    ensures Entries(attrs[..k]) <= Entries(attrs)
    decreases |attrs|
  {
    hide EntryBytes, Valid;
    if k == |attrs| {
      assert attrs[..k] == attrs;
    } else {
      var n := |attrs| - 1;
      EntriesPrefix(attrs[..n], k);
      assert attrs[..n][..k] == attrs[..k];
    }
  }

  /** Where the k-th entry starts. */
  function EntryPos(attrs: Listing, k: nat): nat
    requires k <= |attrs| && forall i :: 0 <= i < |attrs| ==> Valid(attrs[i].0, attrs[i].1)
  {
    HEADER + |Entries(attrs[..k])|
  }

  lemma {:induction false} PosAligned(attrs: Listing, k: nat)
    requires k <= |attrs| && forall i :: 0 <= i < |attrs| ==> Valid(attrs[i].0, attrs[i].1)
    ensures EntryPos(attrs, k) % 4 == 0
    ensures k < |attrs| ==> EntryPos(attrs, k + 1) == EntryPos(attrs, k) + Round4(|EntryCore(attrs[k].0, attrs[k].1)|)
  {
    hide EntryBytes, EntryCore, Valid, Suffix, Entries, Round4;
    if k > 0 {
      PosAligned(attrs, k - 1);
    } else {
      NoEntries(attrs);
    }
    if k < |attrs| {
      EntriesStep(attrs, k);
    }
  }

  lemma EntryFound(env: Env, attrs: Listing, k: nat)
    requires k < |attrs| && forall i :: 0 <= i < |attrs| ==> Valid(attrs[i].0, attrs[i].1)
    ensures var area, pos := Area(attrs), EntryPos(attrs, k);
            && EntryAt(env, area, pos) == Ok(attrs[k]) && pos + ENTRY <= |area|
            && Round4(pos + EntryLen(area, pos)) == EntryPos(attrs, k + 1)
  {
    hide EntryCore, EntryAt, Valid, EntryLen, AreaHeader, Round4, Entries;
    var area, pos, e := Area(attrs), EntryPos(attrs, k), EntryCore(attrs[k].0, attrs[k].1);
    EntriesPrefix(attrs, k + 1);
    EntriesStep(attrs, k);
    Nested(AreaHeader(), Entries(attrs[..k]), e, Zeros(Round4(|e|) - |e|), Entries(attrs));
    CoreAt(env, area, pos, attrs[k].0, attrs[k].1);
    EntryHead(env, area, pos);
    PosAligned(attrs, k);
    Round4Sum(pos, |e|);
  }

  lemma Nested(h: seq<byte>, f: seq<byte>, e: seq<byte>, pad: seq<byte>, w: seq<byte>)
    requires f + (e + pad) <= w
    ensures |h| + |f| + |e| <= |h + w| && (h + w)[|h| + |f|..|h| + |f| + |e|] == e
  {
    var b := f + (e + pad);
    assert w[..|b|] == b;
    SubSlice(w, 0, |b|, |f|, |f| + |e|);
    assert w[0..|b|] == b;
    assert b[|f|..|f| + |e|] == e;
    SliceOfRight(h, w, |f|, |f| + |e|);
  }

  lemma EntryHead(env: Env, b: seq<byte>, pos: nat)
    requires EntryAt(env, b, pos).Ok?
    ensures pos + ENTRY <= |b|
  {
  }

  lemma Round4Sum(a: nat, b: nat)
    requires a % 4 == 0
    ensures Round4(a + b) == a + Round4(b)
  {
  }

  lemma {:induction false} InlineReads(env: Env, attrs: Listing, k: nat)
    requires k <= |attrs| && AllValid(attrs)
    ensures Inline(env, Area(attrs), EntryPos(attrs, k), MapOf(attrs[..k])) == Ok(MapOf(attrs))
    decreases |attrs| - k
  {
    hide Area, EntryPos, Valid, EntryAt, EntryLen;
    var area, pos := Area(attrs), EntryPos(attrs, k);
    if k == |attrs| {
      assert attrs[..k] == attrs;
      AtEnd(attrs);
      InlineEnd(env, area, pos, MapOf(attrs));
    } else {
      EntryFound(env, attrs, k);
      InlineStep(env, area, pos, MapOf(attrs[..k]));
      NewName(attrs, k);
      assert attrs[..k + 1][..k] == attrs[..k];
      InlineReads(env, attrs, k + 1);
    }
  }

  lemma AtEnd(attrs: Listing)
    requires forall i :: 0 <= i < |attrs| ==> Valid(attrs[i].0, attrs[i].1)
    ensures EntryPos(attrs, |attrs|) == |Area(attrs)|
  {
    assert attrs[..|attrs|] == attrs;
  }

  lemma NewName(attrs: Listing, k: nat)
    requires k < |attrs| && AllValid(attrs)
    ensures attrs[k].0 !in MapOf(attrs[..k])
  {
    hide Valid;
    MapKeys(attrs[..k], attrs[k].0);
    forall i | 0 <= i < k ensures attrs[..k][i].0 != attrs[k].0 {
      assert attrs[..k][i] == attrs[i];
    }
  }

  /** Both parsers invert the writer. */
  lemma WrittenReads(env: Env, attrs: Listing)
    requires AllValid(attrs)
    ensures Parse(env, Area(attrs)) == Ok(MapOf(attrs)) && AllSharedFit(env, Area(attrs))
  {
    hide Valid, Inline;
    assert attrs[..0] == [];
    assert Area(attrs)[4] == AreaHeader()[4];
    InlineReads(env, attrs, 0);
  }

  /** The area's size in i_xattr_icount's units, header counted as one. */
  function ICount(size: nat): nat {
    if size < HEADER then 0 else (size - HEADER) / ENTRY + 1
  }

  /** xattrICount says the size exactly, and a written area is never its header alone. */
  lemma CountExact(attrs: Listing)
    requires AllValid(attrs) && attrs != []
    ensures var size := |Area(attrs)|; (ICount(size) - 1) * ENTRY + HEADER == size && ICount(size) > 1
  {
    hide Valid, EntryBytes, Entries, Area, ICount;
    PosAligned(attrs, |attrs|);
    PosAligned(attrs, |attrs| - 1);
    AtEnd(attrs);
    CountOf(|Area(attrs)|);
  }

  lemma CountOf(size: nat)
    requires size > HEADER && size % ENTRY == 0
    ensures (ICount(size) - 1) * ENTRY + HEADER == size && ICount(size) > 1
  {
  }

  /** Written and parsed both ways. */
  method RoundTrip(env: Env, attrs: Listing) returns (windowed: Result<Attrs>, buffered: Result<Attrs>)
    requires env.bs >= 512 && AllValid(attrs)
    ensures windowed == buffered == Ok(MapOf(attrs))
  {
    hide Area, AllValid, Parse;
    var area := WriteXattrs(attrs);
    WrittenReads(env, attrs);
    windowed := LoadWindowed(env, area);
    buffered := ParseBuffer(env, area);
  }

  // ---- Where the two parsers part ----

  const USER_A: Name := USER + [0x61]

  function BigEnv(): Env
    requires Valid(USER_A, Zeros(600))
  {
    Env(EntryCore(USER_A, Zeros(600)), 512, 0, [])
  }

  const ONE_SHARED: seq<byte> := LE(0xFFFF_FFFF, 4) + [1] + Zeros(7) + LE(0, 4)

  /** A shared attribute larger than a block: the copy takes it, the reader does not. */
  lemma OversizedShared()
    ensures Valid(USER_A, Zeros(600))
    ensures Parse(BigEnv(), ONE_SHARED) == Ok(map[USER_A := Zeros(600)]) && !AllSharedFit(BigEnv(), ONE_SHARED)
  {
    hide EntryAt, EntryCore, LE, Num, Width, Suffix, IndexFor, Valid;
    UserA();
    var env, b := BigEnv(), ONE_SHARED;
    var e := EntryCore(USER_A, Zeros(600));
    assert e[0..|e|] == e;
    CoreAt(env, env.bytes, 0, USER_A, Zeros(600));
    assert |b| == 16 && b[4] == 1;
    Widths();
    assert b[12..16] == LE(0, 4);
    FieldOf(b, 12, 0, 4);
    assert SharedAt(env, b, 0) == 0;
    SharedNone(env, b);
    assert Shared(env, b, 1) == Ok(map[USER_A := Zeros(600)]);
    assert !SharedFits(env, b, 0);
  }

  lemma UserA()
    ensures Valid(USER_A, Zeros(600)) && Suffix(USER_A) == [0x61]
  {
    assert PrefixAt(1) == USER <= USER_A;
    assert IndexFor(USER_A) == 1;
    assert USER_A[|USER|..] == [0x61];
  }
}
