/** Extended attributes: as they are written, and as the reader and the copy parse them (format.go, writer.go, xattr.go, mkfs_image.go). */
module Xattrs {
  import opened Bytes
  import opened Names

  const HEADER: nat := 12
  const ENTRY: nat := 4
  const LONG: nat := 0x80

  /** The image an attribute area is part of: its bytes, the block size, where its shared entries start, its table of long prefixes. */
  datatype Env = Env(bytes: seq<byte>, bs: nat, shared: nat, table: seq<Name>)

  type Attrs = map<Name, seq<byte>>

  // ---- Names ----

  const USER: Name := [0x75, 0x73, 0x65, 0x72, 0x2E]
  const ACL: Name := [0x73, 0x79, 0x73, 0x74, 0x65, 0x6D, 0x2E, 0x70, 0x6F, 0x73, 0x69, 0x78, 0x5F, 0x61, 0x63, 0x6C, 0x5F]
  const ACCESS: Name := ACL + [0x61, 0x63, 0x63, 0x65, 0x73, 0x73]
  const DEFAULT: Name := ACL + [0x64, 0x65, 0x66, 0x61, 0x75, 0x6C, 0x74]
  const TRUSTED: Name := [0x74, 0x72, 0x75, 0x73, 0x74, 0x65, 0x64, 0x2E]
  const LUSTRE: Name := [0x6C, 0x75, 0x73, 0x74, 0x72, 0x65, 0x2E]
  const SECURITY: Name := [0x73, 0x65, 0x63, 0x75, 0x72, 0x69, 0x74, 0x79, 0x2E]

  const INDEXES: nat := 7

  /** The prefix a name index of the format's own stands for. */
  function PrefixAt(index: nat): Name
    requires index < INDEXES
  {
    [[], USER, ACCESS, DEFAULT, TRUSTED, LUSTRE, SECURITY][index]
  }

  /** The prefix a name index stands for: none, one of the format's six, or an entry of the image's table. */
  function PrefixOf(env: Env, index: nat): Result<Name> {
    if index >= LONG then
      if index - LONG < |env.table| then Ok(env.table[index - LONG]) else Err(Corrupt)
    else if index < INDEXES then Ok(PrefixAt(index))
    else Err(Corrupt)
  }

  lemma NoPrefix()
    ensures PrefixAt(0) == []
  {
  }

  /** xattrSplit: the first index whose prefix the name has, and the rest of it. */
  method Split(name: Name) returns (index: nat, suffix: Name)
    ensures index < INDEXES && PrefixAt(index) + suffix == name
    ensures forall k :: 0 < k < INDEXES && (index == 0 || k < index) ==> !(PrefixAt(k) <= name)
  {
    hide PrefixAt;
    NoPrefix();
    for k := 1 to INDEXES
      invariant forall j :: 0 < j < k ==> !(PrefixAt(j) <= name)
    {
      if PrefixAt(k) <= name {
        return k, name[|PrefixAt(k)|..];
      }
    }
    return 0, name;
  }

  // ---- The body's meaning ----

  function Round4(n: nat): (r: nat)
    ensures n <= r < n + 4 && r % 4 == 0
  {
    if n % 4 == 0 then n else n + (4 - n % 4)
  }

  /** The attribute an entry at pos holds, if the bytes hold it all. */
  function EntryAt(env: Env, b: seq<byte>, pos: nat): Result<(Name, seq<byte>)> {
    if pos + ENTRY > |b| then Err(Corrupt)
    else
      var n, v := b[pos], Field(b, pos + 2, 2);
      if pos + ENTRY + n + v > |b| then Err(Corrupt)
      else
        var prefix :- PrefixOf(env, b[pos + 1]);
        Ok((prefix + b[pos + ENTRY..pos + ENTRY + n], b[pos + ENTRY + n..pos + ENTRY + n + v]))
  }

  function EntryLen(b: seq<byte>, pos: nat): nat
    requires pos + ENTRY <= |b|
  {
    ENTRY + b[pos] + Field(b, pos + 2, 2)
  }

  /** One more attribute; a name may come once. */
  function Add(r: Result<Attrs>, e: Result<(Name, seq<byte>)>): Result<Attrs> {
    if r.Err? then r
    else if e.Err? then Err(e.error)
    else if e.value.0 in r.value then Err(Corrupt)
    else Ok(r.value[e.value.0 := e.value.1])
  }

  /** The inline entries from pos on. */
  function Inline(env: Env, area: seq<byte>, pos: nat, acc: Attrs): Result<Attrs>
    decreases |area| - pos
  {
    if pos >= |area| then Ok(acc)
    else
      var next :- Add(Ok(acc), EntryAt(env, area, pos));
      Inline(env, area, Round4(pos + EntryLen(area, pos)), next)
  }

  /** The byte address the i-th shared reference names. */
  function SharedAt(env: Env, area: seq<byte>, i: nat): nat
    requires HEADER + 4 * i + 4 <= |area|
  {
    env.shared + 4 * Field(area, HEADER + 4 * i, 4)
  }

  /** The first n shared references. */
  function Shared(env: Env, area: seq<byte>, n: nat): Result<Attrs> {
    if n == 0 then Ok(map[])
    else
      var acc :- Shared(env, area, n - 1);
      if HEADER + 4 * n > |area| then Err(Corrupt) else Add(Ok(acc), EntryAt(env, env.bytes, SharedAt(env, area, n - 1)))
  }

  /** What an attribute area says. */
  function Parse(env: Env, area: seq<byte>): Result<Attrs> {
    if |area| < HEADER then Err(Corrupt)
    else
      var n: nat := area[4];
      var acc :- Shared(env, area, n);
      Inline(env, area, HEADER + 4 * n, acc)
  }

  /** Two parsers agree: the same attributes, or both refuse. */
  predicate Agree(a: Result<Attrs>, b: Result<Attrs>) {
    if a.Ok? then a == b else b.Err?
  }

  // ---- parseXattrsFromBuf ----

  method ParseBuffer(env: Env, area: seq<byte>) returns (r: Result<Attrs>)
    ensures Agree(r, Parse(env, area))
  {
    hide Inline, Shared, EntryAt;
    if |area| < HEADER {
      return Err(Corrupt);
    }
    var n: nat := area[4];
    var acc: Attrs, pos := map[], HEADER;
    SharedNone(env, area);
    for i := 0 to n
      invariant pos == HEADER + 4 * i && Shared(env, area, i) == Ok(acc)
    {
      SharedStep(env, area, i, n);
      if pos + 4 > |area| {
        return Err(Corrupt);
      }
      var at := SharedAt(env, area, i);
      pos := pos + 4;
      var e := ReadEntry(env, env.bytes, at);
      if e.Err? || e.value.0 in acc {
        return Err(Corrupt);
      }
      acc := acc[e.value.0 := e.value.1];
    }
    ghost var want := Inline(env, area, pos, acc);
    while pos < |area|
      invariant Inline(env, area, pos, acc) == want
      decreases |area| - pos
    {
      InlineStep(env, area, pos, acc);
      var e := ReadEntry(env, area, pos);
      if e.Err? || e.value.0 in acc {
        return Err(Corrupt);
      }
      EntryInside(env, area, pos);
      acc := acc[e.value.0 := e.value.1];
      pos := Round4(pos + EntryLen(area, pos));
    }
    InlineEnd(env, area, pos, acc);
    return Ok(acc);
  }

  /** One entry of the bytes b, which must hold it all. */
  method ReadEntry(env: Env, b: seq<byte>, pos: nat) returns (e: Result<(Name, seq<byte>)>)
    ensures e == EntryAt(env, b, pos)
  {
    if pos + ENTRY > |b| {
      return Err(Corrupt);
    }
    var n, v := b[pos], Field(b, pos + 2, 2);
    var at := pos + ENTRY;
    if at + n + v > |b| {
      return Err(Corrupt);
    }
    var prefix := PrefixOf(env, b[pos + 1]);
    if prefix.Err? {
      return Err(prefix.error);
    }
    return Ok((prefix.value + b[at..at + n], b[at + n..at + n + v]));
  }

  lemma SharedNone(env: Env, area: seq<byte>)
    ensures Shared(env, area, 0) == Ok(map[])
  {
  }

  /** A shared reference that cannot be followed fails the whole area. */
  lemma SharedStep(env: Env, area: seq<byte>, i: nat, n: nat)
    requires i < n && Shared(env, area, i).Ok?
    ensures HEADER + 4 * i + 4 > |area| ==> Shared(env, area, n).Err?
    ensures HEADER + 4 * i + 4 <= |area| ==>
              var r := Add(Shared(env, area, i), EntryAt(env, env.bytes, SharedAt(env, area, i)));
              Shared(env, area, i + 1) == r && (r.Err? ==> Shared(env, area, n).Err?)
  {
    if Shared(env, area, i + 1).Err? {
      SharedStuck(env, area, i + 1, n);
    }
  }

  lemma {:induction false} SharedStuck(env: Env, area: seq<byte>, i: nat, n: nat)
    requires i <= n && Shared(env, area, i).Err?
    ensures Shared(env, area, n).Err?
  {
    hide EntryAt, Add, SharedAt;
    if i < n {
      SharedStuck(env, area, i, n - 1);
    }
  }

  lemma InlineStep(env: Env, area: seq<byte>, pos: nat, acc: Attrs)
    requires pos < |area|
    ensures var e := EntryAt(env, area, pos);
            && (e.Err? || e.value.0 in acc ==> Inline(env, area, pos, acc).Err?)
            && (e.Ok? && e.value.0 !in acc ==>
                  && pos + ENTRY <= |area|
                  && Inline(env, area, pos, acc) == Inline(env, area, Round4(pos + EntryLen(area, pos)), acc[e.value.0 := e.value.1]))
  {
  }

  lemma InlineEnd(env: Env, area: seq<byte>, pos: nat, acc: Attrs)
    requires pos >= |area|
    ensures Inline(env, area, pos, acc) == Ok(acc)
  {
  }

  lemma EntryInside(env: Env, b: seq<byte>, pos: nat)
    requires EntryAt(env, b, pos).Ok?
    ensures pos + ENTRY <= |b| && pos + EntryLen(b, pos) <= |b|
  {
  }

  // ---- loadXattrs ----

  /** loadAt: at most a block from pos on, nothing where there is nothing. */
  function Window(b: seq<byte>, pos: nat, bs: nat): (w: seq<byte>)
    ensures |w| <= bs
  {
    if pos >= |b| then [] else b[pos..Min(pos + bs, |b|)]
  }

  /** The window holds the area's bytes from pos on, as far as it goes. */
  predicate Shows(area: seq<byte>, pos: nat, w: seq<byte>) {
    w == [] || (pos + |w| <= |area| && w == area[pos..pos + |w|])
  }

  lemma WindowShows(area: seq<byte>, pos: nat, bs: nat, n: nat)
    requires n <= bs
    ensures Shows(area, pos, Window(area, pos, bs)) && (|Window(area, pos, bs)| >= n <==> n == 0 || pos + n <= |area|)
  {
  }

  lemma ShowsRest(area: seq<byte>, pos: nat, w: seq<byte>, n: nat)
    requires Shows(area, pos, w) && n <= |w|
    ensures Shows(area, pos + n, w[n..]) && (n > 0 ==> pos + n <= |area| && w[..n] == area[pos..pos + n])
  {
    if w != [] {
      assert w[..n] == area[pos..pos + n];
      assert w[n..] == area[pos + n..pos + |w|];
    }
  }

  /** What is left of the area after a step, and the window on it. */
  datatype Cursor = Cursor(pos: nat, window: seq<byte>)

  lemma Glue(b: seq<byte>, i: nat, j: nat, k: nat)
    requires i <= j <= k <= |b|
    ensures b[i..j] + b[j..k] == b[i..k]
  {
  }

  /** Bytes that may span windows: a value. */
  method TakeValue(area: seq<byte>, bs: nat, at: Cursor, v: nat) returns (r: Result<(seq<byte>, Cursor)>)
    requires bs > 0 && Shows(area, at.pos, at.window) && at.pos <= |area|
    ensures r.Ok? <==> at.pos + v <= |area|
    ensures r.Ok? ==> r.value.0 == area[at.pos..at.pos + v] && r.value.1.pos == at.pos + v && Shows(area, at.pos + v, r.value.1.window)
  {
    hide Shows, Window;
    var pos, xb := at.pos, at.window;
    assert area[at.pos..at.pos] == [];
    if |xb| < v {
      var remaining, buf: seq<byte> := v, [];
      while remaining > 0
        invariant remaining >= 0 && at.pos <= pos <= |area| && pos + remaining == at.pos + v && buf == area[at.pos..pos] && Shows(area, pos, xb)
      {
        var size := |xb|;
        if size == 0 {
          if pos >= |area| {
            return Err(Corrupt);
          }
          xb := Window(area, pos, bs);
          WindowShows(area, pos, bs, 1);
          size := |xb|;
        }
        if remaining < size {
          size := remaining;
        }
        ShowsRest(area, pos, xb, size);
        Glue(area, at.pos, pos, pos + size);
        buf := buf + xb[..size];
        remaining, pos, xb := remaining - size, pos + size, xb[size..];
      }
      assert pos == at.pos + v && buf == area[at.pos..at.pos + v];
      return Ok((buf, Cursor(pos, xb)));
    }
    ShowsRest(area, pos, xb, v);
    return Ok((xb[..v], Cursor(pos + v, xb[v..])));
  }

  /** Bytes that must lie in one window, loaded again from here if they do not. */
  method TakeWindow(area: seq<byte>, bs: nat, at: Cursor, n: nat) returns (r: Result<(seq<byte>, Cursor)>)
    requires n <= bs && Shows(area, at.pos, at.window) && at.pos <= |area|
    ensures r.Ok? <==> at.pos + n <= |area|
    ensures r.Ok? ==> r.value.0 == area[at.pos..at.pos + n] && r.value.1.pos == at.pos + n && Shows(area, at.pos + n, r.value.1.window)
  {
    var xb := at.window;
    if |xb| < n {
      if at.pos >= |area| {
        return Err(Corrupt);
      }
      xb := Window(area, at.pos, bs);
      WindowShows(area, at.pos, bs, n);
      if |xb| < n {
        return Err(Corrupt);
      }
    }
    ShowsRest(area, at.pos, xb, n);
    if n == 0 {
      assert area[at.pos..at.pos] == [];
    }
    return Ok((xb[..n], Cursor(at.pos + n, xb[n..])));
  }

  /** One inline entry through the window. */
  method TakeEntry(env: Env, area: seq<byte>, at: Cursor) returns (r: Result<((Name, seq<byte>), Cursor)>)
    requires env.bs >= 512 && Shows(area, at.pos, at.window) && at.pos < |area|
    ensures r.Ok? <==> EntryAt(env, area, at.pos).Ok?
    ensures r.Ok? ==>
              && r.value.0 == EntryAt(env, area, at.pos).value && at.pos + ENTRY <= |area|
              && r.value.1.pos == at.pos + EntryLen(area, at.pos) && Shows(area, r.value.1.pos, r.value.1.window)
  {
    hide PrefixOf, Shows, Window;
    var head := TakeWindow(area, env.bs, at, ENTRY);
    if head.Err? {
      return Err(Corrupt);
    }
    var h, at1 := head.value.0, head.value.1;
    HeadFields(area, at.pos, h);
    var n, v := h[0], Field(h, 2, 2);
    var prefix := PrefixOf(env, h[1]);
    if prefix.Err? {
      return Err(prefix.error);
    }
    var name := TakeWindow(area, env.bs, at1, n);
    if name.Err? {
      return Err(Corrupt);
    }
    var value := TakeValue(area, env.bs, name.value.1, v);
    if value.Err? {
      return Err(Corrupt);
    }
    return Ok(((prefix.value + name.value.0, value.value.0), value.value.1));
  }

  lemma HeadFields(area: seq<byte>, pos: nat, h: seq<byte>)
    requires pos + ENTRY <= |area| && h == area[pos..pos + ENTRY]
    ensures h[0] == area[pos] && h[1] == area[pos + 1] && Field(h, 2, 2) == Field(area, pos + 2, 2)
  {
    assert h[2..4] == area[pos + 2..pos + 4];
  }

  /** An entry read through one block's window is the entry, if it fits a block; and refused if it does not. */
  lemma WindowEntry(env: Env, at: nat)
    requires env.bs >= ENTRY
    ensures var e, w := EntryAt(env, env.bytes, at), EntryAt(env, Window(env.bytes, at, env.bs), 0);
            if at + ENTRY <= |env.bytes| && EntryLen(env.bytes, at) > env.bs then w.Err? else w == e
  {
    hide PrefixOf, Window, Shows;
    var b, w := env.bytes, Window(env.bytes, at, env.bs);
    WindowShows(b, at, env.bs, ENTRY);
    if at + ENTRY <= |b| {
      WindowIs(b, at, env.bs);
      SubSlice(b, at, |w|, 0, ENTRY);
      SubSlice(b, at, |w|, 2, ENTRY);
      assert w[0] == b[at] && w[1] == b[at + 1] && Field(w, 2, 2) == Field(b, at + 2, 2);
      var n, v := b[at], Field(b, at + 2, 2);
      if ENTRY + n + v <= |w| {
        SubSlice(b, at, |w|, ENTRY, ENTRY + n);
        SubSlice(b, at, |w|, ENTRY + n, ENTRY + n + v);
      }
    }
  }

  lemma WindowIs(b: seq<byte>, at: nat, bs: nat)
    requires at < |b|
    ensures var w := Window(b, at, bs); |w| == Min(bs, |b| - at) && w == b[at..at + |w|]
  {
  }

  /** The i-th shared reference's entry fits one block. */
  predicate SharedFits(env: Env, area: seq<byte>, i: nat) {
    HEADER + 4 * i + 4 <= |area| ==>
      var at := SharedAt(env, area, i);
      at + ENTRY <= |env.bytes| ==> EntryLen(env.bytes, at) <= env.bs
  }

  predicate AllSharedFit(env: Env, area: seq<byte>) {
    |area| >= HEADER ==> forall i :: 0 <= i < area[4] ==> SharedFits(env, area, i)
  }

  /** The shared references through windows: those before i read, the window past them. */
  method LoadShared(env: Env, area: seq<byte>, n: nat) returns (r: Result<(Attrs, seq<byte>)>)
    requires env.bs >= 512 && |area| >= HEADER && HEADER + 4 * n <= |area|
    ensures (forall i :: 0 <= i < n ==> SharedFits(env, area, i)) ==> (r.Ok? <==> Shared(env, area, n).Ok?)
    ensures !(forall i :: 0 <= i < n ==> SharedFits(env, area, i)) ==> r.Err?
    ensures r.Ok? ==> Shared(env, area, n) == Ok(r.value.0) && Shows(area, HEADER + 4 * n, r.value.1)
  {
    hide Shared, EntryAt, Shows, Window, SharedFits;
    var xb := Window(area, 0, env.bs);
    WindowShows(area, 0, env.bs, HEADER);
    ShowsRest(area, 0, xb, HEADER);
    xb := xb[HEADER..];
    var acc: Attrs := map[];
    SharedNone(env, area);
    for i := 0 to n
      invariant Shared(env, area, i) == Ok(acc) && Shows(area, HEADER + 4 * i, xb) && forall k :: 0 <= k < i ==> SharedFits(env, area, k)
    {
      var word := TakeWindow(area, env.bs, Cursor(HEADER + 4 * i, xb), 4);
      assert word.Ok?;
      SharedStep(env, area, i, n);
      WordIs(area, HEADER + 4 * i, word.value.0);
      var at := env.shared + 4 * Field(word.value.0, 0, 4);
      WindowEntry(env, at);
      SharedFitsIs(env, area, i);
      if at >= |env.bytes| {
        PastEnd(env, at);
        return Err(Corrupt);
      }
      var e := ReadEntry(env, Window(env.bytes, at, env.bs), 0);
      if e.Err? || e.value.0 in acc {
        return Err(Corrupt);
      }
      acc := acc[e.value.0 := e.value.1];
      xb := word.value.1.window;
    }
    return Ok((acc, xb));
  }

  lemma WordIs(area: seq<byte>, pos: nat, w: seq<byte>)
    requires pos + 4 <= |area| && w == area[pos..pos + 4]
    ensures Field(w, 0, 4) == Field(area, pos, 4)
  {
    assert w[0..4] == area[pos..pos + 4];
  }

  lemma PastEnd(env: Env, at: nat)
    requires at >= |env.bytes|
    ensures EntryAt(env, env.bytes, at).Err?
  {
  }

  lemma SharedFitsIs(env: Env, area: seq<byte>, i: nat)
    requires HEADER + 4 * i + 4 <= |area|
    ensures var at := SharedAt(env, area, i);
            SharedFits(env, area, i) <==> (at + ENTRY <= |env.bytes| ==> EntryLen(env.bytes, at) <= env.bs)
  {
  }

  /** loadXattrs: the windowed parser gives what the whole buffer says exactly when every shared entry it names fits a block, and refuses otherwise. */
  method LoadWindowed(env: Env, area: seq<byte>) returns (r: Result<Attrs>)
    requires env.bs >= 512
    ensures AllSharedFit(env, area) ==> Agree(r, Parse(env, area))
    ensures !AllSharedFit(env, area) ==> r.Err?
  {
    hide Shared, Inline, EntryAt, Shows, Window, SharedFits;
    if |area| == 0 {
      return Err(Corrupt);
    }
    if |area| < HEADER {
      return Err(Corrupt);
    }
    var n: nat := area[4];
    if HEADER + 4 * n > |area| {
      TooMany(env, area, n);
      return Err(Corrupt);
    }
    var s := LoadShared(env, area, n);
    if s.Err? {
      return Err(Corrupt);
    }
    var acc, at := s.value.0, Cursor(HEADER + 4 * n, s.value.1);
    ghost var want := Inline(env, area, at.pos, acc);
    while at.pos < |area|
      invariant Inline(env, area, at.pos, acc) == want && Shows(area, at.pos, at.window)
      decreases |area| - at.pos
    {
      InlineStep(env, area, at.pos, acc);
      var e := TakeEntry(env, area, at);
      if e.Err? || e.value.0.0 in acc {
        return Err(Corrupt);
      }
      EntryInside(env, area, at.pos);
      acc := acc[e.value.0.0 := e.value.0.1];
      var pos := Round4(e.value.1.pos);
      var pad := pos - e.value.1.pos;
      var xb := e.value.1.window;
      if |xb| < pad {
        NothingShows(area, pos);
        at := Cursor(pos, []);
      } else {
        ShowsRest(area, e.value.1.pos, xb, pad);
        at := Cursor(pos, xb[pad..]);
      }
    }
    InlineEnd(env, area, at.pos, acc);
    return Ok(acc);
  }

  lemma NothingShows(area: seq<byte>, pos: nat)
    ensures Shows(area, pos, [])
  {
  }

  /** More references than the area holds: refused whatever they are. */
  lemma {:induction false} TooMany(env: Env, area: seq<byte>, n: nat)
    requires HEADER + 4 * n > |area| >= HEADER
    ensures Shared(env, area, n).Err?
  {
    hide EntryAt, Add, SharedAt;
    if Shared(env, area, n - 1).Ok? {
    }
  }
}
