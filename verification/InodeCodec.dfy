/** Inodes as writeInode puts them and decodeInode reads them (writer.go, erofs.go). */
module InodeCodec {
  import opened Bytes

  const FLAT_PLAIN: nat := 0
  const FLAT_INLINE: nat := 2
  const CHUNK_BASED: nat := 4

  /** An inode's fields. word is i_u: a start block, a chunk format or a device number. */
  datatype Core = Core(
    extended: bool, layout: nat, xcount: nat, mode: nat, nlink: nat, size: nat, word: nat, uid: nat, gid: nat, mtime: nat, mtimeNs: nat)

  /** inodeFormat. */
  function Format(c: Core): nat {
    2 * c.layout + if c.extended then 1 else 0
  }

  function Front(c: Core): (b: seq<byte>)
    ensures |b| == 6
  {
    LE(Format(c), 2) + LE(c.xcount, 2) + LE(c.mode, 2)
  }

  function CompactRest(c: Core): (b: seq<byte>)
    ensures |b| == 26
  {
    LE(c.nlink, 2) + LE(c.size, 4) + LE(0, 4) + LE(c.word, 4) + LE(0, 4) + LE(c.uid, 2) + LE(c.gid, 2) + Zeros(4)
  }

  function ExtendedRest(c: Core): (b: seq<byte>)
    ensures |b| == 58
  {
    LE(0, 2) + LE(c.size, 8) + LE(c.word, 4) + LE(0, 4) + LE(c.uid, 4) + LE(c.gid, 4) + LE(c.mtime, 8) + LE(c.mtimeNs, 4) + LE(c.nlink, 4)
    + Zeros(16)
  }

  /** writeInode: 32 bytes, or 64. */
  function Encode(c: Core): (b: seq<byte>)
    ensures |b| == if c.extended then 64 else 32
  {
    Front(c) + if c.extended then ExtendedRest(c) else CompactRest(c)
  }

  const MODE_TYPE: nat := 0x1000
  const MODE_DIR: nat := 4
  const NLINK1: nat := 16

  /** What the reader makes of an inode: its fields, the high bits of its start block, and whether the address is that wide. */
  datatype Decoded = Decoded(core: Core, startHi: nat, addr48: bool)

  /** decodeInode, on the bytes at an inode's address; the superblock's build time stands in for a compact inode's. */
  function Decode(b: seq<byte>, buildTime: nat, buildTimeNs: nat): Result<Decoded> {
    if |b| < 32 then Err(Corrupt)
    else
      var format, xcount, mode, nb := Field(b, 0, 2), Field(b, 2, 2), Field(b, 4, 2), Field(b, 6, 2);
      var layout := (format / 2) % 8;
      if format % 2 == 0 then
        var one := mode / MODE_TYPE != MODE_DIR && (format / NLINK1) % 2 == 1;
        Ok(Decoded(
             Core(false, layout, xcount, mode, if one then 1 else nb, Field(b, 8, 4), Field(b, 16, 4), Field(b, 24, 2), Field(b, 26, 2),
                  buildTime + Field(b, 12, 4), buildTimeNs),
             if one then nb else 0, one))
      else if |b| < 64 then Err(Corrupt)
      else
        Ok(Decoded(
             Core(true, layout, xcount, mode, Field(b, 44, 4), Field(b, 8, 8), Field(b, 16, 4), Field(b, 24, 4), Field(b, 28, 4),
                  Field(b, 32, 8), Field(b, 40, 4)),
             nb, true))
  }

  /** The fields fit, and a compact inode's time is the image's. */
  predicate Fits(c: Core, buildTime: nat, buildTimeNs: nat) {
    && c.layout < 8 && c.xcount <= 0xFFFF && c.mode <= 0xFFFF && c.word <= 0xFFFF_FFFF
    && if c.extended then
         && c.size < Width(8) && c.uid <= 0xFFFF_FFFF && c.gid <= 0xFFFF_FFFF && c.mtime < Width(8) && c.mtimeNs <= 0xFFFF_FFFF
         && c.nlink <= 0xFFFF_FFFF
       else
         && c.size <= 0xFFFF_FFFF && c.uid <= 0xFFFF && c.gid <= 0xFFFF && c.nlink <= 0xFFFF
         && c.mtime == buildTime && c.mtimeNs == buildTimeNs
  }

  /** A field k bytes into what an inode's encoding starts with. */
  lemma FieldAt(front: seq<byte>, v: nat, n: nat, rest: seq<byte>)
    requires v < Width(n)
    ensures Field(front + LE(v, n) + rest, |front|, n) == v
  {
    hide LE, Num, Width;
    var b := front + LE(v, n) + rest;
    assert b[|front|..|front| + n] == LE(v, n);
    FieldOf(b, |front|, v, n);
  }

  lemma FrontFields(c: Core, rest: seq<byte>)
    requires c.layout < 8 && c.xcount <= 0xFFFF && c.mode <= 0xFFFF
    ensures var b := Front(c) + rest; Field(b, 0, 2) == Format(c) && Field(b, 2, 2) == c.xcount && Field(b, 4, 2) == c.mode
  {
    hide LE, Num, Width;
    Widths();
    var b := Front(c) + rest;
    var f, x, m := LE(Format(c), 2), LE(c.xcount, 2), LE(c.mode, 2);
    assert b == [] + f + (x + m + rest) == f + x + (m + rest) == (f + x) + m + rest;
    FieldAt([], Format(c), 2, x + m + rest);
    FieldAt(f, c.xcount, 2, m + rest);
    FieldAt(f + x, c.mode, 2, rest);
  }

  lemma CompactFields(front: seq<byte>, c: Core, rest: seq<byte>)
    requires |front| == 6 && c.size <= 0xFFFF_FFFF && c.uid <= 0xFFFF && c.gid <= 0xFFFF && c.nlink <= 0xFFFF && c.word <= 0xFFFF_FFFF
    ensures var b := front + CompactRest(c) + rest;
            && Field(b, 6, 2) == c.nlink && Field(b, 8, 4) == c.size && Field(b, 12, 4) == 0 && Field(b, 16, 4) == c.word
            && Field(b, 24, 2) == c.uid && Field(b, 26, 2) == c.gid
  {
    hide LE, Num, Width;
    Widths();
    var b := front + CompactRest(c) + rest;
    assert b[6..8] == LE(c.nlink, 2);
    assert b[8..12] == LE(c.size, 4);
    assert b[12..16] == LE(0, 4);
    assert b[16..20] == LE(c.word, 4);
    assert b[24..26] == LE(c.uid, 2);
    assert b[26..28] == LE(c.gid, 2);
    FieldOf(b, 6, c.nlink, 2);
    FieldOf(b, 8, c.size, 4);
    FieldOf(b, 12, 0, 4);
    FieldOf(b, 16, c.word, 4);
    FieldOf(b, 24, c.uid, 2);
    FieldOf(b, 26, c.gid, 2);
  }

  lemma ExtendedFields(front: seq<byte>, c: Core, rest: seq<byte>)
    requires |front| == 6 && c.size < Width(8) && c.uid <= 0xFFFF_FFFF && c.gid <= 0xFFFF_FFFF && c.word <= 0xFFFF_FFFF
    requires c.mtime < Width(8) && c.mtimeNs <= 0xFFFF_FFFF && c.nlink <= 0xFFFF_FFFF
    ensures var b := front + ExtendedRest(c) + rest;
            && Field(b, 6, 2) == 0 && Field(b, 8, 8) == c.size && Field(b, 16, 4) == c.word && Field(b, 24, 4) == c.uid && Field(b, 28, 4) == c.gid
            && Field(b, 32, 8) == c.mtime && Field(b, 40, 4) == c.mtimeNs && Field(b, 44, 4) == c.nlink
  {
    hide LE, Num, Width;
    Widths();
    var b := front + ExtendedRest(c) + rest;
    assert b[6..8] == LE(0, 2);
    assert b[8..16] == LE(c.size, 8);
    assert b[16..20] == LE(c.word, 4);
    assert b[24..28] == LE(c.uid, 4);
    assert b[28..32] == LE(c.gid, 4);
    assert b[32..40] == LE(c.mtime, 8);
    assert b[40..44] == LE(c.mtimeNs, 4);
    assert b[44..48] == LE(c.nlink, 4);
    FieldOf(b, 6, 0, 2);
    FieldOf(b, 8, c.size, 8);
    FieldOf(b, 16, c.word, 4);
    FieldOf(b, 24, c.uid, 4);
    FieldOf(b, 28, c.gid, 4);
    FieldOf(b, 32, c.mtime, 8);
    FieldOf(b, 40, c.mtimeNs, 4);
    FieldOf(b, 44, c.nlink, 4);
  }

  /** An inode whose fields fit reads back as it was. */
  lemma RoundTrip(c: Core, rest: seq<byte>, buildTime: nat, buildTimeNs: nat)
    requires Fits(c, buildTime, buildTimeNs)
    ensures Decode(Encode(c) + rest, buildTime, buildTimeNs) == Ok(Decoded(c, 0, c.extended))
  {
    hide LE, Num, Width, Front, CompactRest, ExtendedRest, Field;
    var b := Encode(c) + rest;
    assert |b| >= if c.extended then 64 else 32;
    if c.extended {
      assert b == Front(c) + ExtendedRest(c) + rest == Front(c) + (ExtendedRest(c) + rest);
      FrontFields(c, ExtendedRest(c) + rest);
      ExtendedFields(Front(c), c, rest);
    } else {
      assert b == Front(c) + CompactRest(c) + rest == Front(c) + (CompactRest(c) + rest);
      FrontFields(c, CompactRest(c) + rest);
      CompactFields(Front(c), c, rest);
    }
  }
}
