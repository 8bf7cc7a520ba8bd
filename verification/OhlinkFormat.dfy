/**
 * Header and entry records of the OHLINK executable format, little-endian
 * (tools/ohlink-toolchain/crates/ohlink-format/src/header.rs and entry.rs).
 */
module OhlinkFormat {
  import opened Crc32

  type Bytes = seq<byte>

  function Zeros(n: nat): (r: Bytes)
    ensures |r| == n
  {
    seq(n, _ => 0)
  }

  // ----- little-endian numbers -----

  function Pow256(n: nat): (p: nat)
    ensures p > 0
  {
    if n == 0 then 1 else 256 * Pow256(n - 1)
  }

  /** `v` in `n` bytes, lowest first. */
  function Le(v: nat, n: nat): (b: Bytes)
    ensures |b| == n
  {
    if n == 0 then [] else [v % 256] + Le(v / 256, n - 1)
  }

  function Num(b: Bytes): nat {
    if b == [] then 0 else b[0] + 256 * Num(b[1..])
  }

  lemma {:induction false} NumOfLe(v: nat, n: nat)
    requires v < Pow256(n)
    ensures Num(Le(v, n)) == v
  {
    if n > 0 {
      NumOfLe(v / 256, n - 1);
      assert Le(v, n)[1..] == Le(v / 256, n - 1);
    }
  }

  function B0(c: bv32): bv8 {
    (c & 0xFF) as bv8
  }

  function B1(c: bv32): bv8 {
    ((c >> 8) & 0xFF) as bv8
  }

  function B2(c: bv32): bv8 {
    ((c >> 16) & 0xFF) as bv8
  }

  function B3(c: bv32): bv8 {
    ((c >> 24) & 0xFF) as bv8
  }

  function Join(a: bv32, b: bv32, c: bv32, d: bv32): bv32 {
    a | (b << 8) | (c << 16) | (d << 24)
  }

  function ByteValue(x: bv8): byte {
    x as int
  }

  /** A 32-bit register in four bytes. */
  function RegisterBytes(c: bv32): (b: Bytes)
    ensures |b| == 4
  {
    [ByteValue(B0(c)), ByteValue(B1(c)), ByteValue(B2(c)), ByteValue(B3(c))]
  }

  function Register(b: Bytes): bv32
    requires |b| == 4
  {
    Join(Widen(b[0]), Widen(b[1]), Widen(b[2]), Widen(b[3]))
  }

  lemma WidenValue(x: bv8)
    ensures Widen(ByteValue(x)) == x as bv32
  {
    ValueDecides(ByteValue(x), x);
  }

  lemma JoinSplit(c: bv32)
    ensures Join(B0(c) as bv32, B1(c) as bv32, B2(c) as bv32, B3(c) as bv32) == c
  {
  }

  lemma RegisterRoundTrip(c: bv32)
    ensures Register(RegisterBytes(c)) == c
  {
    hide Widen, ByteValue, Join, B0, B1, B2, B3;
    WidenValue(B0(c));
    WidenValue(B1(c));
    WidenValue(B2(c));
    WidenValue(B3(c));
    JoinSplit(c);
  }

  lemma SplitJoin(a: bv32, b: bv32, c: bv32, d: bv32)
    requires a <= 0xFF && b <= 0xFF && c <= 0xFF && d <= 0xFF
    ensures var r := Join(a, b, c, d);
      r & 0xFF == a && (r >> 8) & 0xFF == b && (r >> 16) & 0xFF == c && (r >> 24) & 0xFF == d
  {
  }

  lemma RegisterInjective(a: Bytes, b: Bytes)
    requires |a| == 4 && |b| == 4 && Register(a) == Register(b)
    ensures a == b
  {
    hide Widen, Join;
    forall i | 0 <= i < 4 ensures Widen(a[i]) <= 0xFF && Widen(b[i]) <= 0xFF {
      WidenSmall(a[i]);
      WidenSmall(b[i]);
    }
    SplitJoin(Widen(a[0]), Widen(a[1]), Widen(a[2]), Widen(a[3]));
    SplitJoin(Widen(b[0]), Widen(b[1]), Widen(b[2]), Widen(b[3]));
    WidenInjective(a[0], b[0]);
    WidenInjective(a[1], b[1]);
    WidenInjective(a[2], b[2]);
    WidenInjective(a[3], b[3]);
  }

  lemma PowValues()
    ensures Pow256(1) == 0x100 && Pow256(2) == 0x1_0000 && Pow256(4) == 0x1_0000_0000
      && Pow256(8) == 0x1_0000_0000_0000_0000
  {
    assert Pow256(1) == 256 * Pow256(0);
    assert Pow256(2) == 256 * Pow256(1);
    assert Pow256(3) == 256 * Pow256(2);
    assert Pow256(4) == 256 * Pow256(3);
    assert Pow256(5) == 256 * Pow256(4);
    assert Pow256(6) == 256 * Pow256(5);
    assert Pow256(7) == 256 * Pow256(6);
    assert Pow256(8) == 256 * Pow256(7);
  }

  // ----- records: parts one after the other -----

  function Flat(parts: seq<Bytes>): Bytes {
    if parts == [] then [] else Flat(parts[..|parts| - 1]) + parts[|parts| - 1]
  }

  /** Where part `k` starts. */
  function Start(parts: seq<Bytes>, k: nat): nat
    requires k <= |parts|
  {
    if k == 0 then 0 else Start(parts, k - 1) + |parts[k - 1]|
  }

  lemma {:induction false} FlatPrefix(parts: seq<Bytes>, k: nat)
    requires k <= |parts|
    ensures Flat(parts[..k]) <= Flat(parts) && |Flat(parts[..k])| == Start(parts, k)
    decreases |parts|
  {
    if k == |parts| {
      assert parts[..k] == parts;
      StartIsLength(parts);
    } else {
      var front := parts[..|parts| - 1];
      FlatPrefix(front, k);
      assert front[..k] == parts[..k];
      StartSame(parts, front, k);
    }
  }

  lemma {:induction false} StartSame(a: seq<Bytes>, b: seq<Bytes>, k: nat)
    requires k <= |a| && k <= |b| && forall i :: 0 <= i < k ==> a[i] == b[i]
    ensures Start(a, k) == Start(b, k)
    decreases k
  {
    if k > 0 {
      StartSame(a, b, k - 1);
    }
  }

  lemma {:induction false} StartIsLength(parts: seq<Bytes>)
    ensures |Flat(parts)| == Start(parts, |parts|)
    decreases |parts|
  {
    if parts != [] {
      var front := parts[..|parts| - 1];
      StartIsLength(front);
      StartSame(parts, front, |front|);
    }
  }

  /** Part `k` stands at its place, whatever follows the record. */
  lemma PartAt(parts: seq<Bytes>, k: nat, tail: Bytes, at: nat)
    requires k < |parts| && at == Start(parts, k)
    ensures at + |parts[k]| <= |Flat(parts)| && (Flat(parts) + tail)[at..at + |parts[k]|] == parts[k]
    ensures Start(parts, k + 1) == at + |parts[k]|
  {
    FlatPrefix(parts, k);
    FlatPrefix(parts, k + 1);
    var a, b := Flat(parts[..k]), Flat(parts[..k + 1]);
    assert parts[..k + 1][..k] == parts[..k];
    assert b == a + parts[k];
    assert (Flat(parts) + tail)[at..at + |parts[k]|] == b[at..at + |parts[k]|];
  }

  // ----- header -----

  const MAGIC: nat := 0x4F484C4B
  const HEADER_SIZE: nat := 64
  const ENTRY_SIZE: nat := 60

  datatype Header = Header(magic: nat, major: nat, minor: nat, endian: nat, arch: nat, fileType: nat, headerCount: nat,
                           headerOffset: nat, dataOffset: nat, fileSize: nat, checksum: bv32, flags: nat,
                             entryPoint: nat, reserved: Bytes)

  /** Every field fits its width. */
  predicate HeaderFits(h: Header) {
    && h.magic < Pow256(4) && h.major < Pow256(2) && h.minor < Pow256(2) && h.endian < Pow256(1) && h.arch < Pow256(1)
    && h.fileType < Pow256(2) && h.headerCount < Pow256(2) && h.headerOffset < Pow256(4) && h.dataOffset < Pow256(4)
    && h.fileSize < Pow256(8) && h.flags < Pow256(4) && h.entryPoint < Pow256(8) && |h.reserved| == 18
  }

  function HeaderParts(h: Header): seq<Bytes> {
    [Le(h.magic, 4), Le(h.major, 2), Le(h.minor, 2), Le(h.endian, 1), Le(h.arch, 1), Le(h.fileType, 2),
      Le(h.headerCount, 2),
     Le(h.headerOffset, 4), Le(h.dataOffset, 4), Le(h.fileSize, 8), RegisterBytes(h.checksum), Le(h.flags, 4),
     Le(h.entryPoint, 8), h.reserved]
  }

  function HeaderBytes(h: Header): Bytes {
    Flat(HeaderParts(h))
  }

  /** The fields at their offsets, before any check. */
  function HeaderFields(b: Bytes): Header
    requires |b| >= HEADER_SIZE
  {
    Header(Num(b[0..4]), Num(b[4..6]), Num(b[6..8]), Num(b[8..9]), Num(b[9..10]), Num(b[10..12]), Num(b[12..14]),
           Num(b[14..18]), Num(b[18..22]), Num(b[22..30]), Register(b[30..34]), Num(b[34..38]), Num(b[38..46]),
             b[46..64])
  }

  lemma HeaderSlices(h: Header, tail: Bytes)
    requires |h.reserved| == 18
    ensures var b := HeaderBytes(h) + tail;
      && |HeaderBytes(h)| == HEADER_SIZE
      && b[0..4] == Le(h.magic, 4) && b[4..6] == Le(h.major, 2) && b[6..8] == Le(h.minor, 2)
      && b[8..9] == Le(h.endian, 1)
      && b[9..10] == Le(h.arch, 1) && b[10..12] == Le(h.fileType, 2) && b[12..14] == Le(h.headerCount, 2)
      && b[14..18] == Le(h.headerOffset, 4) && b[18..22] == Le(h.dataOffset, 4) && b[22..30] == Le(h.fileSize, 8)
      && b[30..34] == RegisterBytes(h.checksum) && b[34..38] == Le(h.flags, 4) && b[38..46] == Le(h.entryPoint, 8)
      && b[46..64] == h.reserved
  {
    hide Le, RegisterBytes, Flat, Start;
    var p := HeaderParts(h);
    FlatPrefix(p, 0);
    assert p[..0] == [];
    StartZero(p);
    PartAt(p, 0, tail, 0);
    PartAt(p, 1, tail, 4);
    PartAt(p, 2, tail, 6);
    PartAt(p, 3, tail, 8);
    PartAt(p, 4, tail, 9);
    PartAt(p, 5, tail, 10);
    PartAt(p, 6, tail, 12);
    PartAt(p, 7, tail, 14);
    PartAt(p, 8, tail, 18);
    PartAt(p, 9, tail, 22);
    PartAt(p, 10, tail, 30);
    PartAt(p, 11, tail, 34);
    PartAt(p, 12, tail, 38);
    PartAt(p, 13, tail, 46);
    StartIsLength(p);
  }

  lemma StartZero(p: seq<Bytes>)
    ensures Start(p, 0) == 0
  {
  }

  /** A header is read back from its bytes, whatever follows them. */
  lemma HeaderRoundTrip(h: Header, tail: Bytes)
    requires HeaderFits(h)
    ensures |HeaderBytes(h)| == HEADER_SIZE && HeaderFields(HeaderBytes(h) + tail) == h
  {
    hide Le, RegisterBytes, Flat, Start, Pow256, Num, Register, HeaderBytes;
    HeaderSlices(h, tail);
    NumOfLe(h.magic, 4);
    NumOfLe(h.major, 2);
    NumOfLe(h.minor, 2);
    NumOfLe(h.endian, 1);
    NumOfLe(h.arch, 1);
    NumOfLe(h.fileType, 2);
    NumOfLe(h.headerCount, 2);
    NumOfLe(h.headerOffset, 4);
    NumOfLe(h.dataOffset, 4);
    NumOfLe(h.fileSize, 8);
    RegisterRoundTrip(h.checksum);
    NumOfLe(h.flags, 4);
    NumOfLe(h.entryPoint, 8);
  }

  // ----- entries -----

  datatype Entry = Entry(ty: nat, flags: nat, fileOffset: nat, virtualAddress: nat, fileSize: nat, memSize: nat,
    alignment: nat,
                         link: nat, info: nat, nameOffset: nat)

  predicate EntryFits(e: Entry) {
    && e.ty < Pow256(4) && e.flags < Pow256(4) && e.fileOffset < Pow256(8) && e.virtualAddress < Pow256(8)
    && e.fileSize < Pow256(8)
    && e.memSize < Pow256(8) && e.alignment < Pow256(8) && e.link < Pow256(4) && e.info < Pow256(4)
    && e.nameOffset < Pow256(4)
  }

  function EntryParts(e: Entry): seq<Bytes> {
    [Le(e.ty, 4), Le(e.flags, 4), Le(e.fileOffset, 8), Le(e.virtualAddress, 8), Le(e.fileSize, 8), Le(e.memSize, 8),
     Le(e.alignment, 8), Le(e.link, 4), Le(e.info, 4), Le(e.nameOffset, 4)]
  }

  function EntryBytes(e: Entry): Bytes {
    Flat(EntryParts(e))
  }

  function EntryFields(b: Bytes): Entry
    requires |b| >= ENTRY_SIZE
  {
    Entry(Num(b[0..4]), Num(b[4..8]), Num(b[8..16]), Num(b[16..24]), Num(b[24..32]), Num(b[32..40]), Num(b[40..48]),
          Num(b[48..52]), Num(b[52..56]), Num(b[56..60]))
  }

  lemma EntrySlices(e: Entry, tail: Bytes)
    ensures var b := EntryBytes(e) + tail;
      && |EntryBytes(e)| == ENTRY_SIZE
      && b[0..4] == Le(e.ty, 4) && b[4..8] == Le(e.flags, 4) && b[8..16] == Le(e.fileOffset, 8)
      && b[16..24] == Le(e.virtualAddress, 8)
      && b[24..32] == Le(e.fileSize, 8) && b[32..40] == Le(e.memSize, 8) && b[40..48] == Le(e.alignment, 8)
      && b[48..52] == Le(e.link, 4) && b[52..56] == Le(e.info, 4) && b[56..60] == Le(e.nameOffset, 4)
  {
    hide Le, Flat, Start;
    var p := EntryParts(e);
    StartZero(p);
    PartAt(p, 0, tail, 0);
    PartAt(p, 1, tail, 4);
    PartAt(p, 2, tail, 8);
    PartAt(p, 3, tail, 16);
    PartAt(p, 4, tail, 24);
    PartAt(p, 5, tail, 32);
    PartAt(p, 6, tail, 40);
    PartAt(p, 7, tail, 48);
    PartAt(p, 8, tail, 52);
    PartAt(p, 9, tail, 56);
    StartIsLength(p);
  }

  /** An entry is read back from its bytes. */
  lemma EntryRoundTrip(e: Entry)
    requires EntryFits(e)
    ensures |EntryBytes(e)| == ENTRY_SIZE && EntryFields(EntryBytes(e)) == e
  {
    hide Le, Flat, Start, Pow256, Num, EntryBytes;
    EntrySlices(e, []);
    assert EntryBytes(e) + [] == EntryBytes(e);
    NumOfLe(e.ty, 4);
    NumOfLe(e.flags, 4);
    NumOfLe(e.fileOffset, 8);
    NumOfLe(e.virtualAddress, 8);
    NumOfLe(e.fileSize, 8);
    NumOfLe(e.memSize, 8);
    NumOfLe(e.alignment, 8);
    NumOfLe(e.link, 4);
    NumOfLe(e.info, 4);
    NumOfLe(e.nameOffset, 4);
  }
}
