/**
 * What an OHLINK image says, field by field and byte by byte
 * (tools/ohlink-toolchain/crates/ohlink-format/src/builder.rs, parser.rs, header.rs and entry.rs).
 */
module OhlinkContents {
  import opened Arith
  import opened Crc32
  import opened OhlinkFormat
  import opened OhlinkImage
  import opened Ohlink

  /** Byte `i` of a number is its base-256 digit of weight `256^i`. */
  lemma {:induction false} LeDigit(v: nat, n: nat, i: nat)
    requires i < n
    ensures Le(v, n)[i] == v / Pow256(i) % 256
    decreases n
  {
    if i > 0 {
      LeDigit(v / 256, n - 1, i - 1);
      DivTwice(v, Pow256(i - 1));
    }
  }

  lemma DivTwice(v: nat, p: nat)
    requires p > 0
    ensures v / 256 / p == v / (256 * p)
  {
    var q, r := v / 256 / p, v / 256 % p;
    DivUnique(v, 256 * p, q, 256 * r + v % 256);
  }

  lemma NumOfTwo(b: Bytes)
    requires |b| == 2
    ensures Num(b) == b[0] as int + 0x100 * b[1] as int
  {
    assert b[1..][1..] == [];
    assert Num(b[1..]) == b[1] + 256 * Num(b[1..][1..]);
  }

  lemma NumOfFour(b: Bytes)
    requires |b| == 4
    ensures Num(b) == b[0] as int + 0x100 * b[1] as int + 0x1_0000 * b[2] as int + 0x100_0000 * b[3] as int
  {
    NumOfTwo(b[2..]);
    assert b[1..][1..] == b[2..];
    assert Num(b[1..]) == b[1] + 256 * Num(b[1..][1..]);
  }

  /**
   * A file is accepted exactly when it has a header, starts with the magic bytes and major version 1,
   * is as long as its length field says, and carries the checksum of that many bytes with the
   * checksum field as zero.
   */
  lemma AcceptedIff(data: Bytes)
    ensures Parse(data).Good? <==>
      && |data| >= 64
      && data[..6] == [0x4B, 0x4C, 0x48, 0x4F, 1, 0]
      && Num(data[22..30]) <= |data|
      && Register(data[30..34]) == Checksum(Masked(data[..Num(data[22..30])]))
  {
    hide Checksum, Masked, Num, Register;
    if |data| >= 64 {
      NumOfFour(data[0..4]);
      NumOfTwo(data[4..6]);
    }
  }

  /** The first of these conditions that fails names the error. */
  lemma RefusedFor(data: Bytes)
    requires Parse(data).Bad?
    ensures Parse(data).error
      == if |data| < 64 then BufferTooSmall
         else if data[..4] != [0x4B, 0x4C, 0x48, 0x4F] then InvalidMagic
         else if data[4..6] != [1, 0] then InvalidVersion
         else if |data| < Num(data[22..30]) then BufferTooSmall
         else ChecksumMismatch(Register(data[30..34]), Checksum(Masked(data[..Num(data[22..30])])))
  {
    hide Checksum, Masked, Num, Register;
    if |data| >= 64 {
      NumOfFour(data[0..4]);
      NumOfTwo(data[4..6]);
    }
  }

  /** The header that comes back is the one the caller asked for. */
  lemma HeaderComesBack(p: Params, segs: seq<Segment>, tail: Bytes)
    requires Buildable(p, segs)
    ensures Parse(Image(p, segs) + tail).Good?
    ensures var h := Parse(Image(p, segs) + tail).value;
      && h.magic == 0x4F48_4C4B && h.major == 1 && h.minor == 1 && h.endian == 0
      && h.arch == p.arch && h.fileType == p.fileType && h.flags == p.flags && h.entryPoint == p.entryPoint
      && h.headerCount == |segs| && h.headerOffset == 64 && h.dataOffset == 64 + 60 * |segs|
      && h.fileSize == |Image(p, segs)| && |h.reserved| == 18 && (forall k :: 0 <= k < 18 ==> h.reserved[k] == 0)
  {
    hide Image, Body, Parse, Buildable, Checksum, Rest, EntryTable;
    ParseImage(p, segs, tail);
    var front := ImageParts(p, segs, tail);
  }

  /** Entry `i` that comes back is segment `i` as the caller added it, and so are its bytes. */
  lemma EntryComesBack(p: Params, segs: seq<Segment>, tail: Bytes, i: nat)
    requires Buildable(p, segs) && i < |segs|
    ensures var data := Image(p, segs) + tail;
      && Parse(data).Good? && GetEntry(data, Parse(data).value, i).Good?
      && var e := GetEntry(data, Parse(data).value, i).value;
         && e.ty == segs[i].ty && e.flags == segs[i].flags && e.virtualAddress == segs[i].virtualAddress
         && e.memSize == segs[i].memSize && e.alignment == segs[i].alignment && e.fileSize == |segs[i].data|
         && e.link == 0 && e.info == 0 && e.nameOffset == 0
         && e.fileOffset >= 64 + 60 * |segs| && e.fileOffset + e.fileSize <= |Image(p, segs)|
         && data[e.fileOffset..e.fileOffset + |segs[i].data|] == segs[i].data
         && GetSegmentData(data, e) == Good(segs[i].data)
  {
    hide Image, Body, Parse, Buildable, GetEntry, Offset;
    RoundTrip(p, segs, tail, i);
    PayloadInImage(p, segs, tail, i);
  }

  /** The image starts with the magic bytes and version 1.1, and its entry point stands in bytes 38 to 45. */
  lemma FirstBytes(p: Params, segs: seq<Segment>)
    requires Buildable(p, segs)
    ensures |Image(p, segs)| >= 64 && Image(p, segs)[..8] == [0x4B, 0x4C, 0x48, 0x4F, 1, 0, 1, 0]
    ensures forall k :: 0 <= k < 8 ==> Image(p, segs)[38 + k] == p.entryPoint / Pow256(k) % 256
  {
    hide Body, Checksum, Buildable, Rest, Le, HeaderBytes, RegisterBytes;
    var h := HeaderOf(p, segs, Checksum(Unsigned(p, segs)));
    var image := Image(p, segs);
    HeaderSlices(h, Rest(segs));
    MagicBytes();
    assert image[..8] == image[0..4] + image[4..6] + image[6..8];
    forall k | 0 <= k < 8 ensures image[38 + k] == p.entryPoint / Pow256(k) % 256 {
      LeDigit(p.entryPoint, 8, k);
      assert image[38 + k] == image[38..46][k];
    }
  }

  lemma MagicBytes()
    ensures Le(MAGIC, 4) == [0x4B, 0x4C, 0x48, 0x4F] && Le(1, 2) == [1, 0]
  {
    assert Le(0x4F, 1) == [0x4F];
    assert Le(0x4F48, 2) == [0x48, 0x4F];
    assert Le(0x4F_484C, 3) == [0x4C, 0x48, 0x4F];
  }

  /** Payloads are packed: less than an alignment between two, zeros there, and nothing behind the last one. */
  lemma PayloadsPacked(base: nat, segs: seq<Segment>, i: nat)
    requires i < |segs|
    ensures var start := if i == 0 then base else Offset(base, segs, i - 1) + |segs[i - 1].data|;
      && start <= Offset(base, segs, i) < start + Gap(segs[i].alignment)
      && Offset(base, segs, i) <= base + |Body(base, segs)|
      && Body(base, segs)[start - base..Offset(base, segs, i) - base] == Zeros(Offset(base, segs, i) - start)
    ensures i == |segs| - 1 ==> base + |Body(base, segs)| == Offset(base, segs, i) + |segs[i].data|
  {
    hide Body, Offset;
    var start := if i == 0 then base else Offset(base, segs, i - 1) + |segs[i - 1].data|;
    if i > 0 {
      BodyStep(base, segs, i - 1);
    } else {
      EmptyFront(base, segs);
    }
    BodyStep(base, segs, i);
    OffsetClose(base, segs, i);
    BodyPrefix(base, segs, i + 1, |segs|);
    assert segs[..|segs|] == segs;
    var part := Body(base, segs[..i + 1]);
    var low, high := start - base, Offset(base, segs, i) - base;
    assert part[low..high] == Zeros(high - low);
    assert Body(base, segs)[low..high] == part[low..high];
  }

  lemma EmptyFront(base: nat, segs: seq<Segment>)
    ensures Body(base, segs[..0]) == []
  {
  }

  lemma OffsetClose(base: nat, segs: seq<Segment>, i: nat)
    requires i < |segs|
    ensures Offset(base, segs, i) < base + |Body(base, segs[..i])| + Gap(segs[i].alignment)
  {
  }
}
