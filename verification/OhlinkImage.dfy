/**
 * Building and parsing OHLINK images
 * (tools/ohlink-toolchain/crates/ohlink-format/src/builder.rs and parser.rs).
 */
module OhlinkImage {
  import opened Arith
  import opened Crc32
  import opened OhlinkFormat

  // ----- layout -----

  datatype Segment = Segment(ty: nat, flags: nat, data: Bytes, memSize: nat, virtualAddress: nat, alignment: nat)

  datatype Params = Params(arch: nat, fileType: nat, flags: nat, entryPoint: nat)

  predicate PowerOfTwo(a: nat) {
    a == 1 || (a > 1 && a % 2 == 0 && PowerOfTwo(a / 2))
  }

  /** Bitwise and. */
  function And(x: nat, m: nat): (r: nat)
    ensures r <= m
  {
    if m == 0 then 0 else (x % 2) * (m % 2) + 2 * And(x / 2, m / 2)
  }

  /** `(x + a - 1) & !(a - 1)`, whatever `a`: never below `x`, and less than `a` above it. */
  function AlignUp(x: nat, a: nat): (r: nat)
    requires a > 0
    ensures x <= r < x + a
  {
    x + a - 1 - And(x + a - 1, a - 1)
  }

  /** Masking with one less than a power of two is the remainder. */
  lemma {:induction false} MaskIsRemainder(x: nat, a: nat)
    requires PowerOfTwo(a)
    ensures And(x, a - 1) == x % a
    decreases a
  {
    if a > 1 {
      MaskIsRemainder(x / 2, a / 2);
      HalfRemainder(x, a / 2);
      AndHalves(x, a / 2);
      assert 2 * (a / 2) == a;
    }
  }

  lemma AndHalves(x: nat, h: nat)
    requires h > 0
    ensures And(x, 2 * h - 1) == x % 2 + 2 * And(x / 2, h - 1)
  {
    assert (2 * h - 1) / 2 == h - 1 && (2 * h - 1) % 2 == 1;
  }

  lemma HalfRemainder(x: nat, h: nat)
    requires h > 0
    ensures x % (2 * h) == x % 2 + 2 * (x / 2 % h)
  {
    Halves(x, h, x / 2 / h, x / 2 % h, x % 2);
  }

  lemma Halves(x: nat, h: nat, q: nat, r: nat, b: nat)
    requires h > 0 && r < h && b < 2 && x == 2 * (q * h + r) + b
    ensures x % (2 * h) == 2 * r + b
  {
    assert 2 * (q * h) == q * (2 * h);
    DivUnique(x, 2 * h, q, 2 * r + b);
  }

  /** A number and its predecessor share a bit unless the number is a power of two. */
  lemma {:induction false} SharesBit(a: nat)
    requires a > 0
    ensures And(a, a - 1) == 0 <==> PowerOfTwo(a)
    ensures And(a, a - 1) < a
    decreases a
  {
    if a % 2 == 0 {
      assert a / 2 - 1 == (a - 1) / 2;
      SharesBit(a / 2);
    } else {
      assert (a - 1) / 2 == a / 2;
      AndSelf(a / 2);
    }
  }

  lemma {:induction false} AndSelf(x: nat)
    ensures And(x, x) == x
  {
    if x > 0 {
      AndSelf(x / 2);
    }
  }

  /** Every position is brought to a multiple of `a` exactly when `a` is a power of two. */
  lemma AlignUpIff(a: nat)
    requires a > 0
    ensures (forall x: nat :: AlignUp(x, a) % a == 0) <==> PowerOfTwo(a)
  {
    hide AlignUp, PowerOfTwo;
    if PowerOfTwo(a) {
      forall x: nat ensures AlignUp(x, a) % a == 0 {
        Multiple(x, a);
      }
    } else {
      NoMultiple(a);
    }
  }

  lemma Multiple(x: nat, a: nat)
    requires a > 0 && PowerOfTwo(a)
    ensures AlignUp(x, a) % a == 0
  {
    hide PowerOfTwo, And;
    MaskIsRemainder(x + a - 1, a);
    RoundedDown(x + a - 1, a);
  }

  lemma RoundedDown(y: nat, a: nat)
    requires a > 0
    ensures (y - y % a) % a == 0
  {
    Remainder(y, a, y / a, y % a);
  }

  lemma Remainder(y: nat, a: nat, q: nat, m: nat)
    requires m < a && y == q * a + m
    ensures (y - m) % a == 0
  {
    DivUnique(q * a, a, q, 0);
  }

  /** Otherwise position 1 is not. */
  lemma NoMultiple(a: nat)
    requires a > 0 && !PowerOfTwo(a)
    ensures AlignUp(1, a) % a != 0
  {
    SharesBit(a);
    var r := AlignUp(1, a);
    assert r == a - And(a, a - 1) && 0 < r < a;
    DivUnique(r, a, 0, r);
  }

  function Gap(alignment: nat): nat {
    if alignment > 0 then alignment else 16
  }

  /** The payload area: each payload preceded by the padding that aligns it. */
  function Body(base: nat, segs: seq<Segment>): Bytes
    decreases |segs|, 0
  {
    if segs == [] then []
    else
      var front, last := segs[..|segs| - 1], segs[|segs| - 1];
      var cur := base + |Body(base, front)|;
      Body(base, front) + Zeros(AlignUp(cur, Gap(last.alignment)) - cur) + last.data
  }

  /** File offset of payload `i`. */
  function Offset(base: nat, segs: seq<Segment>, i: nat): nat
    requires i < |segs|
  {
    AlignUp(base + |Body(base, segs[..i])|, Gap(segs[i].alignment))
  }

  lemma BodyStep(base: nat, segs: seq<Segment>, i: nat)
    requires i < |segs|
    ensures var cur := base + |Body(base, segs[..i])|;
      && cur <= Offset(base, segs, i)
      && Body(base, segs[..i + 1]) == Body(base, segs[..i]) + Zeros(Offset(base, segs, i) - cur) + segs[i].data
      && base + |Body(base, segs[..i + 1])| == Offset(base, segs, i) + |segs[i].data|
  {
    assert segs[..i + 1][..i] == segs[..i];
  }

  lemma {:induction false} BodyPrefix(base: nat, segs: seq<Segment>, k: nat, n: nat)
    requires k <= n <= |segs|
    ensures Body(base, segs[..k]) <= Body(base, segs[..n])
    decreases n - k
  {
    hide Body, Offset;
    if k < n {
      BodyPrefix(base, segs, k, n - 1);
      BodyStep(base, segs, n - 1);
    }
  }

  /** Payloads lie behind the table and do not overlap. */
  lemma PayloadsApart(base: nat, segs: seq<Segment>, i: nat, j: nat)
    requires i < j < |segs|
    ensures base <= Offset(base, segs, i) && Offset(base, segs, i) + |segs[i].data| <= Offset(base, segs, j)
  {
    BodyStep(base, segs, i);
    BodyStep(base, segs, j);
    BodyPrefix(base, segs, i + 1, j);
  }

  /** A payload whose alignment is a power of two is aligned. */
  lemma PayloadAligned(base: nat, segs: seq<Segment>, i: nat)
    requires i < |segs| && PowerOfTwo(Gap(segs[i].alignment))
    ensures Offset(base, segs, i) % Gap(segs[i].alignment) == 0
  {
    Multiple(base + |Body(base, segs[..i])|, Gap(segs[i].alignment));
  }

  lemma PayloadAt(base: nat, segs: seq<Segment>, i: nat)
    requires i < |segs|
    ensures var at := Offset(base, segs, i) - base;
      && 0 <= at && at + |segs[i].data| <= |Body(base, segs)|
      && Body(base, segs)[at..at + |segs[i].data|] == segs[i].data
  {
    hide Body, Offset;
    BodyStep(base, segs, i);
    BodyPrefix(base, segs, i + 1, |segs|);
    assert segs[..|segs|] == segs;
    var at := Offset(base, segs, i) - base;
    var part := Body(base, segs[..i + 1]);
    assert part[at..at + |segs[i].data|] == segs[i].data;
    SliceOfPrefix(part, Body(base, segs), at, |segs[i].data|);
  }

  lemma SliceOfPrefix(part: Bytes, whole: Bytes, at: nat, n: nat)
    requires part <= whole && at + n <= |part|
    ensures whole[at..at + n] == part[at..at + n]
  {
  }

  // ----- the image -----

  function EntryOf(s: Segment, offset: nat): Entry {
    Entry(s.ty, s.flags, offset, s.virtualAddress, |s.data|, s.memSize, s.alignment, 0, 0, 0)
  }

  /** Start of the payload area. */
  function Base(n: nat): nat {
    HEADER_SIZE + n * ENTRY_SIZE
  }

  function EntryTable(segs: seq<Segment>): (t: seq<Bytes>)
    ensures |t| == |segs|
  {
    seq(|segs|, i requires 0 <= i < |segs| => EntryBytes(EntryOf(segs[i], Offset(Base(|segs|), segs, i))))
  }

  /** Everything after the header. */
  function Rest(segs: seq<Segment>): Bytes
  {
    Flat(EntryTable(segs)) + Body(Base(|segs|), segs)
  }

  function HeaderOf(p: Params, segs: seq<Segment>, checksum: bv32): Header
  {
    Header(MAGIC, 1, 1, 0, p.arch, p.fileType, |segs|, HEADER_SIZE, Base(|segs|),
      Base(|segs|) + |Body(Base(|segs|), segs)|,
           checksum, p.flags, p.entryPoint, Zeros(18))
  }

  /** The image with a zero checksum field, over which the checksum is taken. */
  function Unsigned(p: Params, segs: seq<Segment>): Bytes
  {
    HeaderBytes(HeaderOf(p, segs, 0)) + Rest(segs)
  }

  function Image(p: Params, segs: seq<Segment>): Bytes
  {
    HeaderBytes(HeaderOf(p, segs, Checksum(Unsigned(p, segs)))) + Rest(segs)
  }

  /** What the fields' widths demand of the caller. */
  predicate Buildable(p: Params, segs: seq<Segment>) {
    && |segs| < 0x1_0000
    && p.arch < 0x100 && p.fileType < 0x1_0000 && p.flags < 0x1_0000_0000 && p.entryPoint < 0x1_0000_0000_0000_0000
    && (forall i :: 0 <= i < |segs| ==> SegmentFits(segs[i]))
    && Base(|segs|) + |Body(Base(|segs|), segs)| < 0x1_0000_0000_0000_0000
  }

  predicate SegmentFits(s: Segment) {
    && s.ty < 0x1_0000_0000 && s.flags < 0x1_0000_0000 && s.memSize < 0x1_0000_0000_0000_0000
    && s.virtualAddress < 0x1_0000_0000_0000_0000 && s.alignment < 0x1_0000_0000_0000_0000
  }

  lemma HeaderOfFits(p: Params, segs: seq<Segment>, c: bv32)
    requires Buildable(p, segs)
    ensures HeaderFits(HeaderOf(p, segs, c))
  {
    PowValues();
  }

  lemma {:induction false} TableStart(t: seq<Bytes>, k: nat)
    requires k <= |t| && forall i :: 0 <= i < |t| ==> |t[i]| == ENTRY_SIZE
    ensures Start(t, k) == k * ENTRY_SIZE
    decreases k
  {
    if k > 0 {
      TableStart(t, k - 1);
    }
  }

  lemma TableSizes(segs: seq<Segment>)
    ensures forall i :: 0 <= i < |segs| ==> |EntryTable(segs)[i]| == ENTRY_SIZE
    ensures |Flat(EntryTable(segs))| == |segs| * ENTRY_SIZE
  {
    hide EntryBytes;
    forall i | 0 <= i < |segs| ensures |EntryTable(segs)[i]| == ENTRY_SIZE {
      EntrySlices(EntryOf(segs[i], Offset(Base(|segs|), segs, i)), []);
    }
    TableStart(EntryTable(segs), |segs|);
    StartIsLength(EntryTable(segs));
  }

  lemma ImageSize(p: Params, segs: seq<Segment>, c: bv32)
    ensures |HeaderBytes(HeaderOf(p, segs, c))| == HEADER_SIZE
    ensures HEADER_SIZE + |Rest(segs)| == HeaderOf(p, segs, c).fileSize
  {
    hide EntryTable, HeaderBytes, Flat, Body;
    HeaderSlices(HeaderOf(p, segs, c), []);
    TableSizes(segs);
  }

  /** Entry `i` stands in the image at its place in the table. */
  lemma EntryInImage(p: Params, segs: seq<Segment>, tail: Bytes, i: nat)
    requires i < |segs|
    ensures var at := HEADER_SIZE + i * ENTRY_SIZE;
      && at + ENTRY_SIZE <= |Image(p, segs)|
      && (Image(p, segs) + tail)[at..at + ENTRY_SIZE] == EntryBytes(EntryOf(segs[i], Offset(Base(|segs|), segs, i)))
  {
    hide HeaderBytes, Flat, Body, EntryBytes, Checksum, Offset, Start;
    var t := EntryTable(segs);
    var head := HeaderBytes(HeaderOf(p, segs, Checksum(Unsigned(p, segs))));
    ImageSize(p, segs, Checksum(Unsigned(p, segs)));
    TableSizes(segs);
    TableStart(t, i);
    var after := Body(Base(|segs|), segs) + tail;
    PartAt(t, i, after, i * ENTRY_SIZE);
    SliceBehind(head, Flat(t) + after, i * ENTRY_SIZE, ENTRY_SIZE);
    assert Image(p, segs) + tail == head + (Flat(t) + after);
  }

  lemma SliceBehind(a: Bytes, b: Bytes, at: nat, n: nat)
    requires at + n <= |b|
    ensures (a + b)[|a| + at..|a| + at + n] == b[at..at + n]
  {
  }

  /** An image is its header and table, up to the base of the payloads, and then the payloads. */
  lemma ImageParts(p: Params, segs: seq<Segment>, tail: Bytes) returns (front: Bytes)
    ensures |front| == Base(|segs|) && |Image(p, segs)| == Base(|segs|) + |Body(Base(|segs|), segs)|
    ensures Image(p, segs) + tail == front + (Body(Base(|segs|), segs) + tail)
  {
    hide HeaderBytes, Flat, Body, EntryBytes, Checksum, EntryTable;
    var head := HeaderBytes(HeaderOf(p, segs, Checksum(Unsigned(p, segs))));
    ImageSize(p, segs, Checksum(Unsigned(p, segs)));
    TableSizes(segs);
    front := head + Flat(EntryTable(segs));
  }

  /** Payload `i` stands in the image at its offset. */
  lemma PayloadInImage(p: Params, segs: seq<Segment>, tail: Bytes, i: nat)
    requires i < |segs|
    ensures var at := Offset(Base(|segs|), segs, i);
      && at + |segs[i].data| <= |Image(p, segs)|
      && (Image(p, segs) + tail)[at..at + |segs[i].data|] == segs[i].data
  {
    hide Image, Body, Offset;
    var base := Base(|segs|);
    var front := ImageParts(p, segs, tail);
    PayloadAt(base, segs, i);
    var body := Body(base, segs);
    SliceBehind(front, body + tail, Offset(base, segs, i) - base, |segs[i].data|);
    SliceWithin(body, tail, Offset(base, segs, i) - base, |segs[i].data|);
  }

  lemma SliceWithin(a: Bytes, b: Bytes, at: nat, n: nat)
    requires at + n <= |a|
    ensures (a + b)[at..at + n] == a[at..at + n]
  {
  }
}
