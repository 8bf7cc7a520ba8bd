/**
 * The OHLINK parser, its round trip with the builder's images, and what the checksum rejects
 * (tools/ohlink-toolchain/crates/ohlink-format/src/parser.rs and builder.rs).
 */
module Ohlink {
  import opened Crc32
  import opened OhlinkFormat
  import opened OhlinkImage

  datatype FormatError = BufferTooSmall | InvalidMagic | InvalidVersion
                       | ChecksumMismatch(expected: bv32, calculated: bv32) | InvalidEntryIndex

  datatype Parsed<+T> = Good(value: T) | Bad(error: FormatError)

  // ----- parsing -----

  function HeaderFromBytes(b: Bytes): Parsed<Header> {
    if |b| < HEADER_SIZE then Bad(BufferTooSmall)
    else
      var h := HeaderFields(b);
      if h.magic != MAGIC then Bad(InvalidMagic)
      else if h.major != 1 then Bad(InvalidVersion)
      else Good(h)
  }

  /** The bytes as checksummed: the checksum field itself counts as zero. */
  function Masked(b: Bytes): (m: Bytes)
    ensures |m| == |b|
  {
    seq(|b|, i requires 0 <= i < |b| => if 30 <= i < 34 then 0 else b[i])
  }

  /** Header check, size check, checksum check. */
  function Parse(data: Bytes): Parsed<Header> {
    match HeaderFromBytes(data)
    case Bad(e) => Bad(e)
    case Good(h) =>
      if |data| < h.fileSize then Bad(BufferTooSmall)
      else
        var c := Checksum(Masked(data[..h.fileSize]));
        if h.checksum != c then Bad(ChecksumMismatch(h.checksum, c)) else Good(h)
  }

  /** The parser's constructor, with its checksum loop. */
  method NewParser(data: Bytes) returns (r: Parsed<Header>)
    ensures r == Parse(data)
  {
    hide HeaderFields, Checksum, Masked;
    if |data| < HEADER_SIZE {
      return Bad(BufferTooSmall);
    }
    var parsed := HeaderFromBytes(data);
    if parsed.Bad? {
      return Bad(parsed.error);
    }
    var h := parsed.value;
    if |data| < h.fileSize {
      return Bad(BufferTooSmall);
    }
    var crc := MaskedChecksum(data, h.fileSize);
    if h.checksum != crc {
      return Bad(ChecksumMismatch(h.checksum, crc));
    }
    return Good(h);
  }

  /** The parser's checksum loop over the first `limit` bytes. */
  method MaskedChecksum(data: Bytes, limit: nat) returns (crc: bv32)
    requires limit <= |data|
    ensures crc == Checksum(Masked(data[..limit]))
  {
    hide TableByte, BitwiseByte;
    ghost var m := Masked(data[..limit]);
    crc := 0xFFFF_FFFF;
    for i := 0 to limit
      invariant crc == Bitwise(0xFFFF_FFFF, m[..i])
    {
      var b: byte := if 30 <= i < 34 then 0 else data[i];
      assert m[..i + 1] == m[..i] + [b];
      TableByteIsBitwise(crc, b);
      crc := TableByte(crc, b);
    }
    assert m[..limit] == m;
    crc := !crc;
  }

  function GetEntry(data: Bytes, h: Header, index: nat): Parsed<Entry> {
    var start := h.headerOffset + index * ENTRY_SIZE;
    if index >= h.headerCount then Bad(InvalidEntryIndex)
    else if start + ENTRY_SIZE > |data| then Bad(BufferTooSmall)
    else Good(EntryFields(data[start..start + ENTRY_SIZE]))
  }

  function GetSegmentData(data: Bytes, e: Entry): Parsed<Bytes> {
    if e.fileOffset + e.fileSize > |data| then Bad(BufferTooSmall)
    else Good(data[e.fileOffset..e.fileOffset + e.fileSize])
  }

  // ----- round trip -----

  /** Header bytes differ only in the checksum field when the checksum does. */
  lemma ChecksumField(h: Header, c: bv32, d: bv32, i: nat)
    requires |h.reserved| == 18 && i < HEADER_SIZE
    ensures |HeaderBytes(h.(checksum := c))| == HEADER_SIZE == |HeaderBytes(h.(checksum := d))|
    ensures !(30 <= i < 34) ==> HeaderBytes(h.(checksum := c))[i] == HeaderBytes(h.(checksum := d))[i]
  {
    hide Flat, Le, RegisterBytes, Start;
    var p, q := HeaderParts(h.(checksum := c)), HeaderParts(h.(checksum := d));
    HeaderSlices(h.(checksum := c), []);
    HeaderSlices(h.(checksum := d), []);
    var a, b := HeaderBytes(h.(checksum := c)), HeaderBytes(h.(checksum := d));
    assert a + [] == a && b + [] == b;
    if i < 30 {
      FlatPrefix(p, 10);
      FlatPrefix(q, 10);
      assert p[..10] == q[..10];
      HeaderStart(h.(checksum := c));
      assert a[..30] == Flat(p[..10]) && b[..30] == Flat(q[..10]);
      assert a[i] == a[..30][i] && b[i] == b[..30][i];
    } else if i >= 34 {
      TailField(a, b, 34, 38, i);
      TailField(a, b, 38, 46, i);
      TailField(a, b, 46, 64, i);
    }
  }

  lemma TailField(a: Bytes, b: Bytes, low: nat, high: nat, i: nat)
    requires |a| == |b| && low <= high <= |a| && a[low..high] == b[low..high]
    ensures low <= i < high ==> a[i] == b[i]
  {
    if low <= i < high {
      assert a[i] == a[low..high][i - low];
    }
  }

  lemma HeaderStart(h: Header)
    requires |h.reserved| == 18
    ensures Start(HeaderParts(h), 10) == 30
  {
    hide Le, RegisterBytes, Flat, Start;
    var p := HeaderParts(h);
    StartZero(p);
    PartAt(p, 0, [], 0);
    PartAt(p, 1, [], 4);
    PartAt(p, 2, [], 6);
    PartAt(p, 3, [], 8);
    PartAt(p, 4, [], 9);
    PartAt(p, 5, [], 10);
    PartAt(p, 6, [], 12);
    PartAt(p, 7, [], 14);
    PartAt(p, 8, [], 18);
    PartAt(p, 9, [], 22);
  }

  lemma ZeroField()
    ensures RegisterBytes(0) == [0, 0, 0, 0]
  {
    assert ByteValue(0) == 0;
    assert B0(0) == 0 && B1(0) == 0 && B2(0) == 0 && B3(0) == 0;
  }

  /** Zeroing the checksum field of an image gives back what was checksummed. */
  lemma MaskedImage(p: Params, segs: seq<Segment>, tail: Bytes)
    ensures var n := HeaderOf(p, segs, 0).fileSize;
      n == |Image(p, segs)| && Masked((Image(p, segs) + tail)[..n]) == Unsigned(p, segs)
  {
    hide HeaderBytes, Rest, Checksum, Body, RegisterBytes;
    var c := Checksum(Unsigned(p, segs));
    ImageSize(p, segs, c);
    ImageSize(p, segs, 0);
    var h := HeaderOf(p, segs, 0);
    var image, plain := Image(p, segs), Unsigned(p, segs);
    assert (image + tail)[..|image|] == image;
    var m := Masked(image);
    var zero := HeaderBytes(h);
    assert HeaderOf(p, segs, c) == h.(checksum := c) && h == h.(checksum := 0);
    forall i | 0 <= i < |plain| ensures m[i] == plain[i] {
      if i < HEADER_SIZE {
        ChecksumField(h, c, 0, i);
        if 30 <= i < 34 {
          ZeroInField(h, i);
        }
      }
    }
  }

  lemma ZeroInField(h: Header, i: nat)
    requires |h.reserved| == 18 && h.checksum == 0 && 30 <= i < 34
    ensures |HeaderBytes(h)| == HEADER_SIZE && HeaderBytes(h)[i] == 0
  {
    hide HeaderBytes, Le;
    HeaderSlices(h, []);
    ZeroField();
    var b := HeaderBytes(h);
    assert b + [] == b;
    assert b[i] == b[30..34][i - 30];
  }

  /** Parsing an image followed by anything succeeds and yields its header. */
  lemma ParseImage(p: Params, segs: seq<Segment>, tail: Bytes)
    requires Buildable(p, segs)
    ensures Parse(Image(p, segs) + tail) == Good(HeaderOf(p, segs, Checksum(Unsigned(p, segs))))
  {
    hide HeaderBytes, Rest, Checksum, Body, Masked, HeaderFields, HeaderFits, Unsigned, Buildable;
    var c := Checksum(Unsigned(p, segs));
    var h := HeaderOf(p, segs, c);
    HeaderOfFits(p, segs, c);
    HeaderRoundTrip(h, Rest(segs) + tail);
    assert Image(p, segs) + tail == HeaderBytes(h) + (Rest(segs) + tail);
    MaskedImage(p, segs, tail);
    ImageSize(p, segs, c);
  }

  /**
   * The round trip: every entry and every payload comes back unchanged, aligned where its alignment
   * is a power of two, whatever bytes follow the image.
   */
  lemma RoundTrip(p: Params, segs: seq<Segment>, tail: Bytes, i: nat)
    requires Buildable(p, segs) && i < |segs|
    ensures var data := Image(p, segs) + tail;
      && Parse(data).Good? && Parse(data).value.headerCount == |segs|
      && var e := EntryOf(segs[i], Offset(Base(|segs|), segs, i));
         && GetEntry(data, Parse(data).value, i) == Good(e)
         && GetSegmentData(data, e) == Good(segs[i].data)
         && Base(|segs|) <= e.fileOffset && (PowerOfTwo(Gap(segs[i].alignment)) ==>
           e.fileOffset % Gap(segs[i].alignment) == 0)
  {
    hide Image, HeaderBytes, Rest, Checksum, Body, Parse, EntryFields, EntryFits, Unsigned, EntryBytes;
    ParseImage(p, segs, tail);
    EntryInImage(p, segs, tail, i);
    PayloadInImage(p, segs, tail, i);
    EntryOfFits(p, segs, i);
    if PowerOfTwo(Gap(segs[i].alignment)) {
      PayloadAligned(Base(|segs|), segs, i);
    }
    EntryRoundTrip(EntryOf(segs[i], Offset(Base(|segs|), segs, i)));
  }

  lemma EntryOfFits(p: Params, segs: seq<Segment>, i: nat)
    requires Buildable(p, segs) && i < |segs|
    ensures EntryFits(EntryOf(segs[i], Offset(Base(|segs|), segs, i)))
  {
    hide Body, Offset, Image;
    PowValues();
    PayloadInImage(p, segs, [], i);
    assert SegmentFits(segs[i]);
    ImageSize(p, segs, Checksum(Unsigned(p, segs)));
    MaskedImage(p, segs, []);
  }

  /** An index past the entries is refused. */
  lemma NoFurtherEntries(p: Params, segs: seq<Segment>, tail: Bytes, i: nat)
    requires Buildable(p, segs) && i >= |segs|
    ensures Parse(Image(p, segs) + tail).Good?
      && GetEntry(Image(p, segs) + tail, Parse(Image(p, segs) + tail).value, i) == Bad(InvalidEntryIndex)
  {
    hide Image, HeaderBytes, Rest, Checksum, Body, Parse, Unsigned;
    ParseImage(p, segs, tail);
  }

  // ----- what the checksum rejects -----

  lemma MaskedUpdate(s: Bytes, i: nat, b: byte)
    requires i < |s|
    ensures Masked(s[i := b]) == if 30 <= i < 34 then Masked(s) else Masked(s)[i := b]
    ensures !(30 <= i < 34) ==> Masked(s)[i] == s[i]
  {
  }

  /**
   * A file the parser accepts is rejected after any change of exactly one byte of it, outside the
   * eight bytes that say how long it is.
   */
  lemma OneByteRejected(data: Bytes, i: nat, b: byte)
    requires Parse(data).Good? && i < Parse(data).value.fileSize <= |data| && b != data[i] && !(22 <= i < 30)
    ensures Parse(data[i := b]).Bad?
  {
    hide Checksum, Masked, Num, Register;
    var h := Parse(data).value;
    var other := data[i := b];
    if HeaderFromBytes(other).Good? {
      var k := HeaderFromBytes(other).value;
      SizeField(data, i, b);
      assert k.fileSize == h.fileSize;
      assert other[..h.fileSize] == data[..h.fileSize][i := b];
      MaskedUpdate(data[..h.fileSize], i, b);
      if 30 <= i < 34 {
        ChecksumFieldDiffers(data, i, b);
      } else {
        ChecksumFieldSame(data, i, b);
        OneByteChangesChecksum(Masked(data[..h.fileSize]), i, b);
      }
    }
  }

  lemma SizeField(data: Bytes, i: nat, b: byte)
    requires |data| >= HEADER_SIZE && i < |data| && !(22 <= i < 30)
    ensures data[i := b][22..30] == data[22..30]
  {
  }

  lemma ChecksumFieldSame(data: Bytes, i: nat, b: byte)
    requires |data| >= HEADER_SIZE && i < |data| && !(30 <= i < 34)
    ensures data[i := b][30..34] == data[30..34]
  {
  }

  lemma ChecksumFieldDiffers(data: Bytes, i: nat, b: byte)
    requires |data| >= HEADER_SIZE && 30 <= i < 34 && b != data[i]
    ensures Register(data[i := b][30..34]) != Register(data[30..34])
  {
    var x, y := data[i := b][30..34], data[30..34];
    assert x[i - 30] == b && y[i - 30] == data[i];
    if Register(x) == Register(y) {
      RegisterInjective(x, y);
    }
  }

  /** So any one byte of a built image after the header may not change. */
  lemma AlteredImageRejected(p: Params, segs: seq<Segment>, image: Bytes, tail: Bytes, i: nat, b: byte)
    requires Buildable(p, segs) && image == Image(p, segs) && HEADER_SIZE <= i < |image| && b != image[i]
    ensures Parse(image[i := b] + tail).Bad?
  {
    hide Checksum, Masked, Num, Register, Image, Parse, Body, Buildable;
    ParseImage(p, segs, tail);
    MaskedImage(p, segs, tail);
    OneByteRejected(image + tail, i, b);
    assert (image + tail)[i := b] == image[i := b] + tail;
  }
}
