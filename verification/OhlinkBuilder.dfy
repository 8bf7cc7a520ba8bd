/** The OHLINK builder (tools/ohlink-toolchain/crates/ohlink-format/src/builder.rs). */
module OhlinkBuilder {
  import opened Crc32
  import opened OhlinkFormat
  import opened OhlinkImage
  import opened Ohlink

  function SegmentOf(e: Entry, data: Bytes): Segment {
    Segment(e.ty, e.flags, data, e.memSize, e.virtualAddress, e.alignment)
  }

  /** `d` copied over `buf` at `at`. */
  function Patch(buf: Bytes, at: nat, d: Bytes): (r: Bytes)
    requires at + |d| <= |buf|
    ensures |r| == |buf|
  {
    buf[..at] + d + buf[at + |d|..]
  }

  lemma PatchFirst(a: Bytes, z: Bytes, c: Bytes, d: Bytes)
    requires |d| <= |z|
    ensures Patch(a + z + c, |a|, d) == a + d + z[|d|..] + c
  {
  }

  /** The header written over the start of the zeroed front. */
  lemma HeadPatched(head: Bytes, n: nat, body: Bytes)
    requires |head| == HEADER_SIZE
    ensures Patch(Zeros(Base(n)) + body, 0, head) == head + Zeros(n * ENTRY_SIZE) + body
  {
    var z := Zeros(Base(n));
    assert z + body == [] + z + body;
    PatchFirst([], z, body, head);
    assert z[HEADER_SIZE..] == Zeros(n * ENTRY_SIZE);
    assert [] + head == head;
  }

  /** Writing the checksum field of a header. */
  lemma PatchChecksum(h: Header, rest: Bytes, c: bv32)
    requires |h.reserved| == 18
    ensures |HeaderBytes(h)| == HEADER_SIZE
    ensures Patch(HeaderBytes(h) + rest, 30, RegisterBytes(c)) == HeaderBytes(h.(checksum := c)) + rest
  {
    hide HeaderBytes, RegisterBytes, Le;
    HeaderSlices(h, []);
    HeaderSlices(h.(checksum := c), []);
    var a, b := HeaderBytes(h), HeaderBytes(h.(checksum := c));
    assert b + [] == b;
    var p := Patch(a + rest, 30, RegisterBytes(c));
    assert h == h.(checksum := h.checksum);
    forall i | 0 <= i < |p| ensures p[i] == (b + rest)[i] {
      if i < HEADER_SIZE {
        ChecksumField(h, h.checksum, c, i);
        if 30 <= i < 34 {
          assert b[i] == b[30..34][i - 30];
        }
      }
    }
  }

  class Builder {
    const params: Params
    var entries: seq<Entry>
    var sections: seq<Bytes>

    constructor (params: Params)
      ensures this.params == params && entries == [] && sections == []
    {
      this.params := params;
      entries, sections := [], [];
    }

    predicate Valid()
      reads this
    {
      && |entries| == |sections|
      && (forall i :: 0 <= i < |entries| ==> entries[i] == EntryOf(SegmentOf(entries[i], sections[i]), 0))
    }

    ghost function Segments(): (s: seq<Segment>)
      requires Valid()
      reads this
      ensures |s| == |entries|
    {
      seq(|entries|, i requires 0 <= i < |entries| reads this requires Valid() => SegmentOf(entries[i], sections[i]))
    }

    /** Appends a segment; its index is the count so far as a 16-bit number. */
    method AddSegment(s: Segment) returns (index: nat)
      requires Valid()
      modifies this
      ensures Valid() && Segments() == old(Segments()) + [s] && index == old(|entries|) % 0x1_0000
    {
      index := |entries| % 0x1_0000;
      entries := entries + [EntryOf(s, 0)];
      sections := sections + [s.data];
    }

    /** Lays out the payloads, then patches header, entry table and checksum in. */
    method Build() returns (image: Bytes)
      requires Valid()
      modifies this
      ensures image == Image(params, old(Segments()))
    {
      hide HeaderBytes, Body, Checksum, Rest, Patch, Zeros, Flat, EntryTable;
      ghost var segs := Segments();
      var n := |entries|;
      var h, buf := LayOut();
      ghost var body := Body(Base(n), segs);
      ImageSize(params, segs, 0);
      HeadPatched(HeaderBytes(h), n, body);
      buf := Patch(buf, 0, HeaderBytes(h));
      buf := PatchEntries(buf, HeaderBytes(h), segs);
      RestIs(segs);
      assert buf == HeaderBytes(h) + Rest(segs);
      image := Sign(buf, h, Rest(segs));
    }

    /** Zeroes the checksum field, takes the checksum and writes it in. */
    method Sign(start: Bytes, ghost h: Header, ghost rest: Bytes) returns (image: Bytes)
      requires |h.reserved| == 18 && h.checksum == 0 && |HeaderBytes(h)| == HEADER_SIZE
        && start == HeaderBytes(h) + rest
      ensures image == HeaderBytes(h.(checksum := Checksum(start))) + rest
    {
      hide HeaderBytes, Checksum, RegisterBytes;
      PatchChecksum(h, rest, 0);
      ZeroField();
      var buf := Patch(start, 30, [0, 0, 0, 0]);
      var crc := Crc32Ieee(buf);
      PatchChecksum(h, rest, crc);
      image := Patch(buf, 30, RegisterBytes(crc));
    }

    /** The payload loop: pads, appends, and records every offset. */
    method LayOut() returns (h: Header, buf: Bytes)
      requires Valid()
      modifies this
      ensures sections == old(sections) && |entries| == old(|entries|)
      ensures forall i :: 0 <= i < |entries| ==>
        entries[i] == EntryOf(old(Segments())[i], Offset(Base(|entries|), old(Segments()), i))
      ensures buf == Zeros(Base(|entries|)) + Body(Base(|entries|), old(Segments()))
      ensures h == HeaderOf(params, old(Segments()), 0)
    {
      hide Body, Offset;
      ghost var segs := Segments();
      var n := |entries|;
      var base := Base(n);
      var cur := base;
      buf := Zeros(base);
      EmptyBody(base);
      assert segs[..0] == [];
      for i := 0 to n
        invariant |entries| == n && sections == old(sections)
        invariant forall j :: 0 <= j < i ==> entries[j] == EntryOf(segs[j], Offset(base, segs, j))
        invariant forall j :: i <= j < n ==> entries[j] == old(entries)[j]
        invariant cur == base + |Body(base, segs[..i])| && buf == Zeros(base) + Body(base, segs[..i])
      {
        BodyStep(base, segs, i);
        OffsetIs(base, segs, i);
        var aligned := AlignUp(cur, Gap(entries[i].alignment));
        if aligned > cur {
          buf := buf + Zeros(aligned - cur);
        }
        entries := entries[i := entries[i].(fileOffset := aligned)];
        buf := buf + sections[i];
        cur := aligned + |sections[i]|;
      }
      assert segs[..n] == segs;
      h := Header(MAGIC, 1, 1, 0, params.arch, params.fileType, n, HEADER_SIZE, base, |buf|, 0, params.flags,
        params.entryPoint, Zeros(18));
    }

    /** The entry table loop. */
    method PatchEntries(start: Bytes, head: Bytes, ghost segs: seq<Segment>) returns (buf: Bytes)
      requires |segs| == |entries| && |head| == HEADER_SIZE
      requires forall i :: 0 <= i < |entries| ==> entries[i] == EntryOf(segs[i], Offset(Base(|segs|), segs, i))
      requires start == head + Zeros(|segs| * ENTRY_SIZE) + Body(Base(|segs|), segs)
      ensures buf == head + Flat(EntryTable(segs)) + Body(Base(|segs|), segs)
    {
      hide Body, Offset, EntryBytes, Flat;
      ghost var table, body := EntryTable(segs), Body(Base(|segs|), segs);
      var n := |entries|;
      buf := start;
      TableSizes(segs);
      EmptyFlat(table);
      assert head + Zeros(n * ENTRY_SIZE) + body == head + Flat(table[..0]) + Zeros((n - 0) * ENTRY_SIZE) + body;
      for i := 0 to n
        invariant |Flat(table[..i])| == i * ENTRY_SIZE
        invariant buf == head + Flat(table[..i]) + Zeros((n - i) * ENTRY_SIZE) + body
      {
        var bytes := EntryBytes(entries[i]);
        var at := HEADER_SIZE + i * ENTRY_SIZE;
        assert bytes == table[i];
        TableStep(head, table, body, i);
        buf := Patch(buf, at, bytes);
      }
      assert table[..n] == table;
      assert Zeros(0) == [];
      assert buf == head + Flat(table) + body;
    }
  }

  lemma EmptyBody(base: nat)
    ensures Body(base, []) == []
  {
  }

  lemma OffsetIs(base: nat, segs: seq<Segment>, i: nat)
    requires i < |segs|
    ensures Offset(base, segs, i) == AlignUp(base + |Body(base, segs[..i])|, Gap(segs[i].alignment))
  {
  }

  lemma EmptyFlat(t: seq<Bytes>)
    ensures Flat(t[..0]) == []
  {
  }

  lemma RestIs(segs: seq<Segment>)
    ensures Rest(segs) == Flat(EntryTable(segs)) + Body(Base(|segs|), segs)
  {
  }

  /** Writing entry `i` over the zeros after the first `i` entries. */
  lemma TableStep(head: Bytes, t: seq<Bytes>, body: Bytes, i: nat)
    requires i < |t| && |t[i]| == ENTRY_SIZE && |Flat(t[..i])| == i * ENTRY_SIZE
    ensures var buf := head + Flat(t[..i]) + Zeros((|t| - i) * ENTRY_SIZE) + body;
      && |head| + i * ENTRY_SIZE + ENTRY_SIZE <= |buf|
      && Patch(buf, |head| + i * ENTRY_SIZE, t[i])
        == head + Flat(t[..i + 1]) + Zeros((|t| - (i + 1)) * ENTRY_SIZE) + body
    ensures |Flat(t[..i + 1])| == (i + 1) * ENTRY_SIZE
  {
    assert t[..i + 1][..i] == t[..i];
    var z := Zeros((|t| - i) * ENTRY_SIZE);
    assert z[ENTRY_SIZE..] == Zeros((|t| - (i + 1)) * ENTRY_SIZE);
    PatchFirst(head + Flat(t[..i]), z, body, t[i]);
    assert head + Flat(t[..i]) + t[i] == head + Flat(t[..i + 1]);
  }
}
