/** Memory objects over the page-frame allocator (kernel/src/memory/vmo.rs). */
module VmoObject {
  import opened Common
  import opened Phys
  import opened VmoLayout
  import opened VmoSpec
  import opened VmoCreate

  const MAGIC: nat := 0x564D_4F4D_4147_4341
  const VERSION: nat := 1

  ghost function RamOf(mem: PhysMemory<Frame>): Ram
    reads mem
  {
    Ram(mem.pages, mem.cursor, mem.end)
  }

  ghost predicate MemoryOk(mem: PhysMemory<Frame>)
    reads mem
  {
    mem.Valid() && mem.zero == Zeroed
  }

  /** The allocator has handed out its last frame. */
  ghost predicate Exhausted(mem: PhysMemory<Frame>)
    reads mem
  {
    mem.cursor == 0 || mem.cursor >= mem.end
  }

  /** Every settled frame of `r` is as it was. */
  ghost predicate OnlyFresh(r: Ram, s: Ram) {
    && s.end == r.end && r.cursor <= s.cursor
    && (forall q: nat :: Settled(r, q) ==> q in s.pages && s.pages[q] == r.pages[q])
  }

  /** Some initial part of `buf` was written. */
  ghost predicate PrefixWritten(before: seq<nat>, after: seq<nat>, offset: nat, buf: seq<nat>) {
    exists k: nat :: k <= |buf| && offset + k <= |before| && after == Splice(before, offset, buf[..k])
  }

  lemma GoodFacts(r: Ram, v: Vmo)
    requires Good(r, v)
    ensures MetaOk(r.pages, v.meta, v.n) && 0 < v.n && (v.committed == [] || |v.committed| == v.n)
  {
  }

  lemma GoodSlotAt(r: Ram, v: Vmo, i: nat)
    requires Good(r, v) && i < v.n
    ensures SlotOf(r, v, i).Some? ==> SlotOf(r, v, i).value in r.pages
  {
    assert GoodSlot(r, v, i);
  }

  /** A failed allocation may still move the cursor; nothing else. */
  lemma CursorMoved(r: Ram, v: Vmo, s: Ram)
    requires Good(r, v) && s.pages == r.pages && s.end == r.end && r.cursor <= s.cursor
    ensures Good(s, v) && Reaches(r, v, s, v) && Content(s, v) == Content(r, v) && (Owned(r, v) ==> Owned(s, v))
  {
    forall q: nat | Uses(r, v, q) ensures q in r.pages {
      UsedSettled(r, v, q);
    }
    KeptGood(r, v, s);
  }

  /** Part of one page is the same part of the flat contents. */
  lemma PageInContents(r: Ram, v: Vmo, i: nat, at: nat, len: nat)
    requires MetaOk(r.pages, v.meta, v.n) && i < v.n && at + len <= PAGE_SIZE
    ensures i * PAGE_SIZE + at + len <= v.n * PAGE_SIZE
    ensures Content(r, v)[i * PAGE_SIZE + at..i * PAGE_SIZE + at + len] == PageBytes(r, v, i)[at..at + len]
  {
    hide PageBytes, Slot, MetaOk;
    var a, b := Content(r, v)[i * PAGE_SIZE + at..i * PAGE_SIZE + at + len], PageBytes(r, v, i)[at..at + len];
    forall k | 0 <= k < len ensures a[k] == b[k] {
      PageOfByte(i, at + k, v.n);
      assert a[k] == ByteAt(r, v, i * PAGE_SIZE + (at + k));
    }
  }

  /** The page a position falls in. */
  lemma PositionInPage(cur: nat, size: nat)
    requires cur < size && size % PAGE_SIZE == 0
    ensures cur / PAGE_SIZE < size / PAGE_SIZE && cur == cur / PAGE_SIZE * PAGE_SIZE + cur % PAGE_SIZE
    ensures cur / PAGE_SIZE * PAGE_SIZE + PAGE_SIZE <= size == size / PAGE_SIZE * PAGE_SIZE
    ensures cur / PAGE_SIZE * PAGE_SIZE / PAGE_SIZE == cur / PAGE_SIZE
  {
  }

  /** The step of a successful commit. */
  ghost predicate Commits(r: Ram, v: Vmo, i: nat, pa: nat, s: Ram, w: Vmo) {
    && Good(r, v) && i < |v.committed| && v.committed[i].None? && r.cursor <= pa < r.end
    && MetaOk(Handed(r, pa).pages, v.meta, v.n)
    && s == Entered(Handed(r, pa), v, i, pa) && w == WithPage(v, i, pa)
  }

  lemma CommitsEffect(r: Ram, v: Vmo, i: nat, pa: nat, s: Ram, w: Vmo)
    requires Commits(r, v, i, pa, s, w)
    ensures Good(s, w) && Reaches(r, v, s, w) && OwnedSame(r, v, s, w) && SlotOf(s, w, i) == Some(pa)
    ensures SlotOf(r, v, i).None? ==> Content(s, w) == Content(r, v)
    ensures w.n == v.n && forall j: nat :: j < v.n ==> PageBytes(s, w, j) == if j == i then ZeroPage()
      else PageBytes(r, v, j)
  {
    CommitEffect(r, v, i, pa);
    CommitUnobservableIff(r, v, i, pa);
  }

  /** An owned object stays owned, with the same bytes. */
  ghost predicate OwnedSame(r: Ram, v: Vmo, s: Ram, w: Vmo) {
    Good(r, v) && Good(s, w) && (Owned(r, v) ==> Owned(s, w) && Content(s, w) == Content(r, v))
  }

  ghost predicate OwnedStays(r: Ram, v: Vmo, s: Ram, w: Vmo) {
    Good(r, v) && Good(s, w) && (Owned(r, v) ==> Owned(s, w))
  }

  /** An empty slot means a page the object could own. */
  lemma SliceNeverBorrows(r: Ram, v: Vmo, i: nat)
    requires Good(r, v) && i < v.n && SlotOf(r, v, i).None?
    ensures v.committed != [] && |v.committed| == v.n && v.committed[i].None?
  {
    assert GoodSlot(r, v, i);
  }

  lemma SamePagesSameBytes(r: Ram, v: Vmo, s: Ram)
    requires MetaOk(r.pages, v.meta, v.n) && s.pages == r.pages
    ensures Content(s, v) == Content(r, v) && (Owned(r, v) ==> Owned(s, v))
  {
    forall i: nat | i < v.n ensures SlotOf(s, v, i) == SlotOf(r, v, i) && PageBytes(s, v, i) == PageBytes(r, v, i) {
    }
    SamePages(r, v, s, v);
  }

  lemma StaysRefl(r: Ram, v: Vmo)
    requires Good(r, v)
    ensures OwnedStays(r, v, r, v)
  {
  }

  lemma StaysTrans(r: Ram, v: Vmo, s: Ram, w: Vmo, t: Ram, x: Vmo)
    requires OwnedStays(r, v, s, w) && OwnedStays(s, w, t, x)
    ensures OwnedStays(r, v, t, x)
  {
  }

  /** Writing the next part of `buf` after its first `k` bytes. */
  lemma NextPart(bytes: seq<nat>, offset: nat, buf: seq<nat>, k: nat, len: nat)
    requires k + len <= |buf| && offset + k + len <= |bytes|
    ensures Splice(Splice(bytes, offset, buf[..k]), offset + k, buf[k..k + len])
      == Splice(bytes, offset, buf[..k + len])
  {
    SpliceSplice(bytes, offset, buf[..k], buf[k..k + len]);
    assert buf[..k] + buf[k..k + len] == buf[..k + len];
  }

  /** The part of the page at `cur` that a copy of `left` more bytes takes. */
  method NextChunk(cur: nat, size: nat, left: nat) returns (i: nat, at: nat, len: nat)
    requires cur < size && size % PAGE_SIZE == 0 && left > 0
    ensures i < size / PAGE_SIZE && cur == i * PAGE_SIZE + at && at + len <= PAGE_SIZE
    ensures 0 < len <= left && cur + len <= size
  {
    PositionInPage(cur, size);
    i, at := cur / PAGE_SIZE, cur % PAGE_SIZE;
    var want := Min(PAGE_SIZE - at, left);
    var end := Min(cur + want, size);
    len := end - cur;
  }

  class MemoryObject {
    const mem: PhysMemory<Frame>
    const meta: nat
    const size: nat
    var committed: seq<Option<nat>>

    constructor (mem: PhysMemory<Frame>, meta: nat, size: nat, committed: seq<Option<nat>>)
      ensures this.mem == mem && this.meta == meta && this.size == size && this.committed == committed
    {
      this.mem := mem;
      this.meta := meta;
      this.size := size;
      this.committed := committed;
    }

    ghost function View(): Vmo
      reads this
    {
      Vmo(meta, size / PAGE_SIZE, committed)
    }

    ghost predicate Valid()
      reads this, mem
    {
      MemoryOk(mem) && size % PAGE_SIZE == 0 && Good(RamOf(mem), View())
    }

    /** The object as a flat array of bytes. */
    ghost function Contents(): (c: seq<nat>)
      requires Valid()
      reads this, mem
      ensures |c| == size
    {
      Content(RamOf(mem), View())
    }

    /** Commits the page at `offset` in a zeroed frame unless it is committed already. */
    method CommitPage(offset: nat) returns (r: Result<Option<nat>>)
      requires Valid()
      modifies this, mem
      ensures Valid() && Reaches(old(RamOf(mem)), old(View()), RamOf(mem), View())
      ensures OwnedSame(old(RamOf(mem)), old(View()), RamOf(mem), View())
      ensures offset >= size <==> r == Err(InvalidArgs)
      ensures offset < size && old(committed) == [] <==> r == Err(NotAllowed)
      ensures r == Ok(None) <==>
        offset < size && offset / PAGE_SIZE < |old(committed)| && old(committed)[offset / PAGE_SIZE].Some?
      ensures r == Err(NoMemory) ==> Exhausted(mem)
      ensures r.Err? || r == Ok(None) ==> committed == old(committed) && mem.pages == old(mem.pages)
      ensures r.Err? ==> r.error in {InvalidArgs, NotAllowed, NoMemory}
      ensures r.Ok? && r.value.Some? ==>
        Commits(old(RamOf(mem)), old(View()), offset / PAGE_SIZE, r.value.value, RamOf(mem), View())
    {
      hide Good, Reaches, Entered, PageBytes, Content, Owned, MetaOk, IsFrame, Phys.PhysMemory.Valid;
      ghost var ram, v := RamOf(mem), View();
      GoodFacts(ram, v);
      ReachesRefl(ram, v);
      if offset >= size {
        return Err(InvalidArgs);
      }
      PositionInPage(offset, size);
      var i := offset / PAGE_SIZE;
      if committed == [] {
        return Err(NotAllowed);
      }
      if committed[i].Some? {
        return Ok(None);
      }
      var pa := mem.AllocPage(VmoData);
      if pa.Err? {
        CursorMoved(ram, v, RamOf(mem));
        return Err(NoMemory);
      }
      assert RamOf(mem) == Handed(ram, pa.value);
      CommitEffect(ram, v, i, pa.value);
      EnterPage(i, pa.value);
      committed := committed[i := Some(pa.value)];
      CommitsEffect(ram, v, i, pa.value, RamOf(mem), View());
      return Ok(Some(pa.value));
    }

    /** Writes the slot of page `i` and raises the header's count of committed pages. */
    method EnterPage(i: nat, pa: nat)
      requires mem.Valid() && MetaOk(mem.pages, meta, size / PAGE_SIZE) && i < size / PAGE_SIZE
      modifies mem`pages
      ensures mem.Valid() && RamOf(mem) == Entered(old(RamOf(mem)), old(View()), i, pa)
    {
      hide MetaOk, SlotFrame, SlotWord;
      var n := size / PAGE_SIZE;
      var f := SlotFrame(mem.pages, meta, n, i);
      var k := SlotWord(i);
      PutSlotSlots(mem.pages, meta, n, i, pa);
      MetaPresent(mem.pages, meta, n);
      mem.Store(f, Words(WordsOf(mem.pages[f])[k := 1][k + 1 := pa]));
      var w := WordsOf(mem.pages[meta]);
      mem.Store(meta, Words(w[3 := w[3] + 1][4 := w[4]]));
    }

    /** The frame behind page `i`, if one is committed. */
    method PageSlot(i: nat) returns (pa: Option<nat>)
      requires Valid() && i < size / PAGE_SIZE
      ensures pa == SlotOf(RamOf(mem), View(), i)
      ensures pa.Some? ==> pa.value in mem.pages
    {
      GoodFacts(RamOf(mem), View());
      GoodSlotAt(RamOf(mem), View(), i);
      pa := Slot(mem.pages, meta, size / PAGE_SIZE, i);
    }

    /** The bytes of page `i`. */
    method PageOut(i: nat) returns (page: seq<nat>)
      requires Valid() && i < size / PAGE_SIZE
      ensures |page| == PAGE_SIZE && MetaOk(mem.pages, meta, size / PAGE_SIZE)
        && page == PageBytes(RamOf(mem), View(), i)
    {
      hide Good, Content, MetaOk, Slot;
      GoodFacts(RamOf(mem), View());
      var pa := PageSlot(i);
      page := if pa.Some? then BytesOf(mem.pages[pa.value]) else ZeroPage();
    }

    /** Copies bytes out, page by page, up to the end of the object or of the buffer. */
    method Read(offset: nat, buf: array<nat>) returns (written: nat)
      requires Valid()
      modifies buf
      ensures Valid()
      ensures written == if offset >= size then 0 else Min(buf.Length, size - offset)
      ensures offset < size ==> buf[..written] == Contents()[offset..offset + written]
      ensures buf[written..] == old(buf[..])[written..]
    {
      hide Good, Content, PageBytes, MetaOk, Phys.PhysMemory.Valid;
      if offset >= size {
        return 0;
      }
      written := 0;
      var cur := offset;
      ghost var bytes := Contents()[offset..];
      while written < buf.Length && cur < size
        invariant cur == offset + written <= size && written <= buf.Length
        invariant forall k :: 0 <= k < written ==> buf[k] == bytes[k]
        invariant forall k :: written <= k < buf.Length ==> buf[k] == old(buf[k])
      {
        var i, at, len := NextChunk(cur, size, buf.Length - written);
        var page := PageOut(i);
        PageInContents(RamOf(mem), View(), i, at, len);
        assert page[at..at + len] == bytes[written..written + len];
        CopyOut(page[at..at + len], buf, written);
        written := written + len;
        cur := cur + len;
      }
    }

    /** Stores into page `i`, committing it first if it has no frame. */
    method StoreInPage(i: nat, at: nat, d: seq<nat>) returns (ok: bool)
      requires Valid() && i < size / PAGE_SIZE && at + |d| <= PAGE_SIZE
      modifies this, mem
      ensures Valid() && Reaches(old(RamOf(mem)), old(View()), RamOf(mem), View())
      ensures OwnedStays(old(RamOf(mem)), old(View()), RamOf(mem), View())
      ensures i * PAGE_SIZE + at + |d| <= size
      ensures Contents() == if ok then Splice(old(Contents()), i * PAGE_SIZE + at, d) else old(Contents())
      ensures !ok ==> old(SlotOf(RamOf(mem), View(), i)).None? && Exhausted(mem)
    {
      hide Good, Content, Reaches, Owned, PageBytes, MetaOk, Phys.PhysMemory.Valid, Entered;
      ghost var r0, v0 := RamOf(mem), View();
      GoodFacts(r0, v0);
      PositionInPage(i * PAGE_SIZE, size);
      ReachesRefl(r0, v0);
      var pa := PageSlot(i);
      if pa.None? {
        SliceNeverBorrows(r0, v0, i);
        var c := CommitPage(i * PAGE_SIZE);
        if c.Err? {
          SamePagesSameBytes(r0, v0, RamOf(mem));
          return false;
        }
        CommitsEffect(r0, v0, i, c.value.value, RamOf(mem), View());
        pa := PageSlot(i);
      }
      ghost var r1, v1 := RamOf(mem), View();
      StoreEffect(r1, v1, i, at, d);
      mem.Store(pa.value, Data(Splice(BytesOf(mem.pages[pa.value]), at, d)));
      ReachesTrans(r0, v0, r1, v1, RamOf(mem), View());
      return true;
    }

    /**
     * Copies bytes in, committing pages on the way.  Running out of frames leaves the bytes
     * before the failing page written.
     */
    method Write(offset: nat, buf: seq<nat>) returns (r: Result<nat>)
      requires Valid()
      modifies this, mem
      ensures Valid() && Reaches(old(RamOf(mem)), old(View()), RamOf(mem), View())
      ensures OwnedStays(old(RamOf(mem)), old(View()), RamOf(mem), View())
      ensures r.Ok? ==> r.value == if offset >= size then 0 else Min(|buf|, size - offset)
      ensures r.Ok? && offset < size ==> Contents() == Splice(old(Contents()), offset, buf[..r.value])
      ensures offset >= size ==> Contents() == old(Contents())
      ensures r.Err? ==>
        r == Err(NoMemory) && Exhausted(mem) && offset < size && PrefixWritten(old(Contents()), Contents(), offset, buf)
    {
      hide Good, Content, Reaches, Owned, PageBytes, MetaOk, Phys.PhysMemory.Valid, Splice, OwnedStays;
      ghost var ram, v := RamOf(mem), View();
      ReachesRefl(ram, v);
      StaysRefl(ram, v);
      if offset >= size {
        return Ok(0);
      }
      var written := 0;
      var cur := offset;
      ghost var bytes := Contents();
      SpliceNothing(bytes, offset);
      assert buf[..written] == [];
      while written < |buf| && cur < size
        invariant Valid() && Reaches(ram, v, RamOf(mem), View()) && OwnedStays(ram, v, RamOf(mem), View())
        invariant cur == offset + written <= size && written <= |buf|
        invariant Contents() == Splice(bytes, offset, buf[..written])
      {
        var i, at, len := NextChunk(cur, size, |buf| - written);
        ghost var r1, v1 := RamOf(mem), View();
        var d := buf[written..written + len];
        var ok := StoreInPage(i, at, d);
        ReachesTrans(ram, v, r1, v1, RamOf(mem), View());
        StaysTrans(ram, v, r1, v1, RamOf(mem), View());
        if !ok {
          return Err(NoMemory);
        }
        NextPart(bytes, offset, buf, written, len);
        written := written + len;
        cur := cur + len;
      }
      return Ok(written);
    }
  }

  /** Copies `d` into the buffer at `from`. */
  method CopyOut(d: seq<nat>, buf: array<nat>, from: nat)
    requires from + |d| <= buf.Length
    modifies buf
    ensures forall k :: 0 <= k < buf.Length ==> buf[k] == if from <= k < from + |d| then d[k - from] else old(buf[k])
  {
    forall k | from <= k < from + |d| {
      buf[k] := d[k - from];
    }
  }
}
