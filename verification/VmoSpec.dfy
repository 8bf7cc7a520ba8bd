/**
 * A memory object as a flat array of bytes (kernel/src/memory/vmo.rs): what committing a page
 * and storing into one do to the bytes, and which frames of memory they can reach.
 */
module VmoSpec {
  import opened Common
  import opened Arith
  import opened VmoLayout

  /** Physical memory: the frames, and the range the allocator still hands out. */
  datatype Ram = Ram(pages: Pages, cursor: nat, end: nat)

  /** An object: its first metadata page, its page count, and the pages it owns (none listed if it borrows). */
  datatype Vmo = Vmo(meta: nat, n: nat, committed: seq<Option<nat>>)

  /** A frame the allocator will not hand out any more. */
  predicate Settled(r: Ram, pa: nat) {
    pa in r.pages && !(r.cursor <= pa < r.end)
  }

  ghost predicate IsMeta(r: Ram, v: Vmo, pa: nat)
    requires MetaOk(r.pages, v.meta, v.n)
  {
    exists m: nat :: m < MetaPagesNeeded(v.n) && MetaFrame(r.pages, v.meta, m) == pa
  }

  function SlotOf(r: Ram, v: Vmo, i: nat): Option<nat>
    requires MetaOk(r.pages, v.meta, v.n) && i < v.n
  {
    Slot(r.pages, v.meta, v.n, i)
  }

  ghost predicate GoodSlot(r: Ram, v: Vmo, i: nat)
    requires MetaOk(r.pages, v.meta, v.n) && i < v.n
  {
    && (SlotOf(r, v, i).Some? ==> Settled(r, SlotOf(r, v, i).value) && !IsMeta(r, v, SlotOf(r, v, i).value))
    && (v.committed == [] ==> SlotOf(r, v, i).Some?)
    && (i < |v.committed| && v.committed[i].Some? ==> SlotOf(r, v, i) == v.committed[i])
  }

  ghost predicate Good(r: Ram, v: Vmo) {
    && MetaOk(r.pages, v.meta, v.n) && 0 < v.n && (v.committed == [] || |v.committed| == v.n)
    && (forall m: nat :: m < MetaPagesNeeded(v.n) ==> Settled(r, MetaFrame(r.pages, v.meta, m)))
    && (forall i: nat :: i < v.n ==> GoodSlot(r, v, i))
    && (forall i: nat, j: nat :: i < j < v.n ==> SlotOf(r, v, i).None? || SlotOf(r, v, i) != SlotOf(r, v, j))
  }

  /** Every committed page is its own; only a slice of another object is neither this nor borrowed. */
  ghost predicate Owned(r: Ram, v: Vmo)
    requires MetaOk(r.pages, v.meta, v.n)
  {
    |v.committed| == v.n && forall i: nat :: i < v.n ==> SlotOf(r, v, i) == v.committed[i]
  }

  ghost predicate Uses(r: Ram, v: Vmo, pa: nat)
    requires MetaOk(r.pages, v.meta, v.n)
  {
    IsMeta(r, v, pa) || exists i: nat :: i < v.n && SlotOf(r, v, i) == Some(pa)
  }

  // ----- contents -----

  function ZeroPage(): seq<nat> {
    seq(PAGE_SIZE, _ => 0)
  }

  /** The bytes of page `i`; an uncommitted page reads as zeros. */
  function PageBytes(r: Ram, v: Vmo, i: nat): (b: seq<nat>)
    requires MetaOk(r.pages, v.meta, v.n) && i < v.n
    ensures |b| == PAGE_SIZE
  {
    match SlotOf(r, v, i)
    case None => ZeroPage()
    case Some(pa) => if pa in r.pages then BytesOf(r.pages[pa]) else ZeroPage()
  }

  /** The object as a flat array of bytes. */
  function Content(r: Ram, v: Vmo): (c: seq<nat>)
    requires MetaOk(r.pages, v.meta, v.n)
    ensures |c| == v.n * PAGE_SIZE
  {
    seq(v.n * PAGE_SIZE, k requires 0 <= k < v.n * PAGE_SIZE => ByteAt(r, v, k))
  }

  function ByteAt(r: Ram, v: Vmo, k: nat): nat
    requires MetaOk(r.pages, v.meta, v.n) && k < v.n * PAGE_SIZE
  {
    PageBytes(r, v, k / PAGE_SIZE)[k % PAGE_SIZE]
  }

  /** `d` laid over `s` at `at`. */
  function Splice(s: seq<nat>, at: nat, d: seq<nat>): (r: seq<nat>)
    requires at + |d| <= |s|
    ensures |r| == |s|
  {
    s[..at] + d + s[at + |d|..]
  }

  /** Writing changes exactly the bytes written. */
  lemma SpliceAt(s: seq<nat>, at: nat, d: seq<nat>, k: nat)
    requires at + |d| <= |s| && k < |s|
    ensures Splice(s, at, d)[k] == if at <= k < at + |d| then d[k - at] else s[k]
  {
  }

  lemma SpliceNothing(s: seq<nat>, at: nat)
    requires at <= |s|
    ensures Splice(s, at, []) == s
  {
  }

  /** Two adjoining splices are one. */
  lemma SpliceSplice(s: seq<nat>, at: nat, d: seq<nat>, e: seq<nat>)
    requires at + |d| + |e| <= |s|
    ensures Splice(Splice(s, at, d), at + |d|, e) == Splice(s, at, d + e)
  {
  }

  lemma PageOfByte(i: nat, o: nat, n: nat)
    requires i < n && o < PAGE_SIZE
    ensures i * PAGE_SIZE + o < n * PAGE_SIZE && (i * PAGE_SIZE + o) / PAGE_SIZE == i
      && (i * PAGE_SIZE + o) % PAGE_SIZE == o
  {
    DivUnique(i * PAGE_SIZE + o, PAGE_SIZE, i, o);
  }

  /** Changing one page splices its bytes into the contents. */
  lemma PageChange(r: Ram, v: Vmo, s: Ram, w: Vmo, i: nat, at: nat, d: seq<nat>)
    requires MetaOk(r.pages, v.meta, v.n) && MetaOk(s.pages, w.meta, w.n) && w.n == v.n && i < v.n
      && at + |d| <= PAGE_SIZE
    requires forall j: nat :: j < v.n && j != i ==> PageBytes(s, w, j) == PageBytes(r, v, j)
    requires PageBytes(s, w, i) == Splice(PageBytes(r, v, i), at, d)
    ensures i * PAGE_SIZE + at + |d| <= v.n * PAGE_SIZE
    ensures Content(s, w) == Splice(Content(r, v), i * PAGE_SIZE + at, d)
  {
    hide PageBytes;
    var a, b := Content(s, w), Splice(Content(r, v), i * PAGE_SIZE + at, d);
    forall k | 0 <= k < v.n * PAGE_SIZE ensures a[k] == b[k] {
      assert a[k] == ByteAt(s, w, k) && Content(r, v)[k] == ByteAt(r, v, k);
      SpliceAt(Content(r, v), i * PAGE_SIZE + at, d, k);
      if k / PAGE_SIZE == i {
        assert k == i * PAGE_SIZE + k % PAGE_SIZE;
        SpliceAt(PageBytes(r, v, i), at, d, k % PAGE_SIZE);
      } else {
        assert PageBytes(s, w, k / PAGE_SIZE) == PageBytes(r, v, k / PAGE_SIZE);
        OtherPage(k, i);
      }
    }
  }

  lemma OtherPage(k: nat, i: nat)
    requires k / PAGE_SIZE != i
    ensures k < i * PAGE_SIZE || (i + 1) * PAGE_SIZE <= k
  {
    if i * PAGE_SIZE <= k < (i + 1) * PAGE_SIZE {
      DivUnique(k, PAGE_SIZE, i, k - i * PAGE_SIZE);
    }
  }

  lemma SamePages(r: Ram, v: Vmo, s: Ram, w: Vmo)
    requires MetaOk(r.pages, v.meta, v.n) && MetaOk(s.pages, w.meta, w.n) && w.n == v.n
    ensures Content(s, w) == Content(r, v) <==> forall j: nat :: j < v.n ==> PageBytes(s, w, j) == PageBytes(r, v, j)
  {
    hide PageBytes;
    var a, b := Content(s, w), Content(r, v);
    if a == b {
      forall j: nat | j < v.n ensures PageBytes(s, w, j) == PageBytes(r, v, j) {
        forall o: nat | o < PAGE_SIZE ensures PageBytes(s, w, j)[o] == PageBytes(r, v, j)[o] {
          PageOfByte(j, o, v.n);
          var k := j * PAGE_SIZE + o;
          assert a[k] == ByteAt(s, w, k) && b[k] == ByteAt(r, v, k);
        }
      }
    }
    if forall j: nat :: j < v.n ==> PageBytes(s, w, j) == PageBytes(r, v, j) {
      forall k | 0 <= k < v.n * PAGE_SIZE ensures a[k] == b[k] {
        assert a[k] == ByteAt(s, w, k) && b[k] == ByteAt(r, v, k);
        assert PageBytes(s, w, k / PAGE_SIZE) == PageBytes(r, v, k / PAGE_SIZE);
      }
    }
  }

  // ----- frames -----

  /** `s` has every frame the object uses in `r`, unchanged. */
  ghost predicate KeepsFrames(r: Ram, v: Vmo, s: Ram)
    requires MetaOk(r.pages, v.meta, v.n)
  {
    && s.end == r.end && r.cursor <= s.cursor
    && (forall pa: nat :: Uses(r, v, pa) ==> pa in r.pages && pa in s.pages && s.pages[pa] == r.pages[pa])
  }

  lemma UsesMeta(r: Ram, v: Vmo, m: nat)
    requires MetaOk(r.pages, v.meta, v.n) && m < MetaPagesNeeded(v.n)
    ensures IsMeta(r, v, MetaFrame(r.pages, v.meta, m)) && Uses(r, v, MetaFrame(r.pages, v.meta, m))
  {
  }

  /** An object whose frames are kept keeps its slots and its bytes. */
  lemma KeptFrames(r: Ram, v: Vmo, s: Ram)
    requires Good(r, v) && KeepsFrames(r, v, s)
    ensures MetaOk(s.pages, v.meta, v.n)
    ensures forall m: nat :: m < MetaPagesNeeded(v.n) ==> MetaFrame(s.pages, v.meta, m) == MetaFrame(r.pages, v.meta, m)
    ensures forall i: nat :: i < v.n ==> SlotOf(s, v, i) == SlotOf(r, v, i) && PageBytes(s, v, i) == PageBytes(r, v, i)
    ensures Content(s, v) == Content(r, v)
  {
    KeptMeta(r, v, s);
    forall i: nat | i < v.n ensures SlotOf(s, v, i) == SlotOf(r, v, i) && PageBytes(s, v, i) == PageBytes(r, v, i) {
      KeptSlot(r, v, s, i);
    }
    SamePages(r, v, s, v);
  }

  lemma KeptMeta(r: Ram, v: Vmo, s: Ram)
    requires Good(r, v) && KeepsFrames(r, v, s)
    ensures MetaOk(s.pages, v.meta, v.n)
    ensures forall m: nat :: m < MetaPagesNeeded(v.n) ==> MetaFrame(s.pages, v.meta, m) == MetaFrame(r.pages, v.meta, m)
  {
    UsesMeta(r, v, 0);
    assert s.pages[v.meta] == r.pages[v.meta];
    forall m: nat | m < MetaPagesNeeded(v.n) 
      ensures MetaFrame(s.pages, v.meta, m) == MetaFrame(r.pages, v.meta, m) && MetaFrame(s.pages, v.meta, m) in s.pages
    {
      UsesMeta(r, v, m);
    }
  }

  lemma KeptSlot(r: Ram, v: Vmo, s: Ram, i: nat)
    requires Good(r, v) && KeepsFrames(r, v, s) && MetaOk(s.pages, v.meta, v.n) && i < v.n
    requires forall m: nat :: m < MetaPagesNeeded(v.n) ==>
      MetaFrame(s.pages, v.meta, m) == MetaFrame(r.pages, v.meta, m)
    ensures SlotOf(s, v, i) == SlotOf(r, v, i) && PageBytes(s, v, i) == PageBytes(r, v, i)
  {
    hide MetaFrame, SlotWord, MetaIndex, MetaPagesNeeded;
    SlotFrameSame(r.pages, s.pages, v.meta, v.n, i);
    SlotFrameUsed(r, v, i);
    assert GoodSlot(r, v, i);
    if SlotOf(r, v, i).Some? {
      assert Uses(r, v, SlotOf(r, v, i).value);
    }
  }

  lemma SlotFrameUsed(r: Ram, v: Vmo, i: nat)
    requires MetaOk(r.pages, v.meta, v.n) && i < v.n
    ensures IsMeta(r, v, SlotFrame(r.pages, v.meta, v.n, i))
  {
    SlotInBounds(v.n, i);
    UsesMeta(r, v, MetaIndex(i));
  }

  lemma KeptGood(r: Ram, v: Vmo, s: Ram)
    requires Good(r, v) && KeepsFrames(r, v, s)
    ensures Good(s, v) && Content(s, v) == Content(r, v) && (Owned(r, v) ==> Owned(s, v))
    ensures forall pa: nat :: Uses(s, v, pa) <==> Uses(r, v, pa)
  {
    hide MetaFrame, MetaPagesNeeded, Slot, PageBytes, Content;
    KeptFrames(r, v, s);
    forall m: nat | m < MetaPagesNeeded(v.n) ensures Settled(s, MetaFrame(s.pages, v.meta, m)) {
      UsesMeta(r, v, m);
      assert Settled(r, MetaFrame(r.pages, v.meta, m));
    }
    forall pa: nat ensures IsMeta(s, v, pa) <==> IsMeta(r, v, pa) {
    }
    forall i: nat | i < v.n ensures GoodSlot(s, v, i) {
      assert GoodSlot(r, v, i);
      if SlotOf(r, v, i).Some? {
        assert Uses(r, v, SlotOf(r, v, i).value);
      }
    }
    forall i: nat, j: nat | i < j < v.n ensures SlotOf(s, v, i).None? || SlotOf(s, v, i) != SlotOf(s, v, j) {
      assert SlotOf(r, v, i).None? || SlotOf(r, v, i) != SlotOf(r, v, j);
    }
  }

  // ----- steps -----

  /** Memory after the allocator handed out the frame `pa`. */
  function Handed(r: Ram, pa: nat): Ram {
    Ram(r.pages[pa := Zeroed], pa + PAGE_SIZE, r.end)
  }

  /** The frame `pa` entered into slot `i`, and the header's count of committed pages (word 3) raised. */
  function Entered(r: Ram, v: Vmo, i: nat, pa: nat): Ram
    requires MetaOk(r.pages, v.meta, v.n) && i < v.n
  {
    var p := PutSlot(r.pages, v.meta, v.n, i, pa);
    r.(pages := PutWords(p, v.meta, 3, WordsOf(p[v.meta])[3] + 1, WordsOf(p[v.meta])[4]))
  }

  function WithPage(v: Vmo, i: nat, pa: nat): Vmo
    requires i < |v.committed|
  {
    v.(committed := v.committed[i := Some(pa)])
  }

  lemma HandedKeeps(r: Ram, v: Vmo, pa: nat)
    requires Good(r, v) && r.cursor <= pa < r.end
    ensures KeepsFrames(r, v, Handed(r, pa)) && !Uses(r, v, pa)
  {
    forall q: nat | Uses(r, v, q) ensures Settled(r, q) {
      UsedSettled(r, v, q);
    }
  }

  lemma UsedSettled(r: Ram, v: Vmo, pa: nat)
    requires Good(r, v) && Uses(r, v, pa)
    ensures Settled(r, pa)
  {
    if !IsMeta(r, v, pa) {
      var i: nat :| i < v.n && SlotOf(r, v, i) == Some(pa);
      assert GoodSlot(r, v, i);
    }
  }

  /** Slots and metadata after a frame is entered. */
  lemma EnteredSlots(r: Ram, v: Vmo, i: nat, pa: nat)
    requires MetaOk(r.pages, v.meta, v.n) && i < v.n
    ensures var s := Entered(r, v, i, pa);
      && MetaOk(s.pages, v.meta, v.n)
      && (forall m: nat :: m < MetaPagesNeeded(v.n) ==> MetaFrame(s.pages, v.meta, m) == MetaFrame(r.pages, v.meta, m))
      && (forall j: nat :: j < v.n ==> SlotOf(s, v, j) == if j == i then Some(pa) else SlotOf(r, v, j))
      && (forall q: nat :: q in r.pages ==> q in s.pages && (IsMeta(r, v, q) || s.pages[q] == r.pages[q]))
  {
    hide SlotWord, MetaFrame, MetaPagesNeeded, SlotFrame, MetaOk, Slot;
    var p := PutSlot(r.pages, v.meta, v.n, i, pa);
    PutSlotSlots(r.pages, v.meta, v.n, i, pa);
    MetaPresent(p, v.meta, v.n);
    PutHeaderSlots(p, v.meta, v.n, 3, WordsOf(p[v.meta])[3] + 1, WordsOf(p[v.meta])[4]);
    SlotFrameUsed(r, v, i);
    MetaIsMeta(r, v);
  }

  lemma MetaPresent(pages: Pages, meta: nat, n: nat)
    requires MetaOk(pages, meta, n)
    ensures meta in pages
  {
  }

  lemma MetaIsMeta(r: Ram, v: Vmo)
    requires MetaOk(r.pages, v.meta, v.n) && v.n > 0
    ensures IsMeta(r, v, v.meta)
  {
    SlotInBounds(v.n, 0);
    UsesMeta(r, v, 0);
  }

  /** What a committed frame does: page `i` reads as zeros, everything else as before. */
  lemma EnteredGood(r: Ram, v: Vmo, i: nat, pa: nat)
    requires Good(r, v) && i < |v.committed| && Settled(r, pa) && !Uses(r, v, pa) && BytesOf(r.pages[pa]) == ZeroPage()
    ensures var s, w := Entered(r, v, i, pa), WithPage(v, i, pa);
      && Good(s, w) && (forall j: nat :: j < v.n ==> PageBytes(s, w, j) == if j == i then ZeroPage()
        else PageBytes(r, v, j))
      && (forall q: nat :: Uses(s, w, q) ==> Uses(r, v, q) || q == pa)
      && (Owned(r, v) ==> Owned(s, w))
  {
    hide MetaFrame, MetaPagesNeeded, Slot, Entered;
    EnteredSlots(r, v, i, pa);
    var s, w := Entered(r, v, i, pa), WithPage(v, i, pa);
    forall q: nat ensures IsMeta(s, w, q) <==> IsMeta(r, v, q) {
    }
    forall j: nat | j < v.n ensures SlotOf(s, w, j) == if j == i then Some(pa) else SlotOf(r, v, j) {
      assert SlotOf(s, w, j) == SlotOf(s, v, j);
    }
    assert s.cursor == r.cursor && s.end == r.end by {
      EnteredCursor(r, v, i, pa);
    }
    forall j: nat | j < v.n ensures GoodSlot(s, w, j) && PageBytes(s, w, j) == if j == i then ZeroPage()
      else PageBytes(r, v, j) {
      assert GoodSlot(r, v, j);
    }
    forall a: nat, b: nat | a < b < v.n ensures SlotOf(s, w, a).None? || SlotOf(s, w, a) != SlotOf(s, w, b) {
      assert SlotOf(r, v, a).None? || SlotOf(r, v, a) != SlotOf(r, v, b);
    }
    forall m: nat | m < MetaPagesNeeded(v.n) ensures Settled(s, MetaFrame(s.pages, v.meta, m)) {
      assert Settled(r, MetaFrame(r.pages, v.meta, m));
    }
    forall q: nat | Uses(s, w, q) ensures Uses(r, v, q) || q == pa {
      if !IsMeta(s, w, q) {
        var j: nat :| j < v.n && SlotOf(s, w, j) == Some(q);
        assert j != i ==> SlotOf(r, v, j) == Some(q);
      }
    }
  }

  lemma EnteredCursor(r: Ram, v: Vmo, i: nat, pa: nat)
    requires MetaOk(r.pages, v.meta, v.n) && i < v.n
    ensures Entered(r, v, i, pa).cursor == r.cursor && Entered(r, v, i, pa).end == r.end
  {
  }

  // ----- what an operation can reach -----

  /** From `r` to `s`, only frames of the object and frames not yet handed out changed, and it acquired no other. */
  ghost predicate Reaches(r: Ram, v: Vmo, s: Ram, w: Vmo) {
    && MetaOk(r.pages, v.meta, v.n) && MetaOk(s.pages, w.meta, w.n)
    && w.meta == v.meta && w.n == v.n && s.end == r.end && r.cursor <= s.cursor
    && (forall q: nat :: Settled(r, q) && !Uses(r, v, q) ==> q in s.pages && s.pages[q] == r.pages[q])
    && (forall q: nat :: Uses(s, w, q) ==> Uses(r, v, q) || !Settled(r, q))
  }

  lemma ReachesRefl(r: Ram, v: Vmo)
    requires Good(r, v)
    ensures Reaches(r, v, r, v)
  {
  }

  lemma ReachesTrans(r: Ram, v: Vmo, s: Ram, w: Vmo, t: Ram, x: Vmo)
    requires Reaches(r, v, s, w) && Reaches(s, w, t, x)
    ensures Reaches(r, v, t, x)
  {
    hide MetaOk, Uses, MetaPagesNeeded;
    forall q: nat | Settled(r, q) && !Uses(r, v, q) ensures q in t.pages && t.pages[q] == r.pages[q] {
      assert Settled(s, q) && !Uses(s, w, q);
    }
    forall q: nat | Uses(t, x, q) ensures Uses(r, v, q) || !Settled(r, q) {
      assert Settled(r, q) && !Uses(r, v, q) ==> Settled(s, q);
    }
  }

  /** No frame is used by both objects. */
  ghost predicate Apart(r: Ram, v: Vmo, x: Vmo)
    requires MetaOk(r.pages, v.meta, v.n) && MetaOk(r.pages, x.meta, x.n)
  {
    forall q: nat :: !(Uses(r, v, q) && Uses(r, x, q))
  }

  /** Whatever is done to one object, another that shares no frame with it keeps its bytes, and they stay apart. */
  lemma ApartIsIndependent(r: Ram, v: Vmo, s: Ram, w: Vmo, x: Vmo)
    requires Good(r, v) && Good(r, x) && Apart(r, v, x) && Reaches(r, v, s, w)
    ensures Good(s, x) && Content(s, x) == Content(r, x) && Apart(s, w, x) && (Owned(r, x) ==> Owned(s, x))
  {
    forall q: nat | Uses(r, x, q) ensures Settled(r, q) && !Uses(r, v, q) {
      UsedSettled(r, x, q);
    }
    KeptGood(r, x, s);
  }

  // ----- committing and storing -----

  lemma HandedReaches(r: Ram, v: Vmo, pa: nat)
    requires Good(r, v) && r.cursor <= pa < r.end
    ensures Good(Handed(r, pa), v) && Reaches(r, v, Handed(r, pa), v) && !Uses(Handed(r, pa), v, pa)
      && Settled(Handed(r, pa), pa)
    ensures Content(Handed(r, pa), v) == Content(r, v) && (Owned(r, v) ==> Owned(Handed(r, pa), v))
    ensures forall j: nat :: j < v.n ==> PageBytes(Handed(r, pa), v, j) == PageBytes(r, v, j)
  {
    hide PageBytes, Content, MetaPagesNeeded, MetaFrame;
    HandedKeeps(r, v, pa);
    KeptGood(r, v, Handed(r, pa));
    KeptFrames(r, v, Handed(r, pa));
  }

  lemma EnteredReaches(r: Ram, v: Vmo, i: nat, pa: nat)
    requires Good(r, v) && i < |v.committed| && Settled(r, pa) && !Uses(r, v, pa) && BytesOf(r.pages[pa]) == ZeroPage()
    ensures MetaOk(Entered(r, v, i, pa).pages, v.meta, v.n)
    ensures forall q: nat :: q in r.pages && !Uses(r, v, q) ==>
      q in Entered(r, v, i, pa).pages && Entered(r, v, i, pa).pages[q] == r.pages[q]
  {
    EnteredSlots(r, v, i, pa);
  }

  /** Committing page `i` in a fresh frame: the page reads as zeros, the others as before. */
  lemma CommitEffect(r: Ram, v: Vmo, i: nat, pa: nat)
    requires Good(r, v) && i < |v.committed| && r.cursor <= pa < r.end
    ensures MetaOk(Handed(r, pa).pages, v.meta, v.n)
    ensures var s, w := Entered(Handed(r, pa), v, i, pa), WithPage(v, i, pa);
      && Good(s, w) && Reaches(r, v, s, w) && SlotOf(s, w, i) == Some(pa) && (Owned(r, v) ==> Owned(s, w))
      && (forall j: nat :: j < v.n ==> PageBytes(s, w, j) == if j == i then ZeroPage() else PageBytes(r, v, j))
  {
    hide PageBytes, MetaPagesNeeded, MetaFrame, Entered;
    var h := Handed(r, pa);
    HandedReaches(r, v, pa);
    EnteredGood(h, v, i, pa);
    EnteredReaches(h, v, i, pa);
    var s, w := Entered(h, v, i, pa), WithPage(v, i, pa);
    EnteredCursor(h, v, i, pa);
    forall q: nat | Settled(r, q) && !Uses(r, v, q) ensures q in s.pages && s.pages[q] == r.pages[q] {
      assert q in h.pages && h.pages[q] == r.pages[q];
      assert !Uses(h, v, q);
    }
    forall q: nat | Uses(s, w, q) ensures Uses(r, v, q) || !Settled(r, q) {
      assert Uses(h, v, q) || q == pa;
    }
    assert GoodSlot(s, w, i);
  }

  /**
   * Exactly when a commit cannot be observed: the page already read as zeros.  A page with no slot
   * does, so commits of an owned object never show; a slice committing over a shared page can.
   */
  lemma CommitUnobservableIff(r: Ram, v: Vmo, i: nat, pa: nat)
    requires Good(r, v) && i < |v.committed| && r.cursor <= pa < r.end
    ensures MetaOk(Handed(r, pa).pages, v.meta, v.n) && Good(Entered(Handed(r, pa), v, i, pa), WithPage(v, i, pa))
    ensures Content(Entered(Handed(r, pa), v, i, pa), WithPage(v, i, pa)) == Content(r, v) <==>
      PageBytes(r, v, i) == ZeroPage()
    ensures SlotOf(r, v, i).None? ==> PageBytes(r, v, i) == ZeroPage()
  {
    CommitEffect(r, v, i, pa);
    SamePages(r, v, Entered(Handed(r, pa), v, i, pa), WithPage(v, i, pa));
  }

  /** Bytes copied into the frame behind page `i`. */
  function Stored(r: Ram, pa: nat, at: nat, d: seq<nat>): Ram
    requires pa in r.pages && at + |d| <= PAGE_SIZE
  {
    r.(pages := r.pages[pa := Data(Splice(BytesOf(r.pages[pa]), at, d))])
  }

  lemma StoreEffect(r: Ram, v: Vmo, i: nat, at: nat, d: seq<nat>)
    requires Good(r, v) && i < v.n && SlotOf(r, v, i).Some? && at + |d| <= PAGE_SIZE
    ensures var pa := SlotOf(r, v, i).value;
      && pa in r.pages && i * PAGE_SIZE + at + |d| <= v.n * PAGE_SIZE
      && var s := Stored(r, pa, at, d);
         && Good(s, v) && Reaches(r, v, s, v) && (Owned(r, v) ==> Owned(s, v))
         && Content(s, v) == Splice(Content(r, v), i * PAGE_SIZE + at, d)
         && (forall j: nat :: j < v.n ==> SlotOf(s, v, j) == SlotOf(r, v, j))
  {
    hide MetaPagesNeeded, MetaFrame, Slot, Content;
    assert GoodSlot(r, v, i);
    var pa := SlotOf(r, v, i).value;
    var s := Stored(r, pa, at, d);
    StoredMeta(r, v, i, at, d);
    forall q: nat ensures IsMeta(s, v, q) <==> IsMeta(r, v, q) {
    }
    forall j: nat | j < v.n ensures GoodSlot(s, v, j) && (j != i ==> PageBytes(s, v, j) == PageBytes(r, v, j)) {
      assert GoodSlot(r, v, j);
      if j < i {
        assert SlotOf(r, v, j).None? || SlotOf(r, v, j) != SlotOf(r, v, i);
      } else if i < j {
        assert SlotOf(r, v, i) != SlotOf(r, v, j);
      }
    }
    forall a: nat, b: nat | a < b < v.n ensures SlotOf(s, v, a).None? || SlotOf(s, v, a) != SlotOf(s, v, b) {
      assert SlotOf(r, v, a).None? || SlotOf(r, v, a) != SlotOf(r, v, b);
    }
    forall m: nat | m < MetaPagesNeeded(v.n) ensures Settled(s, MetaFrame(s.pages, v.meta, m)) {
      assert Settled(r, MetaFrame(r.pages, v.meta, m));
    }
    PageChange(r, v, s, v, i, at, d);
  }

  lemma StoredMeta(r: Ram, v: Vmo, i: nat, at: nat, d: seq<nat>)
    requires Good(r, v) && i < v.n && SlotOf(r, v, i).Some? && at + |d| <= PAGE_SIZE && SlotOf(r, v, i).value in r.pages
    ensures var s := Stored(r, SlotOf(r, v, i).value, at, d);
      && MetaOk(s.pages, v.meta, v.n)
      && (forall m: nat :: m < MetaPagesNeeded(v.n) ==> MetaFrame(s.pages, v.meta, m) == MetaFrame(r.pages, v.meta, m))
      && (forall j: nat :: j < v.n ==> SlotOf(s, v, j) == SlotOf(r, v, j))
  {
    hide MetaPagesNeeded, SlotFrame, SlotWord;
    var pa := SlotOf(r, v, i).value;
    var s := Stored(r, pa, at, d);
    assert GoodSlot(r, v, i);
    MetaIsMeta(r, v);
    assert s.pages[v.meta] == r.pages[v.meta];
    forall m: nat | m < MetaPagesNeeded(v.n) ensures MetaFrame(s.pages, v.meta, m) == MetaFrame(r.pages, v.meta, m) {
    }
    forall j: nat | j < v.n ensures SlotOf(s, v, j) == SlotOf(r, v, j) {
      SlotFrameSame(r.pages, s.pages, v.meta, v.n, j);
      SlotFrameUsed(r, v, j);
    }
  }

  // ----- a slice over a page that is not zero -----

  /** One page of metadata at `base` whose only slot names the next frame, which holds ones. */
  function SharedPage(base: nat): Ram {
    var words := seq(WORDS, k => if k == 6 then 1 else if k == 7 then base + PAGE_SIZE else 0);
    Ram(map[base := Words(words), base + PAGE_SIZE := Data(seq(PAGE_SIZE, _ => 1))],
        base + 2 * PAGE_SIZE, base + 3 * PAGE_SIZE)
  }

  /** A slice: it has the page without owning it. */
  function SliceAt(base: nat): Vmo {
    Vmo(base, 1, [None])
  }

  lemma SharedPageGood(base: nat)
    ensures Good(SharedPage(base), SliceAt(base)) && PageBytes(SharedPage(base), SliceAt(base), 0)[0] == 1
    ensures forall q: nat :: Uses(SharedPage(base), SliceAt(base), q) <==> q == base || q == base + PAGE_SIZE
  {
    var r, v := SharedPage(base), SliceAt(base);
    LayoutConstants();
    assert MetaPagesNeeded(1) == 1 && MetaFrame(r.pages, base, 0) == base;
    assert MetaOk(r.pages, base, 1);
    SlotWordValue(0);
    assert SlotOf(r, v, 0) == Some(base + PAGE_SIZE);
    assert IsMeta(r, v, base) && !IsMeta(r, v, base + PAGE_SIZE);
    assert GoodSlot(r, v, 0);
  }

  /** Committing that page replaces the ones by zeros. */
  lemma CommitShows(base: nat)
    ensures var r, v := SharedPage(base), SliceAt(base);
      && Good(r, v) && MetaOk(Handed(r, r.cursor).pages, v.meta, v.n)
      && var s, w := Entered(Handed(r, r.cursor), v, 0, r.cursor), WithPage(v, 0, r.cursor);
         Good(s, w) && Content(s, w) != Content(r, v)
  {
    hide Good, Content, PageBytes, SharedPage, MetaOk;
    SharedPageGood(base);
    SharedCursor(base);
    CommitUnobservableIff(SharedPage(base), SliceAt(base), 0, SharedPage(base).cursor);
    assert ZeroPage()[0] == 0;
  }

  lemma SharedCursor(base: nat)
    ensures SharedPage(base).cursor < SharedPage(base).end
  {
  }
}
