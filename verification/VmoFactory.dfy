/** Creating, forking and slicing memory objects (kernel/src/memory/vmo.rs). */
module VmoFactory {
  import opened Common
  import opened Phys
  import opened VmoLayout
  import opened VmoSpec
  import opened VmoCreate
  import opened VmoObject

  /** The metadata pages came from frames not settled in `r`. */
  ghost predicate MetaFresh(r: Ram, s: Ram, meta: nat, count: nat)
    requires meta in s.pages && count <= 9
  {
    forall m: nat :: m < count ==> !Settled(r, MetaFrame(s.pages, meta, m))
  }

  /** The object uses none of the frames settled in `r`. */
  ghost predicate AllFresh(r: Ram, s: Ram, v: Vmo)
    requires MetaOk(s.pages, v.meta, v.n)
  {
    forall q: nat :: Uses(s, v, q) ==> !Settled(r, q)
  }

  function PagesFor(size: nat): nat {
    (size + PAGE_SIZE - 1) / PAGE_SIZE
  }

  lemma StepTable(r: Ram, s: Ram, meta: nat, m: nat, pa: nat, t: Ram)
    requires OnlyFresh(r, s) && Blank(s, meta, m) && MetaFresh(r, s, meta, m) && 1 <= m <= 8
    requires s.cursor <= pa < s.end && t == Tabled(s, meta, m, pa)
    ensures OnlyFresh(r, t) && Blank(t, meta, m + 1) && MetaFresh(r, t, meta, m + 1)
  {
    TabledBlank(s, meta, m, pa);
    assert MetaFrame(s.pages, meta, 0) == meta;
    forall l: nat | l < m + 1 ensures !Settled(r, MetaFrame(t.pages, meta, l)) {
      if l < m {
        assert !Settled(r, MetaFrame(s.pages, meta, l));
      }
    }
  }

  lemma NeededBounds(n: nat)
    requires 0 < n <= MAX_PAGES
    ensures 1 <= MetaPagesNeeded(n) <= 9
  {
    SlotInBounds(n, 0);
  }

  /** Allocates and initialises the metadata pages of an object of `n` pages. */
  method AllocMeta(mem: PhysMemory<Frame>, n: nat, count: nat) returns (r: Option<nat>)
    requires MemoryOk(mem) && 0 < n <= MAX_PAGES
    modifies mem
    ensures MemoryOk(mem) && OnlyFresh(old(RamOf(mem)), RamOf(mem))
    ensures r.None? ==> Exhausted(mem)
    ensures r.Some? ==>
      Blank(RamOf(mem), r.value, MetaPagesNeeded(n))
      && MetaFresh(old(RamOf(mem)), RamOf(mem), r.value, MetaPagesNeeded(n))
  {
    hide Blank, MetaFresh, Phys.PhysMemory.Valid, MetaPagesNeeded;
    ghost var ram := RamOf(mem);
    var mpn := MetaPagesNeeded(n);
    NeededBounds(n);
    var a := mem.AllocPage(VmoData);
    if a.Err? {
      return None;
    }
    var meta := a.value;
    var header := [MAGIC, VERSION, n, count, n * PAGE_SIZE, mpn];
    ghost var h := RamOf(mem);
    HeadedBlank(h, meta, header);
    mem.Store(meta, Words(header + WordsOf(mem.pages[meta])[6..]));
    assert RamOf(mem) == Headed(h, meta, header);
    FirstFresh(ram, RamOf(mem), meta);
    for i := 1 to mpn
      invariant MemoryOk(mem) && OnlyFresh(ram, RamOf(mem)) && meta in mem.pages
      invariant Blank(RamOf(mem), meta, i) && MetaFresh(ram, RamOf(mem), meta, i)
    {
      var ok := AddMeta(mem, ram, meta, i);
      if !ok {
        return None;
      }
    }
    return Some(meta);
  }

  /** Allocates one more metadata page and enters it in the table. */
  method AddMeta(mem: PhysMemory<Frame>, ghost ram: Ram, meta: nat, i: nat) returns (ok: bool)
    requires MemoryOk(mem) && OnlyFresh(ram, RamOf(mem)) && meta in mem.pages && 1 <= i <= 8
    requires Blank(RamOf(mem), meta, i) && MetaFresh(ram, RamOf(mem), meta, i)
    modifies mem
    ensures MemoryOk(mem) && OnlyFresh(ram, RamOf(mem))
    ensures !ok ==> Exhausted(mem)
    ensures ok ==> meta in mem.pages && Blank(RamOf(mem), meta, i + 1) && MetaFresh(ram, RamOf(mem), meta, i + 1)
  {
    hide Blank, MetaFresh, Phys.PhysMemory.Valid;
    ghost var s := RamOf(mem);
    var e := mem.AllocPage(VmoData);
    if e.Err? {
      return false;
    }
    mem.Store(meta, Words(WordsOf(mem.pages[meta])[TableOffset(i) / 8 := e.value]));
    assert RamOf(mem) == Tabled(s, meta, i, e.value);
    StepTable(ram, s, meta, i, e.value, RamOf(mem));
    BlankHas(RamOf(mem), meta, i + 1);
    return true;
  }

  lemma BlankHas(r: Ram, meta: nat, count: nat)
    requires Blank(r, meta, count)
    ensures meta in r.pages
  {
  }

  lemma FirstFresh(r: Ram, s: Ram, meta: nat)
    requires meta in s.pages && r.cursor <= meta < r.end
    ensures MetaFresh(r, s, meta, 1)
  {
  }

  /** A new object of zeros, its size rounded up to whole pages. */
  method CreateWithSize(mem: PhysMemory<Frame>, size: nat) returns (r: Result<MemoryObject>)
    requires MemoryOk(mem)
    modifies mem
    ensures MemoryOk(mem) && OnlyFresh(old(RamOf(mem)), RamOf(mem))
    ensures size == 0 || PagesFor(size) > MAX_PAGES <==> r == Err(InvalidArgs)
    ensures r.Err? && r.error != InvalidArgs ==> r.error == NoMemory && Exhausted(mem)
    ensures r.Ok? ==>
      fresh(r.value) && r.value.mem == mem && r.value.Valid() && r.value.size == PagesFor(size) * PAGE_SIZE
    ensures r.Ok? ==> r.value.committed == Uncommitted(PagesFor(size)) && Owned(RamOf(mem), r.value.View())
    ensures r.Ok? ==> r.value.Contents() == seq(r.value.size, _ => 0)
    ensures r.Ok? ==> AllFresh(old(RamOf(mem)), RamOf(mem), r.value.View())
  {
    hide Blank, MetaFresh, Phys.PhysMemory.Valid, MetaPagesNeeded, Good, Content, Owned;
    ghost var ram := RamOf(mem);
    if size == 0 {
      return Err(InvalidArgs);
    }
    var n := PagesFor(size);
    if n > MAX_PAGES {
      return Err(InvalidArgs);
    }
    var meta := AllocMeta(mem, n, 0);
    if meta.None? {
      return Err(NoMemory);
    }
    BlankGood(RamOf(mem), meta.value, n);
    BlankAllFresh(ram, RamOf(mem), meta.value, n);
    var v := new MemoryObject(mem, meta.value, n * PAGE_SIZE, Uncommitted(n));
    assert n * PAGE_SIZE / PAGE_SIZE == n;
    assert v.View() == Vmo(meta.value, n, Uncommitted(n));
    return Ok(v);
  }

  lemma BlankAllFresh(r: Ram, s: Ram, meta: nat, n: nat)
    requires 0 < n <= MAX_PAGES && Blank(s, meta, MetaPagesNeeded(n)) && MetaFresh(r, s, meta, MetaPagesNeeded(n))
    ensures MetaOk(s.pages, meta, n) && AllFresh(r, s, Vmo(meta, n, Uncommitted(n)))
  {
    BlankGood(s, meta, n);
  }

  // ----- filling slots -----

  lemma StartFill(r: Ram, meta: nat, n: nat, frames: seq<Option<nat>>)
    requires 0 < n <= MAX_PAGES && |frames| == n && Blank(r, meta, MetaPagesNeeded(n))
    ensures Filled(r, meta, n, frames, 0)
  {
    BlankGood(r, meta, n);
    forall i: nat | i < n ensures Slot(r.pages, meta, n, i) == None {
      assert SlotOf(r, Vmo(meta, n, Uncommitted(n)), i).None?;
    }
  }

  /** Filling touches only the object's own, fresh, metadata. */
  lemma FillFresh(r: Ram, s: Ram, meta: nat, n: nat, frames: seq<Option<nat>>, k: nat)
    requires OnlyFresh(r, s) && Filled(s, meta, n, frames, k) && k < n && MetaFresh(r, s, meta, MetaPagesNeeded(n))
    ensures var t := PutMaybe(s, meta, n, k, frames[k]);
      OnlyFresh(r, t) && Filled(t, meta, n, frames, k + 1) && MetaFresh(r, t, meta, MetaPagesNeeded(n))
  {
    hide MetaFrame, Filled, MetaPagesNeeded;
    FilledMeta(s, meta, n, frames, k);
    FillStep(s, meta, n, frames, k);
    FilledMeta(PutMaybe(s, meta, n, k, frames[k]), meta, n, frames, k + 1);
    FreshNotMeta(r, s, meta, n);
  }

  lemma FilledMeta(r: Ram, meta: nat, n: nat, frames: seq<Option<nat>>, k: nat)
    requires Filled(r, meta, n, frames, k)
    ensures MetaOk(r.pages, meta, n) && k <= n == |frames|
  {
  }

  lemma FreshNotMeta(r: Ram, s: Ram, meta: nat, n: nat)
    requires MetaOk(s.pages, meta, n) && MetaFresh(r, s, meta, MetaPagesNeeded(n))
    ensures forall q: nat :: IsMeta(s, Vmo(meta, n, []), q) ==> !Settled(r, q)
  {
  }

  /** Enters the given frames into the slots of a blank object. */
  method FillSlots(mem: PhysMemory<Frame>, ghost ram: Ram, meta: nat, n: nat, frames: seq<Option<nat>>)
    requires MemoryOk(mem) && 0 < n <= MAX_PAGES && |frames| == n && OnlyFresh(ram, RamOf(mem))
    requires Blank(RamOf(mem), meta, MetaPagesNeeded(n)) && MetaFresh(ram, RamOf(mem), meta, MetaPagesNeeded(n))
    modifies mem`pages
    ensures MemoryOk(mem) && OnlyFresh(ram, RamOf(mem)) && Filled(RamOf(mem), meta, n, frames, n)
    ensures MetaFresh(ram, RamOf(mem), meta, MetaPagesNeeded(n))
  {
    hide Blank, MetaFresh, Phys.PhysMemory.Valid, MetaPagesNeeded, Filled, OnlyFresh, SlotFrame, SlotWord, MetaOk;
    StartFill(RamOf(mem), meta, n, frames);
    BlankHas(RamOf(mem), meta, MetaPagesNeeded(n));
    NeededBounds(n);
    for i := 0 to n
      invariant MemoryOk(mem) && OnlyFresh(ram, RamOf(mem)) && Filled(RamOf(mem), meta, n, frames, i)
      invariant meta in mem.pages && MetaFresh(ram, RamOf(mem), meta, MetaPagesNeeded(n))
    {
      FilledMeta(RamOf(mem), meta, n, frames, i);
      FillFresh(ram, RamOf(mem), meta, n, frames, i);
      if frames[i].Some? {
        var f, k := SlotFrame(mem.pages, meta, n, i), SlotWord(i);
        mem.Store(f, Words(WordsOf(mem.pages[f])[k := 1][k + 1 := frames[i].value]));
      }
    }
  }

  /** The frames of `count` pages from `pa` on. */
  function Borrowed(pa: nat, count: nat): (f: seq<Option<nat>>)
    ensures |f| == count && forall i :: 0 <= i < count ==> f[i] == Some(pa + i * PAGE_SIZE)
  {
    seq(count, i => Some(pa + i * PAGE_SIZE))
  }

  predicate FrameSettled(r: Ram, pa: nat, i: nat) {
    Settled(r, pa + i * PAGE_SIZE)
  }

  lemma FilledFillable(r: Ram, s: Ram, meta: nat, n: nat, frames: seq<Option<nat>>)
    requires OnlyFresh(r, s) && Filled(s, meta, n, frames, n) && MetaFresh(r, s, meta, MetaPagesNeeded(n))
    requires forall i: nat :: i < n && frames[i].Some? ==> Settled(r, frames[i].value)
    requires forall i: nat, j: nat :: i < j < n && frames[i].Some? ==> frames[i] != frames[j]
    ensures Fillable(s, meta, n, frames)
  {
    FreshNotMeta(r, s, meta, n);
  }

  /** The slots of an object over the pages from `pa` on, as the code fills them in. */
  ghost predicate Lists(r: Ram, v: Vmo, pa: nat) {
    && MetaOk(r.pages, v.meta, v.n) && v.committed == []
    && (forall i: nat :: i < v.n ==> SlotOf(r, v, i) == Some(pa + i * PAGE_SIZE))
  }

  /** Page `i` from `pa` on is memory the allocator will not hand out, and no metadata of the object. */
  ghost predicate UsablePage(r: Ram, v: Vmo, pa: nat, i: nat)
    requires MetaOk(r.pages, v.meta, v.n)
  {
    FrameSettled(r, pa, i) && !IsMeta(r, v, pa + i * PAGE_SIZE)
  }

  /** Such an object is sound exactly when every page is usable; pages of a device are not. */
  lemma PhysicalGoodIff(r: Ram, meta: nat, n: nat, pa: nat)
    requires 0 < n && Filled(r, meta, n, Borrowed(pa, n), n)
    ensures Lists(r, Vmo(meta, n, []), pa)
    ensures Good(r, Vmo(meta, n, [])) <==> forall i: nat :: i < n ==> UsablePage(r, Vmo(meta, n, []), pa, i)
  {
    hide MetaFrame, Slot, MetaPagesNeeded;
    var v, frames := Vmo(meta, n, []), Borrowed(pa, n);
    if Good(r, v) {
      forall i: nat | i < n ensures UsablePage(r, v, pa, i) {
        assert GoodSlot(r, v, i);
      }
    }
    if forall i: nat :: i < n ==> UsablePage(r, v, pa, i) {
      assert Fillable(r, meta, n, frames) by {
        forall i: nat | i < n ensures Settled(r, frames[i].value) && !IsMeta(r, v, frames[i].value) {
          assert UsablePage(r, v, pa, i);
        }
      }
      FilledGood(r, meta, n, frames, []);
    }
  }

  /** Pages settled beforehand are usable. */
  lemma SettledAreUsable(r: Ram, s: Ram, meta: nat, n: nat, pa: nat)
    requires OnlyFresh(r, s) && Filled(s, meta, n, Borrowed(pa, n), n) && MetaFresh(r, s, meta, MetaPagesNeeded(n))
    requires forall i: nat :: i < n ==> FrameSettled(r, pa, i)
    ensures forall i: nat :: i < n ==> UsablePage(s, Vmo(meta, n, []), pa, i)
  {
    FreshNotMeta(r, s, meta, n);
    forall i: nat | i < n ensures UsablePage(s, Vmo(meta, n, []), pa, i) {
      assert FrameSettled(r, pa, i);
    }
  }

  /**
   * An object over existing pages, memory or not.  It is sound exactly when the pages are memory that
   * the allocator will not hand out.
   */
  method CreatePhysical(mem: PhysMemory<Frame>, pa: nat, size: nat) returns (r: Result<MemoryObject>)
    requires MemoryOk(mem)
    modifies mem
    ensures MemoryOk(mem) && OnlyFresh(old(RamOf(mem)), RamOf(mem))
    ensures size == 0 || PagesFor(size) > MAX_PAGES <==> r == Err(InvalidArgs)
    ensures r.Err? && r.error != InvalidArgs ==> r.error == NoMemory && Exhausted(mem)
    ensures r.Ok? ==> fresh(r.value) && r.value.mem == mem && r.value.size == PagesFor(size) * PAGE_SIZE
    ensures r.Ok? ==> Lists(RamOf(mem), r.value.View(), pa)
    ensures r.Ok? ==>
      (r.value.Valid() <==> forall i: nat :: i < PagesFor(size) ==> UsablePage(RamOf(mem), r.value.View(), pa, i))
    ensures r.Ok? && (forall i: nat :: i < PagesFor(size) ==> FrameSettled(old(RamOf(mem)), pa, i)) ==> r.value.Valid()
  {
    hide Blank, MetaFresh, Phys.PhysMemory.Valid, MetaPagesNeeded, Good, Content, Filled, OnlyFresh, MetaOk, Slot;
    hide UsablePage, FrameSettled;
    ghost var ram := RamOf(mem);
    FreshRefl(ram);
    if size == 0 {
      return Err(InvalidArgs);
    }
    var n := PagesFor(size);
    if n > MAX_PAGES {
      return Err(InvalidArgs);
    }
    var meta := AllocMeta(mem, n, n);
    if meta.None? {
      return Err(NoMemory);
    }
    FillSlots(mem, ram, meta.value, n, Borrowed(pa, n));
    PhysicalGoodIff(RamOf(mem), meta.value, n, pa);
    if forall i: nat :: i < n ==> FrameSettled(ram, pa, i) {
      SettledAreUsable(ram, RamOf(mem), meta.value, n, pa);
    }
    var v := new MemoryObject(mem, meta.value, n * PAGE_SIZE, []);
    assert n * PAGE_SIZE / PAGE_SIZE == n;
    assert v.View() == Vmo(meta.value, n, []);
    return Ok(v);
  }

  lemma FreshRefl(r: Ram)
    ensures OnlyFresh(r, r)
  {
  }

  // ----- fork and slice -----

  /** What a fork or a slice sees: pages neither owned nor borrowed by the parent read as zeros. */
  function Visible(c: seq<nat>, v: Vmo): (r: seq<nat>)
    requires |c| == v.n * PAGE_SIZE && (v.committed == [] || |v.committed| == v.n)
    ensures |r| == |c|
  {
    seq(|c|, k requires 0 <= k < |c| => if HasPage(v, k / PAGE_SIZE) then c[k] else 0)
  }

  predicate HasPage(v: Vmo, i: nat) {
    v.committed == [] || (i < |v.committed| && v.committed[i].Some?)
  }

  /** Exactly when a fork has its parent's bytes: every page it skips reads as zeros anyway. */
  lemma ForkEqualIff(r: Ram, v: Vmo)
    requires Good(r, v)
    ensures Visible(Content(r, v), v) == Content(r, v) <==> forall i: nat :: i < v.n && !HasPage(v, i) ==>
      PageBytes(r, v, i) == ZeroPage()
  {
    hide PageBytes;
    var c := Content(r, v);
    var d := Visible(c, v);
    if d == c {
      forall i: nat | i < v.n && !HasPage(v, i) ensures PageBytes(r, v, i) == ZeroPage() {
        forall o: nat | o < PAGE_SIZE ensures PageBytes(r, v, i)[o] == 0 {
          PageOfByte(i, o, v.n);
          assert d[i * PAGE_SIZE + o] == 0 && c[i * PAGE_SIZE + o] == ByteAt(r, v, i * PAGE_SIZE + o);
        }
      }
    }
    if forall i: nat :: i < v.n && !HasPage(v, i) ==> PageBytes(r, v, i) == ZeroPage() {
      forall k | 0 <= k < |c| ensures d[k] == c[k] {
        assert c[k] == ByteAt(r, v, k);
        if !HasPage(v, k / PAGE_SIZE) {
          assert PageBytes(r, v, k / PAGE_SIZE) == ZeroPage();
        }
      }
    }
  }

  /** A fork of a slice over a page of ones reads as zeros there. */
  lemma ForkDiffers(base: nat)
    ensures var r, v := SharedPage(base), SliceAt(base); Good(r, v) && Visible(Content(r, v), v) != Content(r, v)
  {
    hide Good, Content, PageBytes, SharedPage, Visible;
    SharedPageGood(base);
    ForkEqualIff(SharedPage(base), SliceAt(base));
    assert !HasPage(SliceAt(base), 0) && ZeroPage()[0] == 0;
  }

  /** Owned and borrowing objects fork to equal contents. */
  lemma ForkOfOwnedIsEqual(r: Ram, v: Vmo)
    requires Good(r, v) && (Owned(r, v) || v.committed == [])
    ensures Visible(Content(r, v), v) == Content(r, v)
  {
    ForkEqualIff(r, v);
    forall i: nat | i < v.n && !HasPage(v, i) ensures PageBytes(r, v, i) == ZeroPage() {
      assert SlotOf(r, v, i) == v.committed[i];
    }
  }

  /** `d` holds the visible pages of `c` below page `i`, and zeros from there on. */
  ghost predicate CopiedTo(d: seq<nat>, c: seq<nat>, v: Vmo, i: nat) {
    && |d| == |c|
    && (forall k :: 0 <= k < |c| ==> d[k] == if k < i * PAGE_SIZE && HasPage(v, k / PAGE_SIZE) then c[k] else 0)
  }

  lemma CopiedPage(d: seq<nat>, c: seq<nat>, v: Vmo, i: nat)
    requires CopiedTo(d, c, v, i) && |c| == v.n * PAGE_SIZE && i < v.n
    ensures i * PAGE_SIZE + PAGE_SIZE <= |c|
    ensures HasPage(v, i) ==>
      CopiedTo(Splice(d, i * PAGE_SIZE, c[i * PAGE_SIZE..i * PAGE_SIZE + PAGE_SIZE]), c, v, i + 1)
    ensures !HasPage(v, i) ==> CopiedTo(d, c, v, i + 1)
  {
    var chunk := c[i * PAGE_SIZE..i * PAGE_SIZE + PAGE_SIZE];
    var e := Splice(d, i * PAGE_SIZE, chunk);
    forall k | 0 <= k < |c| ensures e[k] == if i * PAGE_SIZE <= k < (i + 1) * PAGE_SIZE then c[k] else d[k] {
      SpliceAt(d, i * PAGE_SIZE, chunk, k);
    }
    forall k | i * PAGE_SIZE <= k < (i + 1) * PAGE_SIZE ensures k / PAGE_SIZE == i {
    }
  }

  /**
   * A deep copy: every page the object owns or borrows is committed and copied in the new object,
   * which shares no frame with this one.
   */
  method Fork(v: MemoryObject) returns (r: Result<MemoryObject>)
    requires v.Valid()
    modifies v.mem
    ensures v.Valid() && v.committed == old(v.committed) && v.Contents() == old(v.Contents())
    ensures r.Ok? ==> fresh(r.value) && r.value.mem == v.mem && r.value.size == v.size && r.value.Valid()
    ensures r.Ok? ==>
      r.value.Contents() == Visible(v.Contents(), v.View()) && Separate(RamOf(v.mem), r.value.View(), v.View())
    ensures r.Err? ==> r.error == NoMemory && Exhausted(v.mem)
  {
    hide Good, Content, Owned, Separate, Phys.PhysMemory.Valid, MetaOk, CopiedTo, HasPage, AllFresh, OnlyFresh;
    hide PageBytes, Uncommitted;
    ghost var ram, x := RamOf(v.mem), v.View();
    ghost var bytes := v.Contents();
    var n := v.size / PAGE_SIZE;
    GoodFacts(ram, x);
    SizeRounds(v.size);
    var made := CreateWithSize(v.mem, v.size);
    FreshKeeps(ram, x, RamOf(v.mem));
    if made.Err? {
      return made;
    }
    var fork := made.value;
    FreshApart(ram, x, RamOf(v.mem), fork.View());
    NothingCopied(fork.Contents(), bytes, x);
    for i := 0 to n
      invariant v.Valid() && v.View() == x && v.Contents() == bytes
      invariant fork.Valid() && fork.mem == v.mem && fork.size == v.size && fresh(fork)
      invariant Separate(RamOf(v.mem), fork.View(), x) && CopiedTo(fork.Contents(), bytes, x, i)
    {
      CopiedPage(fork.Contents(), bytes, x, i);
      var has := v.committed == [] || v.committed[i].Some?;
      assert has == HasPage(x, i) by {
        HasPageIs(x, i);
      }
      if has {
        var e := CopyPage(v, fork, i);
        if e.Some? {
          return Err(e.value);
        }
      }
    }
    AllCopied(fork.Contents(), bytes, x);
    return Ok(fork);
  }

  lemma HasPageIs(v: Vmo, i: nat)
    requires i < v.n && (v.committed == [] || |v.committed| == v.n)
    ensures HasPage(v, i) <==> v.committed == [] || v.committed[i].Some?
  {
  }

  lemma NothingCopied(d: seq<nat>, c: seq<nat>, v: Vmo)
    requires d == seq(|c|, _ => 0)
    ensures CopiedTo(d, c, v, 0)
  {
  }

  lemma AllCopied(d: seq<nat>, c: seq<nat>, v: Vmo)
    requires CopiedTo(d, c, v, v.n) && |c| == v.n * PAGE_SIZE && (v.committed == [] || |v.committed| == v.n)
    ensures d == Visible(c, v)
  {
  }

  lemma SizeRounds(size: nat)
    requires size % PAGE_SIZE == 0
    ensures PagesFor(size) == size / PAGE_SIZE && size / PAGE_SIZE * PAGE_SIZE == size
  {
  }

  /** Allocating for a new object does not disturb this one. */
  lemma FreshKeeps(r: Ram, v: Vmo, s: Ram)
    requires Good(r, v) && OnlyFresh(r, s)
    ensures Good(s, v) && Content(s, v) == Content(r, v)
  {
    forall q: nat | Uses(r, v, q) ensures Settled(r, q) {
      UsedSettled(r, v, q);
    }
    KeptGood(r, v, s);
  }

  lemma FreshApart(r: Ram, v: Vmo, s: Ram, w: Vmo)
    requires Good(r, v) && OnlyFresh(r, s) && Good(s, w) && Owned(s, w) && AllFresh(r, s, w)
    ensures Separate(s, w, v)
  {
    forall q: nat | Uses(r, v, q) ensures Settled(r, q) {
      UsedSettled(r, v, q);
    }
    KeptGood(r, v, s);
  }

  /** The first object owns its pages and shares no frame with the second. */
  ghost predicate Separate(r: Ram, w: Vmo, v: Vmo) {
    Good(r, w) && Good(r, v) && Apart(r, w, v) && Owned(r, w)
  }

  lemma SameStays(r: Ram, v: Vmo, s: Ram, w: Vmo)
    requires OwnedSame(r, v, s, w)
    ensures OwnedStays(r, v, s, w) && (Good(r, v) && Owned(r, v) ==> Content(s, w) == Content(r, v))
  {
  }

  /** Operations on the first object leave the second one's bytes alone, and the two separate. */
  lemma StaysSeparate(r: Ram, v: Vmo, s: Ram, w: Vmo, x: Vmo)
    requires Separate(r, v, x) && Reaches(r, v, s, w) && OwnedStays(r, v, s, w)
    ensures Separate(s, w, x) && Content(s, x) == Content(r, x)
    ensures Owned(r, v)
  {
    ApartIsIndependent(r, v, s, w, x);
  }

  lemma OwnsItsPages(r: Ram, w: Vmo, v: Vmo)
    requires Separate(r, w, v)
    ensures w.committed != []
  {
  }

  /** Commits page `i` of `to` and copies the page over from `from`. */
  method CopyPage(from: MemoryObject, to: MemoryObject, i: nat) returns (e: Option<Status>)
    requires from != to && from.mem == to.mem && from.size == to.size && from.Valid() && to.Valid()
      && i < from.size / PAGE_SIZE
    requires Separate(RamOf(to.mem), to.View(), from.View())
    modifies to, to.mem
    ensures from.Valid() && to.Valid() && from.Contents() == old(from.Contents()) && from.View() == old(from.View())
    ensures Separate(RamOf(to.mem), to.View(), from.View())
    ensures i * PAGE_SIZE + PAGE_SIZE <= from.size
    ensures e.None? ==>
      to.Contents() == Splice(old(to.Contents()), i * PAGE_SIZE,
      from.Contents()[i * PAGE_SIZE..i * PAGE_SIZE + PAGE_SIZE])
    ensures e.Some? ==> e.value == NoMemory && Exhausted(to.mem)
  {
    hide Good, Content, Separate, Phys.PhysMemory.Valid, MetaOk, Reaches, PageBytes, Splice, OwnedSame, OwnedStays;
    ghost var ram, v, x := RamOf(to.mem), to.View(), from.View();
    PositionInPage(i * PAGE_SIZE, from.size);
    OwnsItsPages(ram, v, x);
    var c := to.CommitPage(i * PAGE_SIZE);
    ghost var r1, v1 := RamOf(to.mem), to.View();
    SameStays(ram, v, r1, v1);
    StaysSeparate(ram, v, r1, v1, x);
    if c.Err? {
      return Some(c.error);
    }
    var buf := new nat[PAGE_SIZE];
    var k := from.Read(i * PAGE_SIZE, buf);
    assert buf[..k] == buf[..];
    var w := to.Write(i * PAGE_SIZE, buf[..]);
    StaysSeparate(r1, v1, RamOf(to.mem), to.View(), x);
    if w.Err? {
      return Some(w.error);
    }
    assert buf[..][..w.value] == buf[..];
    return None;
  }

  /** ... and operations on the second leave the first one's. */
  lemma ForkKeepsItsBytes(r: Ram, fork: Vmo, v: Vmo, s: Ram, w: Vmo)
    requires Separate(r, fork, v) && Reaches(r, v, s, w) && Good(s, w)
    ensures Separate(s, fork, w) && Content(s, fork) == Content(r, fork)
  {
    ApartIsIndependent(r, v, s, w, fork);
  }

  // ----- slices -----

  /** The frames a slice of `n` pages from page `start` on takes over from its parent. */
  ghost function SliceFrames(r: Ram, v: Vmo, start: nat, n: nat): (f: seq<Option<nat>>)
    requires Good(r, v) && start + n <= v.n
    ensures |f| == n
    ensures forall i: nat :: i < n ==> f[i] == if HasPage(v, start + i) then SlotOf(r, v, start + i) else None
  {
    seq(n, i requires 0 <= i < n => if HasPage(v, start + i) then SlotOf(r, v, start + i) else None)
  }

  lemma SliceFramesDistinct(r: Ram, v: Vmo, start: nat, n: nat)
    requires Good(r, v) && start + n <= v.n
    ensures var f := SliceFrames(r, v, start, n);
      && (forall i: nat :: i < n && f[i].Some? ==> Settled(r, f[i].value))
      && (forall i: nat, j: nat :: i < j < n && f[i].Some? ==> f[i] != f[j])
  {
    hide MetaOk, MetaPagesNeeded, MetaFrame, Slot;
    GoodFacts(r, v);
    var f := SliceFrames(r, v, start, n);
    forall i: nat | i < n && f[i].Some? ensures Settled(r, f[i].value) {
      assert GoodSlot(r, v, start + i);
    }
    forall i: nat, j: nat | i < j < n && f[i].Some? ensures f[i] != f[j] {
      assert SlotOf(r, v, start + i).None? || SlotOf(r, v, start + i) != SlotOf(r, v, start + j);
    }
  }

  /** The slice's bytes are the visible bytes of its range of the parent. */
  lemma SliceBytes(r: Ram, v: Vmo, s: Ram, w: Vmo, start: nat)
    requires Good(r, v) && Good(s, w) && OnlyFresh(r, s) && start + w.n <= v.n
    requires forall i: nat :: i < w.n ==> SlotOf(s, w, i) == SliceFrames(r, v, start, w.n)[i]
    ensures (start + w.n) * PAGE_SIZE <= v.n * PAGE_SIZE
    ensures Content(s, w) == Visible(Content(r, v), v)[start * PAGE_SIZE..(start + w.n) * PAGE_SIZE]
  {
    hide MetaOk, MetaPagesNeeded, MetaFrame, Slot;
    GoodFacts(r, v);
    GoodFacts(s, w);
    var a, b := Content(s, w), Visible(Content(r, v), v)[start * PAGE_SIZE..(start + w.n) * PAGE_SIZE];
    forall k | 0 <= k < w.n * PAGE_SIZE ensures a[k] == b[k] {
      SliceByte(r, v, s, w, start, k);
    }
  }

  lemma SliceByte(r: Ram, v: Vmo, s: Ram, w: Vmo, start: nat, k: nat)
    requires Good(r, v) && Good(s, w) && OnlyFresh(r, s) && start + w.n <= v.n && k < w.n * PAGE_SIZE
    requires forall i: nat :: i < w.n ==> SlotOf(s, w, i) == SliceFrames(r, v, start, w.n)[i]
    ensures start * PAGE_SIZE + k < v.n * PAGE_SIZE
    ensures Content(s, w)[k] == Visible(Content(r, v), v)[start * PAGE_SIZE + k]
  {
    hide MetaOk, MetaPagesNeeded, MetaFrame, Slot, PageBytes, SliceFrames, Good;
    GoodFacts(r, v);
    GoodFacts(s, w);
    var i, o := k / PAGE_SIZE, k % PAGE_SIZE;
    SlicePage(r, v, s, w, start, i);
    PageOfByte(start + i, o, v.n);
    var q := (start + i) * PAGE_SIZE + o;
    assert q == start * PAGE_SIZE + k;
    assert Content(s, w)[k] == ByteAt(s, w, k) == PageBytes(s, w, i)[o];
    assert Content(r, v)[q] == ByteAt(r, v, q) == PageBytes(r, v, start + i)[o];
  }

  lemma SlicePage(r: Ram, v: Vmo, s: Ram, w: Vmo, start: nat, i: nat)
    requires Good(r, v) && Good(s, w) && OnlyFresh(r, s) && start + w.n <= v.n && i < w.n
    requires SlotOf(s, w, i) == SliceFrames(r, v, start, w.n)[i]
    ensures PageBytes(s, w, i) == if HasPage(v, start + i) then PageBytes(r, v, start + i) else ZeroPage()
  {
    hide MetaOk, MetaPagesNeeded, MetaFrame, Slot;
    GoodFacts(r, v);
    GoodFacts(s, w);
    assert GoodSlot(r, v, start + i);
  }

  /** An object over a page range of another, sharing the frames the parent has there at this moment. */
  method CreateChildSlice(v: MemoryObject, offset: nat, size: nat) returns (r: Result<MemoryObject>)
    requires v.Valid()
    modifies v.mem
    ensures v.Valid() && v.committed == old(v.committed) && v.Contents() == old(v.Contents())
    ensures r == Err(InvalidArgs) <==>
      offset % PAGE_SIZE != 0 || size % PAGE_SIZE != 0 || offset + size > v.size || size == 0
    ensures r.Err? && r.error != InvalidArgs ==> r.error == NoMemory && Exhausted(v.mem)
    ensures r.Ok? ==> fresh(r.value) && r.value.mem == v.mem && r.value.size == size && r.value.Valid()
    ensures r.Ok? ==> r.value.Contents() == Visible(v.Contents(), v.View())[offset..offset + size]
  {
    hide Blank, MetaFresh, Phys.PhysMemory.Valid, MetaPagesNeeded, Good, Content, Filled, OnlyFresh, MetaOk, Slot;
    hide Visible, HasPage;
    if offset % PAGE_SIZE != 0 || size % PAGE_SIZE != 0 {
      return Err(InvalidArgs);
    }
    if offset + size > v.size || size == 0 {
      return Err(InvalidArgs);
    }
    ghost var ram, x := RamOf(v.mem), v.View();
    var n, start := size / PAGE_SIZE, offset / PAGE_SIZE;
    GoodFacts(ram, x);
    SmallerObject(ram, x, n, start);
    var frames := TakenFrames(v, start, n);
    var meta := AllocMeta(v.mem, n, n);
    FreshKeeps(ram, x, RamOf(v.mem));
    if meta.None? {
      return Err(NoMemory);
    }
    FillSlots(v.mem, ram, meta.value, n, frames);
    FreshKeeps(ram, x, RamOf(v.mem));
    SliceFramesDistinct(ram, x, start, n);
    FilledFillable(ram, RamOf(v.mem), meta.value, n, frames);
    FilledGood(RamOf(v.mem), meta.value, n, frames, Uncommitted(n));
    var w := new MemoryObject(v.mem, meta.value, size, Uncommitted(n));
    assert w.View() == Vmo(meta.value, n, Uncommitted(n));
    SliceBytes(ram, x, RamOf(v.mem), w.View(), start);
    assert start * PAGE_SIZE == offset && (start + n) * PAGE_SIZE == offset + size;
    return Ok(w);
  }

  lemma SmallerObject(r: Ram, v: Vmo, n: nat, start: nat)
    requires Good(r, v) && start + n <= v.n
    ensures n <= MAX_PAGES
  {
  }

  /** Reads the parent's owned pages, or all its slots if it borrows. */
  method TakenFrames(v: MemoryObject, start: nat, n: nat) returns (frames: seq<Option<nat>>)
    requires v.Valid() && start + n <= v.size / PAGE_SIZE
    ensures frames == SliceFrames(RamOf(v.mem), v.View(), start, n)
  {
    hide Good, MetaOk, Slot, Phys.PhysMemory.Valid;
    GoodFacts(RamOf(v.mem), v.View());
    frames := [];
    for i := 0 to n
      invariant |frames| == i
      invariant forall j: nat :: j < i ==> frames[j] == SliceFrames(RamOf(v.mem), v.View(), start, n)[j]
    {
      var f;
      if v.committed != [] {
        f := v.committed[start + i];
        CommittedIsSlot(RamOf(v.mem), v.View(), start + i);
      } else {
        f := v.PageSlot(start + i);
      }
      frames := frames + [f];
    }
  }

  lemma CommittedIsSlot(r: Ram, v: Vmo, i: nat)
    requires Good(r, v) && i < v.n && i < |v.committed|
    ensures v.committed[i].Some? ==> SlotOf(r, v, i) == v.committed[i]
  {
    assert GoodSlot(r, v, i);
  }
}
