/** The slab allocator over the page-frame allocator (kernel/src/arch/aarch64/slab.rs), used sequentially. */
module SlabAllocation {
  import opened Common
  import opened Phys
  import opened SlabSpec

  /** The frame allocator is past its last free frame (or was never given any memory). */
  ghost predicate NoFrameLeft(tags: map<nat, PageTag>, cursor: nat, end: nat) {
    cursor == 0 || forall pa :: pa in tags && cursor <= pa < end ==> tags[pa] != Free
  }

  class SlabAllocator {
    const frames: PhysMemory<()>
    const heads: array<nat>
    var words: map<nat, nat>
    ghost var pages: seq<seq<nat>>
    ghost var free: seq<seq<nat>>
    ghost var live: seq<set<nat>>

    ghost function View(): Slab
      reads this, heads
    {
      Slab(heads[..], words, pages, free, live)
    }

    /** The pages cut into blocks are tagged as kernel heap, so they are never handed out again. */
    ghost predicate Owned()
      reads this, frames
    {
      forall c: nat :: c < |pages| ==> forall p :: p in pages[c] ==> p in frames.tags && frames.tags[p] == KernelHeap
    }

    ghost predicate Valid()
      reads this, heads, frames
    {
      heads.Length == CLASSES && frames.Valid() && Owned() && Inv(View())
    }

    constructor (frames: PhysMemory<()>)
      requires frames.Valid()
      ensures Valid() && this.frames == frames && fresh(heads)
      ensures forall c: nat :: c < CLASSES ==> live[c] == {}
    {
      this.frames := frames;
      heads := new nat[CLASSES](_ => 0);
      words := map[];
      pages, free, live := seq(CLASSES, _ => []), seq(CLASSES, _ => []), seq(CLASSES, _ => {});
      new;
      EmptyInv(View());
    }

    /** Cuts a fresh page into a free list for an empty class. */
    method Refill(c: nat) returns (ok: bool)
      requires Valid() && c < CLASSES && free[c] == []
      modifies this, heads, frames
      ensures Valid() && live == old(live)
      ensures ok ==> free[c] != [] && pages == old(pages)[c := pages[c]] && |pages[c]| == |old(pages)[c]| + 1
      ensures !ok ==> View() == old(View()) && NoFrameLeft(old(frames.tags), old(frames.cursor), frames.end)
    {
      hide Inv, Phys.PhysMemory.Valid;
      var r := frames.AllocPage(KernelHeap);
      if r.Err? {
        return false;
      }
      var page := r.value;
      ghost var s := View();
      InvSized(s);
      assert NewPage(s, page);
      var w := Thread(page, c, heads[c]);
      words := w;
      heads[c] := page + PAGE_HEADER;
      ghost var t := Refilled(s, c, page, w);
      RefillKeeps(s, c, page, w);
      pages, free := t.pages, t.free;
      assert View() == t;
      return true;
    }

    /** The page's header word and the links of its blocks. */
    method Thread(page: nat, c: nat, prev: nat) returns (w: map<nat, nat>)
      requires c < CLASSES
      ensures Threaded(w, page, c, BlocksPerPage(c)) && OnlyInPage(words, w, page)
    {
      hide Block, BlocksPerPage;
      var n := BlocksPerPage(c);
      w := words[page := prev];
      for i := 0 to n - 1
        invariant Threaded(w, page, c, i) && OnlyInPage(words, w, page)
      {
        BlockInPage(page, c, i);
        ThreadStep(w, page, c, i, Block(page, c, i + 1));
        w := w[Block(page, c, i) := Block(page, c, i + 1)];
      }
      BlockInPage(page, c, n - 1);
      ThreadStep(w, page, c, n - 1, 0);
      w := w[Block(page, c, n - 1) := 0];
    }

    /** Hands out a block for the layout, or 0. */
    method Allocate(size: nat, align: nat) returns (a: nat)
      requires Valid()
      modifies this, heads, frames
      ensures Valid()
      ensures a == 0 ==> live == old(live)
      ensures a == 0 && align <= 64 && size <= 2048 ==> (
        && ClassIndex(size, align).Some? && old(free)[ClassIndex(size, align).value] == []
        && NoFrameLeft(old(frames.tags), old(frames.cursor), frames.end))
      ensures a != 0 ==> align <= 64 && ClassIndex(size, align).Some?
      ensures a != 0 ==> (
        var c := ClassIndex(size, align).value;
        a !in old(live)[c] && live == old(live)[c := old(live)[c] + {a}])
    {
      hide Inv, Phys.PhysMemory.Valid;
      InvSized(View());
      if align > 64 {
        return 0;
      }
      var ci := ClassIndex(size, align);
      if ci.None? {
        return 0;
      }
      var c := ci.value;
      HeadTells(View(), c);
      if heads[c] == 0 {
        var ok := Refill(c);
        InvSized(View());
        HeadTells(View(), c);
        if heads[c] == 0 {
          return 0;
        }
      }
      ghost var s := View();
      PopKeeps(s, c);
      a := heads[c];
      heads[c] := words[a];
      ghost var t := Popped(s, c);
      free, live := t.free, t.live;
      assert View() == t;
    }

    /** Takes back a block that was handed out for the same layout. */
    method Deallocate(a: nat, size: nat, align: nat)
      requires Valid()
      requires ClassIndex(size, align).Some? ==> a in live[ClassIndex(size, align).value]
      modifies this, heads
      ensures Valid() && pages == old(pages)
      ensures live == if ClassIndex(size, align).None? then old(live) else
        (var c := ClassIndex(size, align).value; old(live)[c := old(live)[c] - {a}])
    {
      hide Inv, Phys.PhysMemory.Valid;
      InvSized(View());
      var ci := ClassIndex(size, align);
      if ci.None? {
        return;
      }
      var c := ci.value;
      ghost var s := View();
      PushKeeps(s, c, a);
      words := words[a := heads[c]];
      heads[c] := a;
      ghost var t := Pushed(s, c, a);
      free, live := t.free, t.live;
      assert View() == t;
    }

    /** The owner of a block of class `c` writes the bytes `from..to` of it, which changes the words they touch. */
    method OwnerWrite(c: nat, a: nat, from: nat, to: nat, after: map<nat, nat>)
      requires Valid() && c < CLASSES && a in live[c] && a <= from <= to <= a + ClassSize(c)
      requires forall x :: x in words && !WordTouches(x, from, to) ==> x in after && after[x] == words[x]
      modifies this`words
      ensures Valid() && words == after
    {
      hide Inv, Phys.PhysMemory.Valid;
      OwnerWriteKeeps(View(), c, a, from, to, after);
      words := after;
    }
  }

  lemma EmptyInv(s: Slab)
    requires s == Slab(seq(CLASSES, _ => 0), map[], seq(CLASSES, _ => []), seq(CLASSES, _ => []), seq(CLASSES, _ => {}))
    ensures Inv(s)
  {
    forall c: nat | c < CLASSES ensures GoodClass(s, c) {
      NoBlocks(c);
    }
  }

  lemma InvSized(s: Slab)
    requires Inv(s)
    ensures Sized(s)
  {
  }

  /** A zero head means an empty list. */
  lemma HeadTells(s: Slab, c: nat)
    requires Inv(s) && c < CLASSES
    ensures s.heads[c] == 0 <==> s.free[c] == []
  {
    assert GoodClass(s, c);
    if s.free[c] != [] {
      PopKeeps(s, c);
    }
  }

  lemma ThreadStep(w: map<nat, nat>, page: nat, c: nat, i: nat, next: nat)
    requires c < CLASSES && i < BlocksPerPage(c) && Threaded(w, page, c, i)
    requires next == if i + 1 < BlocksPerPage(c) then Block(page, c, i + 1) else 0
    ensures Threaded(w[Block(page, c, i) := next], page, c, i + 1)
  {
    hide Block;
    var u := w[Block(page, c, i) := next];
    forall k: nat | k < i + 1 ensures ThreadedAt(u, page, c, k) {
      if k < i {
        BlocksApart(page, c, k, i);
        assert ThreadedAt(w, page, c, k);
      }
    }
  }
}
