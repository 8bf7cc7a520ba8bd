/**
 * The tagged page-frame allocator of kernel/src/arch/aarch64/phys.rs.
 *
 * A frame is named by its physical address; the tag array, indexed by frame number
 * in the source, is a map from frame address to tag.  `P` is the content of one frame
 * (512 descriptor words for page tables, 4096 bytes for memory objects).
 * The compare-and-swap loops run with interrupts masked on one core, so each
 * method is one atomic step.
 */
module Phys {
  import opened Common

  const RAM_BASE: nat := 0x4000_0000
  const RAM_SIZE: nat := 0x2000_0000
  const MAX_LIVE_PT: nat := 64

  datatype PageTag = Free | PageTable | VmoData | VmarMeta | KernelStack | KernelHeap

  /** A page-aligned address inside the window covered by the tag array. */
  predicate IsFrame(pa: nat) {
    pa % PAGE_SIZE == 0 && RAM_BASE <= pa < RAM_BASE + RAM_SIZE
  }

  /** First slot of the live-table tracker that holds `pa` or is empty. */
  function FirstSlot(live: seq<nat>, pa: nat): (k: nat)
    ensures k <= |live|
    ensures forall j :: 0 <= j < k ==> live[j] != 0 && live[j] != pa
    ensures k < |live| ==> live[k] == 0 || live[k] == pa
  {
    if live == [] || live[0] == 0 || live[0] == pa then 0 else 1 + FirstSlot(live[1..], pa)
  }

  class PhysMemory<P(==)> {
    const zero: P
    var cursor: nat
    const end: nat
    var tags: map<nat, PageTag>
    var live: seq<nat>
    var pages: map<nat, P>

    ghost predicate Valid()
      reads this
    {
      && |live| == MAX_LIVE_PT
      && cursor % PAGE_SIZE == 0
      && (cursor == 0 || RAM_BASE <= cursor)
      && end <= RAM_BASE + RAM_SIZE
      && tags.Keys == pages.Keys
      && (forall pa: nat :: pa in tags <==> IsFrame(pa))
      && LiveAreTables()
    }

    /** The tracker names only frames tagged as page tables, none of them twice. */
    ghost predicate LiveAreTables()
      reads this
    {
      && (forall k :: 0 <= k < |live| && live[k] != 0 ==> live[k] in tags && tags[live[k]] == PageTable)
      && (forall j, k :: 0 <= j < k < |live| && live[j] != 0 ==> live[j] != live[k])
    }

    /**
     * `init`: every frame is free and the cursor stands at `first`, the first page
     * past the kernel image and the device tree.
     */
    constructor (zero: P, first: nat, end: nat, pages: map<nat, P>)
      requires first % PAGE_SIZE == 0 && RAM_BASE <= first && end <= RAM_BASE + RAM_SIZE
      requires forall pa: nat :: pa in pages <==> IsFrame(pa)
      ensures Valid()
      ensures this.zero == zero && cursor == first && this.end == end && this.pages == pages
      ensures forall pa :: pa in tags ==> tags[pa] == Free
    {
      this.zero := zero;
      this.cursor := first;
      this.end := end;
      this.pages := pages;
      tags := map pa | pa in pages :: Free;
      live := seq(MAX_LIVE_PT, _ => 0);
    }

    /**
     * `alloc_page`: takes the lowest free frame at or above the cursor, zeroes it and
     * moves the cursor past it; fails exactly when there is none.  The guard
     * against handing out a tracked page table never fires (the assertion below).
     */
    method AllocPage(tag: PageTag) returns (r: Result<nat>)
      requires Valid() && tag != Free
      modifies this
      ensures Valid() && live == old(live)
      ensures r.Ok? ==>
        && IsFrame(r.value) && old(cursor) <= r.value < end && cursor == r.value + PAGE_SIZE
        && r.value in old(pages) && r.value in old(tags) && old(tags)[r.value] == Free && r.value !in live
        && tags == old(tags)[r.value := tag]
        && pages == old(pages)[r.value := zero]
        && (forall pa :: pa in old(tags) && old(cursor) <= pa < r.value ==> old(tags)[pa] != Free)
      ensures r.Err? ==>
        && r.error == NoMemory && tags == old(tags) && pages == old(pages) && cursor >= old(cursor)
        && (old(cursor) == 0 || forall pa :: pa in old(tags) && old(cursor) <= pa < end ==> old(tags)[pa] != Free)
        && (cursor == 0 || cursor >= end)
    {
      while true
        invariant Valid()
        invariant tags == old(tags) && live == old(live) && pages == old(pages)
        invariant old(cursor) <= cursor && (old(cursor) == 0 ==> cursor == 0)
        invariant forall pa :: pa in tags && old(cursor) <= pa < cursor ==> tags[pa] != Free
        decreases end - cursor
      {
        var pa := cursor;
        if pa == 0 || pa >= end {
          return Err(NoMemory);
        }
        if tags[pa] != Free {
          cursor := pa + PAGE_SIZE;
          continue;
        }
        assert pa !in live;
        cursor := pa + PAGE_SIZE;
        tags := tags[pa := tag];
        pages := pages[pa := zero];
        return Ok(pa);
      }
    }

    /** A store into the frame `pa`. */
    method Store(pa: nat, content: P)
      requires Valid() && pa in pages
      modifies this`pages
      ensures Valid() && pages == old(pages)[pa := content]
    {
      pages := pages[pa := content];
    }

    /**
     * `free_page`: a frame that is already free makes the kernel panic, so the
     * caller must hold it.  Frees the tag and forgets the tracker entry; the
     * cursor does not move back, so the frame is never handed out again.
     */
    method FreePage(pa: nat)
      requires Valid() && pa in tags && tags[pa] != Free
      modifies this`tags, this`live
      ensures Valid()
      ensures tags == old(tags)[pa := Free]
      ensures pa !in live && forall q :: q != 0 && q != pa ==> (q in live <==> q in old(live))
    {
      if tags[pa] == PageTable {
        UnregisterPtPage(pa);
      }
      tags := tags[pa := Free];
    }

    /** `register_pt_page`: a full tracker silently drops the frame. */
    method RegisterPtPage(pa: nat)
      requires Valid() && pa in tags && tags[pa] == PageTable && pa !in live
      modifies this`live
      ensures Valid()
      ensures var k := FirstSlot(old(live), pa);
        live == if k < |old(live)| then old(live)[k := pa] else old(live)
    {
      var k := 0;
      while k < |live|
        invariant 0 <= k <= |live| && live == old(live)
        invariant k <= FirstSlot(live, pa)
      {
        if live[k] == pa {
          return;
        }
        if live[k] == 0 {
          live := live[k := pa];
          return;
        }
        k := k + 1;
      }
    }

    /** `unregister_pt_page`. */
    method UnregisterPtPage(pa: nat)
      requires Valid() && pa in tags
      modifies this`live
      ensures Valid() && pa !in live
      ensures forall q :: q != 0 && q != pa ==> (q in live <==> q in old(live))
    {
      var k := 0;
      while k < |live|
        invariant 0 <= k <= |live| && live == old(live)
        invariant pa !in live[..k]
      {
        if live[k] == pa {
          live := live[k := 0];
          assert forall q :: q != 0 && q != pa && q in old(live) ==> q in live by {
            forall q | q != 0 && q != pa && q in old(live) ensures q in live {
              var j :| 0 <= j < |live| && old(live)[j] == q;
              assert live[j] == q;
            }
          }
          return;
        }
        k := k + 1;
      }
    }
  }
}
