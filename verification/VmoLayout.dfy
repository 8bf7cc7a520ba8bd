/**
 * Where a memory object keeps its page slots (kernel/src/memory/vmo.rs): the first metadata page
 * holds the header, its share of the slots and a table of up to eight further metadata pages.
 * All metadata accesses are aligned 8-byte words; a slot is a presence word and an address word.
 */
module VmoLayout {
  import opened Common
  import opened Arith

  const HEADER_SIZE: nat := 48
  const SLOT_SIZE: nat := 16
  const PA_TABLE_SIZE: nat := 64
  const PA_TABLE_BASE: nat := PAGE_SIZE - PA_TABLE_SIZE
  const SLOTS_PER_PAGE: nat := (PA_TABLE_BASE - HEADER_SIZE) / SLOT_SIZE
  const MAX_PAGES: nat := 2048
  const WORDS: nat := 512

  /** Content of one page frame; a frame just handed out reads as zero either way. */
  datatype Frame = Zeroed | Words(words: seq<nat>) | Data(data: seq<nat>)

  function WordsOf(f: Frame): (w: seq<nat>)
    ensures |w| == WORDS
  {
    if f.Words? && |f.words| == WORDS then f.words else seq(WORDS, _ => 0)
  }

  function BytesOf(f: Frame): (b: seq<nat>)
    ensures |b| == PAGE_SIZE
  {
    if f.Data? && |f.data| == PAGE_SIZE then f.data else seq(PAGE_SIZE, _ => 0)
  }

  function MetaPagesNeeded(pages: nat): nat {
    (pages + SLOTS_PER_PAGE - 1) / SLOTS_PER_PAGE
  }

  /** Which metadata page holds page `i`'s slot. */
  function MetaIndex(i: nat): nat {
    i / SLOTS_PER_PAGE
  }

  /** Byte offset of page `i`'s slot within its metadata page. */
  function SlotOffset(i: nat): nat {
    HEADER_SIZE + (i % SLOTS_PER_PAGE) * SLOT_SIZE
  }

  /** Byte offset of the table entry naming metadata page `m`. */
  function TableOffset(m: nat): int {
    PA_TABLE_BASE + (m - 1) * 8
  }

  lemma LayoutConstants()
    ensures SLOTS_PER_PAGE == 249 && PA_TABLE_BASE == 4032
  {
  }

  /** 249 slots fit exactly between header and table, and the table holds exactly the pages 2048 slots need. */
  lemma LayoutIsTight()
    ensures MetaPagesNeeded(MAX_PAGES) == 9 && TableOffset(9 - 1) + 8 == PAGE_SIZE
    ensures SlotOffset(SLOTS_PER_PAGE - 1) + SLOT_SIZE == PA_TABLE_BASE
  {
    LayoutConstants();
  }

  /** Every slot of an object lies in one of its metadata pages, between header and table. */
  lemma SlotInBounds(n: nat, i: nat)
    requires i < n <= MAX_PAGES
    ensures MetaIndex(i) < MetaPagesNeeded(n) <= 9
    ensures HEADER_SIZE <= SlotOffset(i) && SlotOffset(i) + SLOT_SIZE <= PA_TABLE_BASE && SlotOffset(i) % 8 == 0
    ensures forall m :: 1 <= m < MetaPagesNeeded(n) ==>
      PA_TABLE_BASE <= TableOffset(m) && TableOffset(m) + 8 <= PAGE_SIZE
  {
    LayoutConstants();
    assert MetaPagesNeeded(n) == (n + 248) / 249;
  }

  /** Two slots of an object are the same slot or do not overlap. */
  lemma SlotsDisjoint(i: nat, j: nat)
    requires i != j && MetaIndex(i) == MetaIndex(j)
    ensures SlotOffset(i) + SLOT_SIZE <= SlotOffset(j) || SlotOffset(j) + SLOT_SIZE <= SlotOffset(i)
  {
    LayoutConstants();
    assert i == 249 * (i / 249) + i % 249 && j == 249 * (j / 249) + j % 249;
  }

  // ----- metadata pages in memory -----

  type Pages = map<nat, Frame>

  function SlotWord(i: nat): (k: nat)
    ensures 6 <= k && k + 1 < 504
  {
    LayoutConstants();
    SlotOffset(i) / 8
  }

  lemma SlotWordValue(i: nat)
    ensures SlotWord(i) == 6 + 2 * (i % SLOTS_PER_PAGE)
  {
    LayoutConstants();
  }

  lemma SlotWordsDisjoint(i: nat, j: nat)
    requires i != j && MetaIndex(i) == MetaIndex(j)
    ensures SlotWord(i) + 1 < SlotWord(j) || SlotWord(j) + 1 < SlotWord(i)
  {
    SlotWordValue(i);
    SlotWordValue(j);
    SlotsDisjoint(i, j);
  }

  /** Frame of metadata page `m`: the first is known, the others are in the first one's table. */
  function MetaFrame(pages: Pages, meta: nat, m: nat): nat
    requires meta in pages && m <= 8
  {
    if m == 0 then meta else WordsOf(pages[meta])[TableOffset(m) / 8]
  }

  /** Metadata pages are present and all different. */
  predicate MetaOk(pages: Pages, meta: nat, n: nat) {
    && meta in pages && n <= MAX_PAGES
    && MetaPagesNeeded(n) <= 9
    && (forall m: nat :: m < MetaPagesNeeded(n) ==> MetaFrame(pages, meta, m) in pages)
    && (forall l: nat, m: nat :: l < m < MetaPagesNeeded(n) ==> MetaFrame(pages, meta, l) != MetaFrame(pages, meta, m))
  }

  /** Frame holding page `i`'s slot. */
  function SlotFrame(pages: Pages, meta: nat, n: nat, i: nat): (f: nat)
    requires MetaOk(pages, meta, n) && i < n
    ensures f in pages
  {
    SlotInBounds(n, i);
    MetaFrame(pages, meta, MetaIndex(i))
  }

  /** The slot of page `i`: nothing committed there, or the frame that is. */
  function Slot(pages: Pages, meta: nat, n: nat, i: nat): Option<nat>
    requires MetaOk(pages, meta, n) && i < n
  {
    var w := WordsOf(pages[SlotFrame(pages, meta, n, i)]);
    if w[SlotWord(i)] == 0 then None else Some(w[SlotWord(i) + 1])
  }

  function PutWords(pages: Pages, f: nat, k: nat, a: nat, b: nat): Pages
    requires f in pages && k + 1 < WORDS
  {
    pages[f := Words(WordsOf(pages[f])[k := a][k + 1 := b])]
  }

  function PutSlot(pages: Pages, meta: nat, n: nat, i: nat, pa: nat): Pages
    requires MetaOk(pages, meta, n) && i < n
  {
    PutWords(pages, SlotFrame(pages, meta, n, i), SlotWord(i), 1, pa)
  }

  /** Writing a slot changes that slot and no other, and no table entry. */
  lemma PutSlotSlots(pages: Pages, meta: nat, n: nat, i: nat, pa: nat)
    requires MetaOk(pages, meta, n) && i < n
    ensures var after := PutSlot(pages, meta, n, i, pa);
      && MetaOk(after, meta, n)
      && (forall m: nat :: m < MetaPagesNeeded(n) ==> MetaFrame(after, meta, m) == MetaFrame(pages, meta, m))
      && (forall j: nat :: j < n ==> Slot(after, meta, n, j) == if j == i then Some(pa) else Slot(pages, meta, n, j))
  {
    PutWordsMeta(pages, meta, n, SlotFrame(pages, meta, n, i), SlotWord(i), 1, pa);
    forall j: nat | j < n
      ensures Slot(PutSlot(pages, meta, n, i, pa), meta, n, j) == if j == i then Some(pa) else Slot(pages, meta, n, j)
    {
      PutSlotAt(pages, meta, n, i, pa, j);
    }
  }

  lemma PutSlotAt(pages: Pages, meta: nat, n: nat, i: nat, pa: nat, j: nat)
    requires MetaOk(pages, meta, n) && i < n && j < n && MetaOk(PutSlot(pages, meta, n, i, pa), meta, n)
    requires forall m: nat :: m < MetaPagesNeeded(n) ==>
      MetaFrame(PutSlot(pages, meta, n, i, pa), meta, m) == MetaFrame(pages, meta, m)
    ensures Slot(PutSlot(pages, meta, n, i, pa), meta, n, j) == if j == i then Some(pa) else Slot(pages, meta, n, j)
  {
    hide SlotWord, MetaFrame, MetaOk, SlotFrame, MetaPagesNeeded;
    var after := PutSlot(pages, meta, n, i, pa);
    SlotFrameSame(pages, after, meta, n, j);
    if j != i {
      SlotFramesDiffer(pages, meta, n, i, j);
    }
  }

  lemma SlotFrameSame(pages: Pages, after: Pages, meta: nat, n: nat, j: nat)
    requires MetaOk(pages, meta, n) && MetaOk(after, meta, n) && j < n
    requires forall m: nat :: m < MetaPagesNeeded(n) ==> MetaFrame(after, meta, m) == MetaFrame(pages, meta, m)
    ensures SlotFrame(after, meta, n, j) == SlotFrame(pages, meta, n, j)
  {
    hide MetaFrame, MetaIndex;
    SlotInBounds(n, j);
  }

  /** Different slots are in different metadata pages or at separate words. */
  lemma SlotFramesDiffer(pages: Pages, meta: nat, n: nat, i: nat, j: nat)
    requires MetaOk(pages, meta, n) && i < n && j < n && i != j
    ensures SlotFrame(pages, meta, n, i) != SlotFrame(pages, meta, n, j)
      || SlotWord(i) + 1 < SlotWord(j) || SlotWord(j) + 1 < SlotWord(i)
  {
    hide MetaFrame, SlotWord, MetaIndex;
    SlotInBounds(n, i);
    SlotInBounds(n, j);
    if MetaIndex(i) == MetaIndex(j) {
      SlotWordsDisjoint(i, j);
    } else if MetaIndex(i) < MetaIndex(j) {
      assert MetaFrame(pages, meta, MetaIndex(i)) != MetaFrame(pages, meta, MetaIndex(j));
    }
  }

  /** Words below the table leave the metadata pages where they are. */
  lemma PutWordsMeta(pages: Pages, meta: nat, n: nat, f: nat, k: nat, a: nat, b: nat)
    requires MetaOk(pages, meta, n) && f in pages && k + 1 < 504
    ensures var after := PutWords(pages, f, k, a, b);
      && MetaOk(after, meta, n)
      && (forall m: nat :: m < MetaPagesNeeded(n) ==> MetaFrame(after, meta, m) == MetaFrame(pages, meta, m))
  {
    var after := PutWords(pages, f, k, a, b);
    forall m: nat | m < MetaPagesNeeded(n) ensures MetaFrame(after, meta, m) == MetaFrame(pages, meta, m) {
      LayoutConstants();
      assert m > 0 ==> TableOffset(m) / 8 >= 504;
    }
  }

  /** Header words (0 to 5) are no part of any slot. */
  lemma PutHeaderSlots(pages: Pages, meta: nat, n: nat, k: nat, a: nat, b: nat)
    requires MetaOk(pages, meta, n) && k < 5
    ensures var after := PutWords(pages, meta, k, a, b);
      && MetaOk(after, meta, n)
      && (forall m: nat :: m < MetaPagesNeeded(n) ==> MetaFrame(after, meta, m) == MetaFrame(pages, meta, m))
      && (forall j: nat :: j < n ==> Slot(after, meta, n, j) == Slot(pages, meta, n, j))
  {
    hide SlotWord, MetaFrame, MetaPagesNeeded, SlotFrame;
    PutWordsMeta(pages, meta, n, meta, k, a, b);
    forall j: nat | j < n ensures Slot(PutWords(pages, meta, k, a, b), meta, n, j) == Slot(pages, meta, n, j) {
      SlotFrameSame(pages, PutWords(pages, meta, k, a, b), meta, n, j);
    }
  }
}
