/**
 * The kernel heap's slab allocator (kernel/src/arch/aarch64/slab.rs) as a value: per size class a
 * free list threaded through the blocks, the blocks handed out, and the pages both were cut from.
 */
module SlabSpec {
  import opened Common
  import opened Arith

  const CLASSES: nat := 7
  const PAGE_HEADER: nat := 8

  /** Bytes in a word of memory. */
  const WORD: nat := 8

  function ClassSize(c: nat): (s: nat)
    requires c < CLASSES
    ensures 32 <= s <= 2048 && s % 32 == 0
  {
    [32, 64, 128, 256, 512, 1024, 2048][c]
  }

  function BlocksPerPage(c: nat): (n: nat)
    requires c < CLASSES
    ensures 1 <= n <= 127 && PAGE_HEADER + n * ClassSize(c) <= PAGE_SIZE
  {
    (PAGE_SIZE - PAGE_HEADER) / ClassSize(c)
  }

  /** The smallest class whose blocks hold `size` bytes and reach `align`. */
  function ClassIndex(size: nat, align: nat): (r: Option<nat>)
    ensures r.Some? ==> r.value < CLASSES && size <= ClassSize(r.value) && align <= ClassSize(r.value)
    ensures r.Some? ==> forall c: nat :: c < r.value ==> size > ClassSize(c) || align > ClassSize(c)
    ensures r.None? <==> size > 2048 || align > 2048
  {
    var need := if size >= align then size else align;
    if need <= 32 then Some(0) else if need <= 64 then Some(1) else if need <= 128 then Some(2)
      else if need <= 256 then Some(3)
    else if need <= 512 then Some(4) else if need <= 1024 then Some(5) else if need <= 2048 then Some(6) else None
  }

  /** Block `i` of a page of class `c`. */
  function Block(page: nat, c: nat, i: nat): nat
    requires c < CLASSES
  {
    page + PAGE_HEADER + i * ClassSize(c)
  }

  function PageBlocks(page: nat, c: nat): (b: seq<nat>)
    requires c < CLASSES
    ensures |b| == BlocksPerPage(c) && forall i :: 0 <= i < |b| ==> b[i] == Block(page, c, i)
  {
    seq(BlocksPerPage(c), i requires 0 <= i < BlocksPerPage(c) => Block(page, c, i))
  }

  /** Blocks of a page lie between its header and its end, one after the other. */
  lemma BlockInPage(page: nat, c: nat, i: nat)
    requires c < CLASSES && i < BlocksPerPage(c)
    ensures page + PAGE_HEADER <= Block(page, c, i) && Block(page, c, i) + ClassSize(c) <= page + PAGE_SIZE
  {
    MulMono(i + 1, BlocksPerPage(c), ClassSize(c));
    assert (i + 1) * ClassSize(c) == i * ClassSize(c) + ClassSize(c);
    MulMono(0, i, ClassSize(c));
  }

  lemma MulMono(a: nat, b: nat, d: nat)
    requires a <= b
    ensures a * d <= b * d
  {
    if a < b {
      MulAtLeast(b - a, d);
      assert b * d == a * d + (b - a) * d;
    }
  }

  lemma BlocksApart(page: nat, c: nat, i: nat, j: nat)
    requires c < CLASSES && i < j
    ensures Block(page, c, i) + ClassSize(c) <= Block(page, c, j)
  {
    MulMono(i + 1, j, ClassSize(c));
    assert (i + 1) * ClassSize(c) == i * ClassSize(c) + ClassSize(c);
  }

  // ----- state -----

  /** `heads` and `words` are the allocator's; the other fields say what they stand for. */
  datatype Slab = Slab(heads: seq<nat>, words: map<nat, nat>, pages: seq<seq<nat>>, free: seq<seq<nat>>,
    live: seq<set<nat>>)

  predicate Sized(s: Slab) {
    |s.heads| == CLASSES && |s.pages| == CLASSES && |s.free| == CLASSES && |s.live| == CLASSES
  }

  /** The list starts at `head` and runs through the first words of its blocks to zero. */
  predicate Chain(words: map<nat, nat>, head: nat, list: seq<nat>) {
    && head == (if list == [] then 0 else list[0])
    && (forall k :: 0 <= k < |list| ==> Linked(words, list, k))
  }

  predicate Linked(words: map<nat, nat>, list: seq<nat>, k: nat)
    requires k < |list|
  {
    list[k] in words && words[list[k]] == if k + 1 < |list| then list[k + 1] else 0
  }

  predicate IsPage(p: nat) {
    p > 0 && p % PAGE_SIZE == 0
  }

  ghost predicate AllPages(pages: seq<nat>) {
    forall p :: p in pages ==> IsPage(p)
  }

  /** All blocks cut from the pages of class `c`. */
  ghost function Blocks(pages: seq<nat>, c: nat): set<nat>
    requires c < CLASSES
  {
    set p, i | p in pages && i in Below(BlocksPerPage(c)) :: Block(p, c, i)
  }

  /** Class `c`: a chain of different free blocks, and free and live blocks are all the blocks. */
  ghost predicate GoodClass(s: Slab, c: nat)
    requires Sized(s) && c < CLASSES
  {
    && Chain(s.words, s.heads[c], s.free[c]) && Distinct(s.free[c])
    && Elements(s.free[c]) !! s.live[c]
    && Elements(s.free[c]) + s.live[c] == Blocks(s.pages[c], c)
    && Distinct(s.pages[c]) && AllPages(s.pages[c])
  }

  ghost predicate PagesApart(s: Slab, c: nat, d: nat)
    requires Sized(s) && c < CLASSES && d < CLASSES
  {
    c != d ==> forall p :: p in s.pages[c] ==> p !in s.pages[d]
  }

  ghost predicate Inv(s: Slab) {
    && Sized(s)
    && (forall c: nat :: c < CLASSES ==> GoodClass(s, c))
    && (forall c: nat, d: nat :: c < CLASSES && d < CLASSES ==> PagesApart(s, c, d))
  }

  // ----- what the invariant means -----

  ghost predicate IsBlock(s: Slab, c: nat, a: nat)
    requires Sized(s) && c < CLASSES
  {
    a in s.live[c] || a in s.free[c]
  }

  /** A block's page and position. */
  lemma BlockPlace(s: Slab, c: nat, a: nat) returns (p: nat, i: nat)
    requires Inv(s) && c < CLASSES && IsBlock(s, c, a)
    ensures p in s.pages[c] && i < BlocksPerPage(c) && a == Block(p, c, i) && IsPage(p)
  {
    assert GoodClass(s, c);
    assert a in Elements(s.free[c]) + s.live[c];
    p, i :| p in s.pages[c] && i in Below(BlocksPerPage(c)) && Block(p, c, i) == a;
  }

  lemma PageGap(p: nat, q: nat)
    requires IsPage(p) && IsPage(q) && p < q
    ensures p + PAGE_SIZE <= q
  {
    assert p == p / PAGE_SIZE * PAGE_SIZE && q == q / PAGE_SIZE * PAGE_SIZE;
  }

  /** Two different blocks, live or free, of the same or of different classes, never overlap. */
  lemma NoOverlap(s: Slab, c: nat, a: nat, d: nat, b: nat)
    requires Inv(s) && c < CLASSES && d < CLASSES && IsBlock(s, c, a) && IsBlock(s, d, b) && (c != d || a != b)
    ensures a + ClassSize(c) <= b || b + ClassSize(d) <= a
  {
    var p, i := BlockPlace(s, c, a);
    var q, j := BlockPlace(s, d, b);
    BlockInPage(p, c, i);
    BlockInPage(q, d, j);
    if p < q {
      PageGap(p, q);
    } else if q < p {
      PageGap(q, p);
    } else {
      assert PagesApart(s, c, d);
      if i < j {
        BlocksApart(p, c, i, j);
      } else if j < i {
        BlocksApart(p, c, j, i);
      }
    }
  }

  /** A live block is no free block, of any class. */
  lemma LiveIsNotFree(s: Slab, c: nat, a: nat, d: nat)
    requires Inv(s) && c < CLASSES && d < CLASSES && a in s.live[c]
    ensures a !in s.free[d]
  {
    assert GoodClass(s, c);
    if c == d {
      assert a !in Elements(s.free[c]);
    } else if a in s.free[d] {
      NoOverlap(s, c, a, d, a);
    }
  }

  /** Blocks of a class neither appear nor vanish except a page at a time. */
  lemma Conservation(s: Slab, c: nat)
    requires Inv(s) && c < CLASSES
    ensures |s.live[c]| + |s.free[c]| == |s.pages[c]| * BlocksPerPage(c)
  {
    assert GoodClass(s, c);
    DistinctCardinality(s.free[c]);
    assert |Elements(s.free[c]) + s.live[c]| == |Elements(s.free[c])| + |s.live[c]|;
    BlockCount(s.pages[c], c);
  }

  lemma {:induction false} BlockCount(pages: seq<nat>, c: nat)
    requires c < CLASSES && Distinct(pages) && AllPages(pages)
    ensures |Blocks(pages, c)| == |pages| * BlocksPerPage(c)
    decreases |pages|
  {
    hide Blocks, BlocksPerPage, PageBlocks, IsPage;
    if pages == [] {
      NoBlocks(c);
    } else {
      var front, last := pages[..|pages| - 1], pages[|pages| - 1];
      assert pages == front + [last];
      assert last in pages && last !in front;
      BlockCount(front, c);
      NewPageBlocks(front, last, c);
      OneMore(|front|, BlocksPerPage(c));
    }
  }

  lemma OneMore(k: nat, n: nat)
    ensures (k + 1) * n == k * n + n
  {
  }

  lemma NoBlocks(c: nat)
    requires c < CLASSES
    ensures Blocks([], c) == {}
  {
  }

  /** A new page adds exactly its own blocks. */
  lemma NewPageBlocks(pages: seq<nat>, page: nat, c: nat)
    requires c < CLASSES && page !in pages && IsPage(page) && AllPages(pages)
    ensures var own := Elements(PageBlocks(page, c));
      && Blocks(pages + [page], c) == Blocks(pages, c) + own && own !! Blocks(pages, c)
      && |own| == BlocksPerPage(c) && |Blocks(pages + [page], c)| == |Blocks(pages, c)| + BlocksPerPage(c)
    ensures Distinct(PageBlocks(page, c))
  {
    var list := PageBlocks(page, c);
    forall i, j | 0 <= i < j < |list| ensures list[i] != list[j] {
      BlocksApart(page, c, i, j);
    }
    DistinctCardinality(list);
    var own := Elements(list);
    forall a ensures a in Blocks(pages + [page], c) <==> a in Blocks(pages, c) + own {
      BlocksMember(pages, page, c, a);
    }
    forall a | a in own ensures a !in Blocks(pages, c) {
      OwnNotOld(pages, page, c, a);
    }
    assert |Blocks(pages, c) + own| == |Blocks(pages, c)| + |own|;
  }

  lemma BlocksMember(pages: seq<nat>, page: nat, c: nat, a: nat)
    requires c < CLASSES
    ensures a in Blocks(pages + [page], c) <==> a in Blocks(pages, c) + Elements(PageBlocks(page, c))
  {
    if a in Blocks(pages + [page], c) {
      var p, i :| p in pages + [page] && i in Below(BlocksPerPage(c)) && Block(p, c, i) == a;
      if p == page {
        assert PageBlocks(page, c)[i] == a;
      }
    }
    if a in Elements(PageBlocks(page, c)) {
      var i: nat :| i < BlocksPerPage(c) && PageBlocks(page, c)[i] == a;
      assert page in pages + [page] && i in Below(BlocksPerPage(c)) && Block(page, c, i) == a;
    }
    if a in Blocks(pages, c) {
      var p, i :| p in pages && i in Below(BlocksPerPage(c)) && Block(p, c, i) == a;
      assert p in pages + [page];
    }
  }

  lemma OwnNotOld(pages: seq<nat>, page: nat, c: nat, a: nat)
    requires c < CLASSES && page !in pages && IsPage(page) && AllPages(pages)
    requires a in PageBlocks(page, c)
    ensures a !in Blocks(pages, c)
  {
    var i: nat :| i < BlocksPerPage(c) && PageBlocks(page, c)[i] == a;
    BlockInPage(page, c, i);
    forall p, j | p in pages && j in Below(BlocksPerPage(c)) ensures Block(p, c, j) != a {
      BlockInPage(p, c, j);
      if p < page {
        PageGap(p, page);
      } else {
        PageGap(page, p);
      }
    }
  }

  // ----- alignment -----

  /**
   * Blocks start eight bytes into a page at multiples of 32, so a block meets an alignment
   * (a power of two up to 64) exactly when that alignment is at most eight.
   */
  lemma AlignmentMetIff(s: Slab, c: nat, a: nat, align: nat)
    requires Inv(s) && c < CLASSES && IsBlock(s, c, a) && align in {1, 2, 4, 8, 16, 32, 64}
    ensures a % align == 0 <==> align <= 8
  {
    var p, i := BlockPlace(s, c, a);
    var size := ClassSize(c);
    assert size == size / 32 * 32;
    assert i * size == (i * (size / 32)) * 32;
    assert p == p / PAGE_SIZE * PAGE_SIZE;
    ModSteps(p / PAGE_SIZE * 128 + i * (size / 32), align);
    assert a == (p / PAGE_SIZE * 128 + i * (size / 32)) * 32 + 8;
  }

  lemma ModSteps(k: nat, align: nat)
    requires align in {1, 2, 4, 8, 16, 32, 64}
    ensures (k * 32 + 8) % align == 0 <==> align <= 8
  {
    var v := k * 32 + 8;
    if align == 64 {
      DivUnique(v, 64, k / 2, k % 2 * 32 + 8);
    } else if align == 32 {
      DivUnique(v, 32, k, 8);
    } else if align == 16 {
      DivUnique(v, 16, k * 2, 8);
    } else if align == 8 {
      DivUnique(v, 8, k * 4 + 1, 0);
    } else if align == 4 {
      DivUnique(v, 4, k * 8 + 2, 0);
    } else if align == 2 {
      DivUnique(v, 2, k * 16 + 4, 0);
    }
  }

  // ----- steps -----

  /** Chains whose words are untouched stay chains. */
  lemma ChainSame(words: map<nat, nat>, after: map<nat, nat>, head: nat, list: seq<nat>)
    requires Chain(words, head, list)
    requires forall k :: 0 <= k < |list| ==> list[k] in after && list[k] in words && after[list[k]] == words[list[k]]
    ensures Chain(after, head, list)
  {
    forall k | 0 <= k < |list| ensures Linked(after, list, k) {
      assert Linked(words, list, k);
    }
  }

  /** The head block of class `c` handed out. */
  function Popped(s: Slab, c: nat): Slab
    requires Sized(s) && c < CLASSES && s.free[c] != [] && s.free[c][0] in s.words
  {
    var a := s.free[c][0];
    s.(heads := s.heads[c := s.words[a]], free := s.free[c := s.free[c][1..]], live := s.live[c := s.live[c] + {a}])
  }

  /** A block of class `c` given back. */
  function Pushed(s: Slab, c: nat, a: nat): Slab
    requires Sized(s) && c < CLASSES
  {
    s.(words := s.words[a := s.heads[c]], heads := s.heads[c := a], free := s.free[c := [a] + s.free[c]],
       live := s.live[c := s.live[c] - {a}])
  }

  lemma PopKeeps(s: Slab, c: nat)
    requires Inv(s) && c < CLASSES && s.free[c] != []
    ensures s.heads[c] == s.free[c][0] > 0 && s.free[c][0] in s.words && s.free[c][0] !in s.live[c]
    ensures Inv(Popped(s, c))
  {
    hide Blocks;
    assert GoodClass(s, c);
    var list := s.free[c];
    var a := list[0];
    assert Linked(s.words, list, 0);
    assert a in Elements(list);
    var t := Popped(s, c);
    var p, i := BlockPlace(s, c, a);
    BlockInPage(p, c, i);
    forall k | 0 <= k < |list[1..]| ensures Linked(t.words, list[1..], k) {
      assert Linked(s.words, list, k + 1);
    }
    assert Elements(list) == {a} + Elements(list[1..]) by {
      assert list == [a] + list[1..];
    }
    forall d: nat | d < CLASSES ensures GoodClass(t, d) {
      assert GoodClass(s, d);
    }
    forall d: nat, e: nat | d < CLASSES && e < CLASSES ensures PagesApart(t, d, e) {
      assert PagesApart(s, d, e);
    }
  }

  lemma PushKeeps(s: Slab, c: nat, a: nat)
    requires Inv(s) && c < CLASSES && a in s.live[c]
    ensures Inv(Pushed(s, c, a))
  {
    hide Blocks;
    var t := Pushed(s, c, a);
    forall d: nat | d < CLASSES ensures GoodClass(t, d) {
      assert GoodClass(s, d);
      LiveIsNotFree(s, c, a, d);
      var list := s.free[d];
      forall k | 0 <= k < |list| ensures list[k] in t.words && list[k] in s.words
        && t.words[list[k]] == s.words[list[k]] {
        assert Linked(s.words, list, k);
        assert list[k] in list;
      }
      ChainSame(s.words, t.words, s.heads[d], list);
      if d == c {
        PushedClass(s, c, a);
      }
    }
    forall d: nat, e: nat | d < CLASSES && e < CLASSES ensures PagesApart(t, d, e) {
      assert PagesApart(s, d, e);
    }
  }

  lemma PushedClass(s: Slab, c: nat, a: nat)
    requires Sized(s) && c < CLASSES && GoodClass(s, c) && a in s.live[c] && a !in s.free[c]
    requires Chain(Pushed(s, c, a).words, s.heads[c], s.free[c])
    ensures GoodClass(Pushed(s, c, a), c)
  {
    hide Blocks;
    var t, list := Pushed(s, c, a), s.free[c];
    var grown := [a] + list;
    forall k | 0 <= k < |grown| ensures Linked(t.words, grown, k) {
      if k > 0 {
        assert Linked(t.words, list, k - 1);
      }
    }
    assert Elements(grown) == {a} + Elements(list);
    assert Distinct(grown);
  }

  /** A page cut into blocks: each points at the next, the last at nothing. */
  predicate Threaded(words: map<nat, nat>, page: nat, c: nat, n: nat)
    requires c < CLASSES && n <= BlocksPerPage(c)
  {
    forall i: nat :: i < n ==> ThreadedAt(words, page, c, i)
  }

  predicate ThreadedAt(words: map<nat, nat>, page: nat, c: nat, i: nat)
    requires c < CLASSES
  {
    && Block(page, c, i) in words
    && words[Block(page, c, i)] == if i + 1 < BlocksPerPage(c) then Block(page, c, i + 1) else 0
  }

  /** Nothing outside the page changed. */
  ghost predicate OnlyInPage(words: map<nat, nat>, after: map<nat, nat>, page: nat) {
    forall a: nat :: a in words && !(page <= a < page + PAGE_SIZE) ==> a in after && after[a] == words[a]
  }

  function Refilled(s: Slab, c: nat, page: nat, words: map<nat, nat>): Slab
    requires Sized(s) && c < CLASSES
  {
    s.(words := words, heads := s.heads[c := Block(page, c, 0)], pages := s.pages[c := s.pages[c] + [page]],
       free := s.free[c := PageBlocks(page, c)])
  }

  ghost predicate NewPage(s: Slab, page: nat) {
    IsPage(page) && forall c: nat :: c < |s.pages| ==> page !in s.pages[c]
  }

  lemma RefillKeeps(s: Slab, c: nat, page: nat, words: map<nat, nat>)
    requires Inv(s) && c < CLASSES && s.free[c] == [] && NewPage(s, page)
    requires Threaded(words, page, c, BlocksPerPage(c)) && OnlyInPage(s.words, words, page)
    ensures Inv(Refilled(s, c, page, words))
  {
    hide Blocks, PageBlocks, BlocksPerPage, Block;
    var t := Refilled(s, c, page, words);
    forall d: nat | d < CLASSES ensures GoodClass(t, d) {
      assert GoodClass(s, d);
      if d == c {
        RefilledClass(s, c, page, words);
      } else {
        RefilledOther(s, d, page, words);
      }
    }
    forall d: nat, e: nat | d < CLASSES && e < CLASSES ensures PagesApart(t, d, e) {
      assert PagesApart(s, d, e);
      assert page !in s.pages[d] && page !in s.pages[e];
    }
  }

  lemma RefilledOther(s: Slab, d: nat, page: nat, words: map<nat, nat>)
    requires Inv(s) && d < CLASSES && NewPage(s, page) && OnlyInPage(s.words, words, page)
    ensures Chain(words, s.heads[d], s.free[d])
  {
    assert GoodClass(s, d);
    var list := s.free[d];
    forall k | 0 <= k < |list| ensures list[k] in words && list[k] in s.words && words[list[k]] == s.words[list[k]] {
      assert Linked(s.words, list, k);
      var p, i := BlockPlace(s, d, list[k]);
      BlockInPage(p, d, i);
      assert p != page;
      if p < page {
        PageGap(p, page);
      } else {
        PageGap(page, p);
      }
    }
    ChainSame(s.words, words, s.heads[d], list);
  }

  lemma RefilledClass(s: Slab, c: nat, page: nat, words: map<nat, nat>)
    requires Inv(s) && c < CLASSES && s.free[c] == [] && NewPage(s, page) && Threaded(words, page, c, BlocksPerPage(c))
    ensures GoodClass(Refilled(s, c, page, words), c)
  {
    hide Blocks, Block;
    assert GoodClass(s, c);
    NewPageBlocks(s.pages[c], page, c);
    var t, list := Refilled(s, c, page, words), PageBlocks(page, c);
    forall k: nat | k < |list| ensures Linked(words, list, k) {
      assert ThreadedAt(words, page, c, k);
    }
    assert Elements(s.free[c]) == {};
    assert Blocks(s.pages[c], c) == s.live[c];
  }

  /** The eight-byte word at `x` has a byte in `from..to`. */
  predicate WordTouches(x: nat, from: nat, to: nat) {
    x < to && from < x + WORD
  }

  /** The owner of a live block may write any bytes inside it: whatever words those touch, no list is damaged. */
  lemma OwnerWriteKeeps(s: Slab, c: nat, a: nat, from: nat, to: nat, words: map<nat, nat>)
    requires Inv(s) && c < CLASSES && a in s.live[c] && a <= from <= to <= a + ClassSize(c)
    requires forall x :: x in s.words && !WordTouches(x, from, to) ==> x in words && words[x] == s.words[x]
    ensures Inv(s.(words := words))
  {
    hide Blocks;
    var t := s.(words := words);
    forall d: nat | d < CLASSES ensures GoodClass(t, d) {
      assert GoodClass(s, d);
      var list := s.free[d];
      forall k | 0 <= k < |list| ensures list[k] in t.words && list[k] in s.words
        && t.words[list[k]] == s.words[list[k]] {
        assert Linked(s.words, list, k);
        LiveIsNotFree(s, c, a, d);
        assert list[k] in list;
        NoOverlap(s, c, a, d, list[k]);
        assert !WordTouches(list[k], from, to);
      }
      ChainSame(s.words, t.words, s.heads[d], list);
    }
    forall d: nat, e: nat | d < CLASSES && e < CLASSES ensures PagesApart(t, d, e) {
      assert PagesApart(s, d, e);
    }
  }
}
