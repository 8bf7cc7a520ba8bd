/**
 * One address space as a value: memory, tree, frame tags and the tracked tables.
 * Each step of `map_va` is a function on this value; the lemmas say what the steps
 * keep (kernel/src/arch/aarch64/page_table.rs:159-167, 213-324, 438-486).
 */
module PageSpace {
  import opened Common
  import opened Descriptors
  import opened PageReach
  import opened PageWalk
  import opened Phys

  const MAX_TRACKED: nat := 64

  datatype Space = Space(m: Mem, root: nat, sh: Shape, tags: map<nat, PageTag>, cursor: nat, tracked: seq<nat>)

  /** The tables are frames handed out by the allocator and still tagged as page tables. */
  ghost predicate OwnsFrames(s: Space) {
    forall p :: p in s.sh.level ==> p != 0 && p in s.tags && s.tags[p] == PageTable && p < s.cursor
  }

  /** `tracked` lists tables of the tree without repetition, and all of them up to its capacity. */
  ghost predicate TracksTables(s: Space) {
    && |s.tracked| <= MAX_TRACKED
    && Distinct(s.tracked)
    && (forall k :: 0 <= k < |s.tracked| ==> s.tracked[k] in s.sh.level)
    && (|s.sh.level| <= MAX_TRACKED ==> forall p :: p in s.sh.level ==> p in s.tracked)
  }

  ghost predicate Good(s: Space) {
    IsTree(s.m, s.root, s.sh) && OwnsFrames(s) && TracksTables(s)
  }

  /** `track`: a full array or a known table changes nothing. */
  function Track(tracked: seq<nat>, pa: nat): seq<nat> {
    if |tracked| >= MAX_TRACKED || pa in tracked then tracked else tracked + [pa]
  }

  /** The space after the fresh frame `q` was filled with `content` and linked at (`p`, `i`). */
  function AddTable(s: Space, p: nat, i: nat, q: nat, content: Table): Space
    requires p in s.m && p in s.sh.level && i < ENTRIES && p != q
  {
    Space(Link(s.m, p, i, q, content), s.root, Grow(s.sh, p, i, q),
          s.tags[q := PageTable], q + PAGE_SIZE, Track(s.tracked, q))
  }

  /** No lower-half address translates differently. */
  ghost predicate SameTranslation(s: Space, s': Space) {
    forall va: nat :: LowHalf(va) ==> Walk(s'.m, 0, s'.root, va) == Walk(s.m, 0, s.root, va)
  }

  /** The tree only grew, by frames at or above the old cursor, and kept its links. */
  ghost predicate TreeGrew(s: Space, s': Space) {
    && s'.root == s.root && s'.cursor >= s.cursor
    && (forall t :: t in s.sh.level ==> t in s'.sh.level && s'.sh.level[t] == s.sh.level[t])
    && (forall t :: t in s'.sh.level && t !in s.sh.level ==> t >= s.cursor)
    && (forall t: nat, j: nat :: Links(s.m, s.sh, t, j) ==> Links(s'.m, s'.sh, t, j) && s'.m[t][j] == s.m[t][j])
  }

  /** Memory and frame tags outside the tree and the shared upper half of the root are untouched. */
  ghost predicate OutsideKept(s: Space, s': Space) {
    && s.m.Keys <= s'.m.Keys && s.tags.Keys <= s'.tags.Keys
    && (forall t :: t in s.m && t !in s'.sh.level ==> s'.m[t] == s.m[t])
    && (forall t :: t in s.tags && t !in s'.sh.level ==> s'.tags[t] == s.tags[t])
    && (s.root in s.m && s.root in s'.m ==>
          forall j :: 256 <= j < ENTRIES ==> s'.m[s.root][j] == s.m[s.root][j])
  }

  ghost predicate Descends(s: Space, s': Space) {
    Good(s') && SameTranslation(s, s') && TreeGrew(s, s') && OutsideKept(s, s')
  }

  lemma TrackKeepsUp(s: Space, p: nat, i: nat, q: nat, content: Table)
    requires Good(s) && p in s.sh.level && i < ENTRIES && q !in s.sh.level
    ensures TracksTables(AddTable(s, p, i, q, content))
  {
    var s' := AddTable(s, p, i, q, content);
    assert q !in s.tracked;
    assert s'.sh.level.Keys == s.sh.level.Keys + {q};
    if |s'.sh.level| <= MAX_TRACKED {
      DistinctCardinality(s.tracked);
      SubsetSize(Elements(s.tracked), s.sh.level.Keys);
      assert s'.tracked == s.tracked + [q];
    }
  }

  /** Adding a leaf table that translates as its slot did is a descent step. */
  lemma AddTableDescends(s: Space, p: nat, i: nat, q: nat, content: Table)
    requires Good(s) && Slot(s.sh, p, i) && s.sh.level[p] < 3 && !Links(s.m, s.sh, p, i)
    requires IsFrame(q) && q >= s.cursor
    requires LeafTable(s.sh.level[p] + 1, content)
    requires forall va: nat ::
      Walk(map[q := content], s.sh.level[p] + 1, q, va) == LeafResult(s.sh.level[p], s.m[p][i], va)
    ensures var s' := AddTable(s, p, i, q, content);
      Descends(s, s') && LinkTo(s', p, i, q)
  {
    var s' := AddTable(s, p, i, q, content);
    assert q !in s.sh.level;
    LinkKeepsTree(s.m, s.root, s.sh, p, i, q, content);
    TrackKeepsUp(s, p, i, q, content);
    forall va: nat | LowHalf(va) ensures Walk(s'.m, 0, s.root, va) == Walk(s.m, 0, s.root, va) {
      LinkKeepsWalk(s.m, s.root, s.sh, p, i, q, content, s.root, va);
    }
    Mask48Keeps(q);
    AddTableFrame(s, p, i, q, content);
  }

  lemma AddTableFrame(s: Space, p: nat, i: nat, q: nat, content: Table)
    requires Good(s) && Slot(s.sh, p, i) && s.sh.level[p] < 3 && !Links(s.m, s.sh, p, i)
    requires IsFrame(q) && q >= s.cursor
    ensures var s' := AddTable(s, p, i, q, content);
      OwnsFrames(s') && TreeGrew(s, s') && OutsideKept(s, s')
  {
    var s' := AddTable(s, p, i, q, content);
    forall t: nat, j: nat | Links(s.m, s.sh, t, j)
      ensures Links(s'.m, s'.sh, t, j) && s'.m[t][j] == s.m[t][j]
    {
      assert t != q && (t, j) != (p, i);
    }
  }

  /** What one descent of `map_va` at slot (`p`, `i`) promises. */
  ghost predicate Descended(s: Space, s': Space, p: nat, i: nat, r: Result<nat>) {
    && Descends(s, s') && s'.root == s.root
    && (r.Err? ==> r.error == NoMemory)
    && (r.Ok? ==> LinkTo(s', p, i, r.value))
  }

  /** Slot (`p`, `i`) links the table `q`. */
  ghost predicate LinkTo(s: Space, p: nat, i: nat, q: nat) {
    && Links(s.m, s.sh, p, i) && s.m[p][i].addr == q
    && q in s.sh.level && s.sh.level[q] == s.sh.level[p] + 1
  }

  lemma LinkToKept(s: Space, s': Space, p: nat, i: nat, q: nat)
    requires TreeGrew(s, s') && LinkTo(s, p, i, q)
    ensures LinkTo(s', p, i, q)
  {
  }

  /** A table of the space is backed by a frame below the allocation cursor. */
  lemma TableIsFrame(s: Space, p: nat)
    requires Good(s) && p in s.sh.level
    ensures p in s.m && p in s.tags && p < s.cursor
  {
  }

  /** Doing nothing keeps everything. */
  lemma KeptAsIs(s: Space)
    ensures SameTranslation(s, s) && TreeGrew(s, s) && OutsideKept(s, s)
  {
  }

  /** A failed allocation moves the cursor only. */
  lemma FailedDescent(s: Space, s': Space)
    requires Good(s) && s' == s.(cursor := s'.cursor) && s'.cursor >= s.cursor
    ensures Descends(s, s')
  {
  }

  ghost predicate TranslatesNothing(s: Space) {
    forall va: nat :: LowHalf(va) ==> Walk(s.m, 0, s.root, va) == None
  }

  /** A zeroed root is a tree by itself. */
  lemma RootAlone(s: Space)
    requires s.root in s.m && s.m[s.root] == ZERO_TABLE && s.sh == Shape(map[s.root := 0], map[])
    requires s.root in s.tags && s.tags[s.root] == PageTable && 0 != s.root < s.cursor && s.tracked == [s.root]
    ensures Good(s) && TranslatesNothing(s)
  {
  }

  /** The two tables `allocate_root` makes. */
  lemma NewRoot(s: Space, l1: nat)
    requires s.root in s.m && s.m[s.root] == ZERO_TABLE && s.sh == Shape(map[s.root := 0], map[])
    requires s.root in s.tags && s.tags[s.root] == PageTable && 0 != s.root < s.cursor && s.tracked == [s.root]
    requires IsFrame(l1) && l1 >= s.cursor
    ensures var s' := AddTable(s, s.root, 0, l1, ZERO_TABLE);
      Good(s') && TranslatesNothing(s') && |s'.sh.level| == 2
  {
    hide Good, OwnsFrames, TracksTables, Walk, TreeGrew, OutsideKept, LinkTo, Index;
    RootAlone(s);
    EmptyDescends(s, s.root, 0, l1);
    var s' := AddTable(s, s.root, 0, l1, ZERO_TABLE);
    assert s'.sh.level.Keys == {s.root, l1};
  }

  /** A zeroed table translates nothing. */
  lemma ZeroTableFits(level: nat, q: nat)
    requires level <= 3
    ensures LeafTable(level, ZERO_TABLE)
    ensures forall va: nat :: Walk(map[q := ZERO_TABLE], level, q, va) == None
  {
    forall va: nat ensures LeafTable(level, ZERO_TABLE) && Walk(map[q := ZERO_TABLE], level, q, va) == None {
      ZeroTableWalk(q, level, va);
    }
  }

  /** The pieces of an aligned block make a table that translates as the block did. */
  lemma SplitTableFits(level: nat, block: Pte, q: nat)
    requires 1 <= level <= 2 && WellFormed(block) && IsBlock(block) && AlignedBlock(level, block)
    ensures LeafTable(level + 1, SplitTable(level, block))
    ensures forall va: nat :: Walk(map[q := SplitTable(level, block)], level + 1, q, va) == LeafResult(level, block, va)
  {
    hide LeafTable, Walk, LeafResult, SplitTable;
    SplitTableWalk(level, block, q, 0);
    forall va: nat
      ensures Walk(map[q := SplitTable(level, block)], level + 1, q, va) == LeafResult(level, block, va)
    {
      SplitTableWalk(level, block, q, va);
    }
  }

  /** Splitting a block of the tree is a descent step. */
  lemma SplitDescends(s: Space, p: nat, i: nat, q: nat)
    requires Good(s) && Slot(s.sh, p, i) && 1 <= s.sh.level[p] <= 2 && IsBlock(s.m[p][i])
    requires IsFrame(q) && q >= s.cursor
    ensures var s' := AddTable(s, p, i, q, SplitTable(s.sh.level[p], s.m[p][i]));
      Descends(s, s') && LinkTo(s', p, i, q)
  {
    hide Walk, LeafTable, LeafResult, SplitTable, Descends, OwnsFrames, TracksTables, LinkTo;
    assert GoodEntry(s.sh.level[p], s.m[p][i]);
    SplitTableFits(s.sh.level[p], s.m[p][i], q);
    AddTableDescends(s, p, i, q, SplitTable(s.sh.level[p], s.m[p][i]));
  }

  /** Linking a zeroed table into an absent entry is a descent step. */
  lemma EmptyDescends(s: Space, p: nat, i: nat, q: nat)
    requires Good(s) && Slot(s.sh, p, i) && s.sh.level[p] < 3 && !s.m[p][i].present
    requires IsFrame(q) && q >= s.cursor
    ensures var s' := AddTable(s, p, i, q, ZERO_TABLE);
      Descends(s, s') && LinkTo(s', p, i, q)
  {
    hide Walk, LeafTable, Descends, OwnsFrames, TracksTables, LinkTo;
    ZeroTableFits(s.sh.level[p] + 1, q);
    AddTableDescends(s, p, i, q, ZERO_TABLE);
  }

  /** Exactly the frames of `freed` became free. */
  ghost predicate FreedTags(tags: map<nat, PageTag>, freed: set<nat>, tags': map<nat, PageTag>) {
    tags'.Keys == tags.Keys && forall p :: p in tags ==> tags'[p] == if p in freed then Free else tags[p]
  }

  /** What freeing the tracked tables relies on. */
  lemma TrackedAreHeld(s: Space)
    requires Good(s)
    ensures Distinct(s.tracked)
    ensures forall k :: 0 <= k < |s.tracked| ==>
      s.tracked[k] != 0 && s.tracked[k] in s.tags && s.tags[s.tracked[k]] == PageTable
  {
  }

  /** `e` has the format of its level and links exactly what `mine` links. */
  predicate FitsSlot(level: nat, mine: Pte, e: Pte) {
    GoodEntry(level, e) && (IsTable(e) <==> IsTable(mine)) && (IsTable(e) ==> e.addr == mine.addr)
  }

  lemma {:induction false} FittingStoreKeeps(s: Space, p: nat, i: nat, e: Pte)
    requires Good(s) && Slot(s.sh, p, i) && s.sh.level[p] < 3 && FitsSlot(s.sh.level[p], s.m[p][i], e)
    ensures Good(WritePage(s, p, i, e))
  {
    var m' := SetEntry(s.m, p, i, e);
    forall t: nat, j: nat | Slot(s.sh, t, j)
      ensures GoodEntry(s.sh.level[t], m'[t][j])
      ensures Links(m', s.sh, t, j) <==> Links(s.m, s.sh, t, j)
      ensures Links(s.m, s.sh, t, j) ==> m'[t][j].addr == s.m[t][j].addr
    {
      assert GoodEntry(s.sh.level[t], s.m[t][j]);
    }
  }

  /** Overwriting an entry above the last level keeps the space good exactly when the new one fits the slot. */
  lemma StoreGoodIff(s: Space, p: nat, i: nat, e: Pte)
    requires Good(s) && Slot(s.sh, p, i) && s.sh.level[p] < 3
    ensures Good(WritePage(s, p, i, e)) <==> FitsSlot(s.sh.level[p], s.m[p][i], e)
  {
    if FitsSlot(s.sh.level[p], s.m[p][i], e) {
      FittingStoreKeeps(s, p, i, e);
    }
    var m' := SetEntry(s.m, p, i, e);
    if IsTree(m', s.root, s.sh) {
      assert Slot(s.sh, p, i) && m'[p][i] == e;
      if IsTable(e) {
        assert Links(m', s.sh, p, i);
        assert Owned(s.sh, e.addr);
      }
      if IsTable(s.m[p][i]) {
        assert Links(s.m, s.sh, p, i);
        assert Owned(s.sh, s.m[p][i].addr);
      }
    }
  }

  /** A table of the parent copied into a new root's empty slot spoils the new tree. */
  lemma ClonedTableBreaks(s: Space, l1: nat, q: nat)
    requires s.root in s.m && s.m[s.root] == ZERO_TABLE && s.sh == Shape(map[s.root := 0], map[])
    requires s.root in s.tags && s.tags[s.root] == PageTable && 0 != s.root < s.cursor && s.tracked == [s.root]
    requires IsFrame(l1) && l1 >= s.cursor
    ensures var s' := AddTable(s, s.root, 0, l1, ZERO_TABLE);
      Good(s') && !Good(WritePage(s', l1, 1, TableDesc(q)))
  {
    hide Good;
    NewRoot(s, l1);
    StoreGoodIff(AddTable(s, s.root, 0, l1, ZERO_TABLE), l1, 1, TableDesc(q));
  }

  lemma DescendsTransitive(a: Space, b: Space, c: Space)
    requires Good(a) && Descends(a, b) && Descends(b, c)
    ensures Descends(a, c)
  {
  }

  /** The space after the last store of `map_va`. */
  function WritePage(s: Space, l3: nat, i: nat, e: Pte): Space
    requires l3 in s.m && i < ENTRIES
  {
    s.(m := SetEntry(s.m, l3, i, e))
  }

  predicate SamePage(va: nat, vb: nat) {
    va % VA_SPAN / PAGE_SIZE == vb % VA_SPAN / PAGE_SIZE
  }

  /** `s'` translates the page of `va` to the frame `pa` and everything else as `s` does. */
  ghost predicate MapsPage(s: Space, s': Space, va: nat, pa: nat) {
    forall vb: nat :: LowHalf(vb) ==>
      Walk(s'.m, 0, s'.root, vb)
      == if SamePage(vb, va) then Some(pa + vb % PAGE_SIZE) else Walk(s.m, 0, s.root, vb)
  }

  lemma WritePageMaps(s: Space, l3: nat, va: nat, e: Pte)
    requires Good(s) && LowHalf(va) && IsTable(e) && WellFormed(e)
    requires l3 in s.sh.level && s.sh.level[l3] == 3 && Reaches(s.m, 0, s.root, va, l3)
    ensures var s' := WritePage(s, l3, Index(3, va), e);
      Good(s') && MapsPage(s, s', va, e.addr) && TreeGrew(s, s') && OutsideKept(s, s')
  {
    var s' := WritePage(s, l3, Index(3, va), e);
    WritePageKeepsTree(s.m, s.root, s.sh, l3, Index(3, va), e);
    forall vb: nat | LowHalf(vb)
      ensures Walk(s'.m, 0, s.root, vb)
        == if SamePage(vb, va) then Some(e.addr + vb % PAGE_SIZE) else Walk(s.m, 0, s.root, vb)
    {
      WritePageWalk(s.m, s.root, s.sh, l3, va, e, s.root, vb);
      SamePathIff(s.m, s.root, s.sh, va, vb, l3);
      SameIndicesIsSamePage(va, vb);
    }
  }

  /** Three linked levels make a path to the level-3 table. */
  lemma PathOfLinks(m: Mem, root: nat, sh: Shape, va: nat, l1: nat, l2: nat, l3: nat)
    requires IsTree(m, root, sh) && LowHalf(va)
    requires Links(m, sh, root, Index(0, va)) && m[root][Index(0, va)].addr == l1
    requires Links(m, sh, l1, Index(1, va)) && m[l1][Index(1, va)].addr == l2
    requires Links(m, sh, l2, Index(2, va)) && m[l2][Index(2, va)].addr == l3
    requires sh.level[l1] == 1 && sh.level[l2] == 2
    ensures Reaches(m, 0, root, va, l3) && l3 in sh.level && sh.level[l3] == 3
  {
    WalkStaysInTree(m, root, sh, l2, Index(2, va));
    assert Reaches(m, 2, l2, va, l3);
    assert Reaches(m, 1, l1, va, l3);
  }

  /** `map_va` after its three descents: exactly one page of the translation changes. */
  lemma MapVaIsUpdate(s: Space, s3: Space, va: nat, pa: nat, flags: MapFlags, l1: nat, l2: nat, l3: nat)
    requires Good(s) && Descends(s, s3) && LowHalf(va)
    requires LinkTo(s3, s3.root, Index(0, va), l1) && LinkTo(s3, l1, Index(1, va), l2)
      && LinkTo(s3, l2, Index(2, va), l3)
    ensures l3 in s3.m
    ensures var s' := WritePage(s3, l3, Index(3, va), PageDesc(pa, flags));
      Good(s') && MapsPage(s, s', va, Mask48(pa)) && OutsideKept(s, s') && TreeGrew(s, s')
  {
    PathOfLinks(s3.m, s3.root, s3.sh, va, l1, l2, l3);
    Mask48Bounds(pa);
    WritePageMaps(s3, l3, va, PageDesc(pa, flags));
  }

  /** Frames the allocator handed out before keep content and tag; others change only from free to page table. */
  ghost predicate OnlyAllocates(m: Mem, tags: map<nat, PageTag>, cursor: nat, m': Mem, tags': map<nat, PageTag>,
    cursor': nat) {
    && m'.Keys == m.Keys && tags'.Keys == tags.Keys && cursor <= cursor'
    && (forall t :: t in tags && tags'[t] != tags[t] ==>
      cursor <= t < cursor' && tags[t] == Free && tags'[t] == PageTable)
    && (forall t :: t in m && t in tags && tags'[t] == tags[t] ==> m'[t] == m[t])
  }

  /** Allocating two frames and writing the first of them. */
  lemma TwoAllocated(m: Mem, tags: map<nat, PageTag>, cursor: nat, a: nat, x: Table, b: nat, y: Table)
    requires a in m && a in tags && tags[a] == Free && cursor <= a
    requires b in m && b in tags && tags[b] == Free && a + PAGE_SIZE <= b
    ensures OnlyAllocates(m, tags, cursor, m[a := ZERO_TABLE][b := y][a := x], tags[a := PageTable][b := PageTable],
      b + PAGE_SIZE)
  {
  }

  lemma NoneAllocated(m: Mem, tags: map<nat, PageTag>, cursor: nat)
    ensures forall c :: c >= cursor ==> OnlyAllocates(m, tags, cursor, m, tags, c)
  {
  }

  lemma OneAllocated(m: Mem, tags: map<nat, PageTag>, cursor: nat, a: nat, c: nat)
    requires a in m && a in tags && tags[a] == Free && cursor <= a < c
    ensures OnlyAllocates(m, tags, cursor, m[a := ZERO_TABLE], tags[a := PageTable], c)
  {
  }

  /** A space none of whose tables was touched is as good as before and translates the same. */
  lemma UntouchedSpace(other: Space, m': Mem, tags': map<nat, PageTag>, cursor': nat)
    requires Good(other) && other.cursor <= cursor'
    requires forall p :: p in other.sh.level ==> p in m' && m'[p] == other.m[p]
    requires forall p :: p in other.sh.level ==> p in tags' && tags'[p] == other.tags[p]
    ensures var after := other.(m := m', tags := tags', cursor := cursor'); Good(after) && SameTranslation(other, after)
  {
    forall va: nat | LowHalf(va) ensures Walk(m', 0, other.root, va) == Walk(other.m, 0, other.root, va) {
      WalkFrame(other.m, m', other.root, other.sh, other.root, va);
    }
  }

  /** Mapping in one address space leaves another over the same allocator good, with every translation as it was. */
  lemma SpacesAreIsolated(s: Space, s': Space, other: Space)
    requires Good(s) && OutsideKept(s, s') && TreeGrew(s, s')
    requires Good(other) && other.m == s.m && other.tags == s.tags && other.cursor == s.cursor
    requires s.sh.level.Keys !! other.sh.level.Keys
    ensures var after := other.(m := s'.m, tags := s'.tags, cursor := s'.cursor);
      Good(after) && SameTranslation(other, after) && s'.sh.level.Keys !! after.sh.level.Keys
  {
    forall p | p in other.sh.level ensures p !in s'.sh.level && p in s'.m && p in s'.tags {
      TableIsFrame(other, p);
    }
    UntouchedSpace(other, s'.m, s'.tags, s'.cursor);
  }

  /** So does making a new one. */
  lemma NewSpaceIsIsolated(other: Space, m': Mem, tags': map<nat, PageTag>, cursor': nat)
    requires Good(other) && OnlyAllocates(other.m, other.tags, other.cursor, m', tags', cursor')
    ensures var after := other.(m := m', tags := tags', cursor := cursor'); Good(after) && SameTranslation(other, after)
  {
    forall p | p in other.sh.level ensures p in m' && m'[p] == other.m[p] && p in tags' && tags'[p] == other.tags[p] {
      TableIsFrame(other, p);
    }
    UntouchedSpace(other, m', tags', cursor');
  }

  /** The mapped frame is the requested one exactly when it has a 48-bit address. */
  lemma MappedFrameIff(pa: nat)
    requires pa % PAGE_SIZE == 0
    ensures Mask48(pa) == pa <==> pa < VA_SPAN
  {
    var n := pa / PAGE_SIZE;
    assert pa == n * PAGE_SIZE;
  }

  /** Tracked and reachable tables coincide exactly up to the capacity of the array. */
  lemma TrackedIsReachableIff(s: Space)
    requires Good(s)
    ensures Elements(s.tracked) == Reachable(s.m, s.root) <==> |Reachable(s.m, s.root)| <= MAX_TRACKED
    ensures Elements(s.tracked) <= Reachable(s.m, s.root)
  {
    TreeIsReachable(s.m, s.root, s.sh);
    TrackedTables(s);
  }

  lemma TrackedTables(s: Space)
    requires TracksTables(s)
    ensures Elements(s.tracked) <= s.sh.level.Keys
    ensures Elements(s.tracked) == s.sh.level.Keys <==> |s.sh.level.Keys| <= MAX_TRACKED
  {
    DistinctCardinality(s.tracked);
    assert |s.sh.level.Keys| == |s.sh.level|;
    if |s.sh.level| <= MAX_TRACKED {
      assert Elements(s.tracked) == s.sh.level.Keys;
    }
  }

  /** Where the descents of `map_va` start and continue. */
  lemma RootSlot(s: Space, va: nat)
    requires Good(s) && LowHalf(va)
    ensures Slot(s.sh, s.root, Index(0, va)) && s.sh.level[s.root] == 0
  {
  }

  // ----- a space past the capacity of the tracking array -----

  /** A good space of `n` tables: the root and `n - 1` empty tables below its first entries. */
  lemma {:induction false} WideSpace(n: nat) returns (s: Space)
    requires 1 <= n <= 128
    ensures Good(s) && |s.sh.level| == n && s.root in s.sh.level && s.sh.level[s.root] == 0
    ensures s.cursor == RAM_BASE + n * PAGE_SIZE && s.root in s.m
    ensures forall i :: n - 1 <= i < ENTRIES ==> !s.m[s.root][i].present
  {
    if n == 1 {
      s := Space(map[RAM_BASE := ZERO_TABLE], RAM_BASE, Shape(map[RAM_BASE := 0], map[]),
                 map[RAM_BASE := PageTable], RAM_BASE + PAGE_SIZE, [RAM_BASE]);
      RootAlone(s);
    } else {
      var t := WideSpace(n - 1);
      s := AddTable(t, t.root, n - 2, t.cursor, ZERO_TABLE);
      NextFrame(n - 1);
      FreshAbove(t);
      EmptyDescends(t, t.root, n - 2, t.cursor);
      assert s.sh.level.Keys == t.sh.level.Keys + {t.cursor};
    }
  }

  lemma NextFrame(n: nat)
    requires n < 128
    ensures IsFrame(RAM_BASE + n * PAGE_SIZE)
  {
  }

  lemma FreshAbove(s: Space)
    requires Good(s)
    ensures s.cursor !in s.sh.level && s.root in s.sh.level
  {
  }

  /** Sixty-five tables: one of them is not tracked. */
  lemma SixtyFiveTables() returns (s: Space)
    ensures Good(s) && |Reachable(s.m, s.root)| == 65 && Elements(s.tracked) != Reachable(s.m, s.root)
  {
    hide Good, Reachable;
    s := WideSpace(65);
    ReachableIsTree(s);
    TrackedIsReachableIff(s);
  }

  lemma ReachableIsTree(s: Space)
    requires Good(s)
    ensures Reachable(s.m, s.root) == s.sh.level.Keys && |Reachable(s.m, s.root)| == |s.sh.level|
  {
    TreeIsReachable(s.m, s.root, s.sh);
    assert |s.sh.level.Keys| == |s.sh.level|;
  }
}
