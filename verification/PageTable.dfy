/** `PageTableTree` of kernel/src/arch/aarch64/page_table.rs over the frame allocator. */
module PageTable {
  import opened Common
  import opened Descriptors
  import opened PageReach
  import opened PageRights
  import opened PageSpace
  import opened PageWalk
  import opened Phys

  class PageTableTree {
    const phys: PhysMemory<Table>
    var l0: nat
    const tracked: array<nat>
    var count: nat
    var generation: nat
    var hasRoot: bool
    ghost var shape: Shape

    ghost predicate Layout()
      reads this, phys
    {
      tracked.Length == MAX_TRACKED && count <= MAX_TRACKED && phys.Valid() && phys.zero == ZERO_TABLE
    }

    ghost function View(): Space
      requires Layout()
      reads this, tracked, phys
    {
      Space(phys.pages, l0, shape, phys.tags, phys.cursor, tracked[..count])
    }

    ghost predicate Valid()
      reads this, tracked, phys
    {
      Layout() && if hasRoot then Good(View()) else count == 0
    }

    constructor (phys: PhysMemory<Table>)
      requires phys.Valid() && phys.zero == ZERO_TABLE
      ensures Valid() && !hasRoot && this.phys == phys && fresh(tracked)
    {
      this.phys := phys;
      l0, count, generation, hasRoot := 0, 0, 0, false;
      tracked := new nat[MAX_TRACKED](_ => 0);
      shape := Shape(map[], map[]);
    }

    /** `allocate_root`: an address space of two tables that translates nothing. */
    method AllocateRoot() returns (r: Result<()>)
      requires Valid()
      modifies this, tracked, phys
      ensures Valid()
      ensures old(hasRoot) ==> r == Err(AlreadyExists) && View() == old(View())
      ensures !old(hasRoot) && r.Err? ==> r.error == NoMemory && !hasRoot
      ensures r.Ok? ==> hasRoot && |shape.level| == 2 && TranslatesNothing(View())
      ensures r.Ok? ==> forall p :: p in shape.level ==> p >= old(phys.cursor)
      ensures OnlyAllocates(old(phys.pages), old(phys.tags), old(phys.cursor), phys.pages, phys.tags, phys.cursor)
    {
      hide Good, TranslatesNothing, PhysMemory.Valid, OnlyAllocates, TableDesc, PageSpace.Track;
      ghost var m, tags, cursor := phys.pages, phys.tags, phys.cursor;
      NoneAllocated(m, tags, cursor);
      if hasRoot {
        return Err(AlreadyExists);
      }
      var r0 := phys.AllocPage(PageTable);
      if r0.Err? {
        return Err(r0.error);
      }
      ghost var s := Space(phys.pages, r0.value, Shape(map[r0.value := 0], map[]), phys.tags, phys.cursor, [r0.value]);
      var r1 := phys.AllocPage(PageTable);
      if r1.Err? {
        OneAllocated(m, tags, cursor, r0.value, phys.cursor);
        return Err(r1.error);
      }
      TwoAllocated(m, tags, cursor, r0.value, ZERO_TABLE[0 := TableDesc(r1.value)], r1.value, ZERO_TABLE);
      NewRoot(s, r1.value);
      InstallRoot(s, r1.value, r0.value);
      r := Ok(());
    }

    /** The stores of `allocate_root` once both frames are allocated. */
    method InstallRoot(ghost s: Space, l1: nat, root: nat)
      requires Layout() && root != l1 && root in phys.pages
      requires root in s.m && s.root == root && s.sh == Shape(map[root := 0], map[]) && s.tracked == [root]
      requires phys.pages == s.m[l1 := ZERO_TABLE] && phys.tags == s.tags[l1 := PageTable]
      requires phys.cursor == l1 + PAGE_SIZE
      modifies this, tracked, phys`pages
      ensures Layout() && hasRoot && View() == AddTable(s, root, 0, l1, ZERO_TABLE)
    {
      hide PhysMemory.Valid;
      phys.Store(root, phys.pages[root][0 := TableDesc(l1)]);
      l0 := root;
      tracked[0], tracked[1] := root, l1;
      count, generation, hasRoot := 2, 1, true;
      shape := Grow(s.sh, l0, 0, l1);
      assert tracked[..2] == [root] + [l1];
    }

    /** `track`. */
    method Track(pa: nat)
      requires Layout() && pa in phys.tags && phys.tags[pa] == PageTable && pa !in phys.live
      modifies this`count, tracked, phys`live
      ensures Layout() && tracked[..count] == PageSpace.Track(old(tracked[..count]), pa)
    {
      if count >= MAX_TRACKED {
        return;
      }
      for i := 0 to count
        invariant pa !in tracked[..i]
        invariant unchanged(this) && unchanged(tracked) && unchanged(phys)
      {
        if tracked[i] == pa {
          return;
        }
      }
      tracked[count] := pa;
      count := count + 1;
      phys.RegisterPtPage(pa);
    }

    /** Links a fresh zeroed table into an absent entry. */
    method LinkEmpty(level: nat, p: nat, i: nat) returns (r: Result<nat>)
      requires Valid() && hasRoot && Slot(shape, p, i) && level < 3 && shape.level[p] == level
      requires !phys.pages[p][i].present
      modifies this, tracked, phys
      ensures Valid() && hasRoot
      ensures Descended(old(View()), View(), p, i, r) && Stepped(old(View()), View(), p, i)
    {
      hide Good, SameTranslation, TreeGrew, OutsideKept, LinkTo, PhysMemory.Valid;
      ghost var s := View();
      TableIsFrame(s, p);
      r := phys.AllocPage(PageTable);
      if r.Err? {
        FailedDescent(s, View());
        return;
      }
      var q := r.value;
      phys.Store(p, phys.pages[p][i := TableDesc(q)]);
      Track(q);
      shape := Grow(shape, p, i, q);
      assert View() == AddTable(s, p, i, q, ZERO_TABLE);
      EmptyDescends(s, p, i, q);
      AddedStep(s, p, i, q, ZERO_TABLE);
    }

    /** `shatter_l1_block` and `shatter_l2_block`: replaces a block by a table of its pieces. */
    method SplitBlock(level: nat, p: nat, i: nat) returns (r: Result<nat>)
      requires Valid() && hasRoot && Slot(shape, p, i) && 1 <= level <= 2 && shape.level[p] == level
      requires IsBlock(phys.pages[p][i])
      modifies this, tracked, phys
      ensures Valid() && hasRoot
      ensures Descended(old(View()), View(), p, i, r) && Stepped(old(View()), View(), p, i)
    {
      hide Good, SameTranslation, TreeGrew, OutsideKept, LinkTo, SplitTable, PhysMemory.Valid;
      ghost var s := View();
      TableIsFrame(s, p);
      var block := phys.pages[p][i];
      r := phys.AllocPage(PageTable);
      if r.Err? {
        FailedDescent(s, View());
        return;
      }
      var q := r.value;
      LinkSplit(s, level, p, i, q, block);
      SplitDescends(s, p, i, q);
      AddedStep(s, p, i, q, SplitTable(level, block));
    }

    /** Tracks the new table, fills it with the pieces and stores the descriptor that links it. */
    method LinkSplit(ghost s: Space, level: nat, p: nat, i: nat, q: nat, block: Pte)
      requires Layout() && i < ENTRIES && 1 <= level <= 2 && p in s.m && p in s.sh.level && p != q
      requires q in phys.tags && phys.tags == s.tags[q := PageTable] && q !in phys.live && phys.cursor == q + PAGE_SIZE
      requires View() == s.(m := s.m[q := ZERO_TABLE], tags := phys.tags, cursor := phys.cursor)
      modifies this, tracked, phys
      ensures Layout() && hasRoot == old(hasRoot)
      ensures View() == AddTable(s, p, i, q, SplitTable(level, block))
    {
      hide PhysMemory.Valid, SplitTable, TableDesc, PageSpace.Track, Good;
      Track(q);
      FillSplit(level, block, q);
      assert phys.pages == s.m[q := SplitTable(level, block)];
      phys.Store(p, phys.pages[p][i := TableDesc(q)]);
      shape := Grow(shape, p, i, q);
    }

    /** The loop that writes the 512 pieces of a split block. */
    method FillSplit(level: nat, block: Pte, q: nat)
      requires phys.Valid() && q in phys.pages && 1 <= level <= 2
      modifies phys`pages
      ensures phys.Valid() && phys.pages == old(phys.pages)[q := SplitTable(level, block)]
    {
      for k := 0 to ENTRIES
        invariant phys.Valid() && q in phys.pages
        invariant phys.pages == old(phys.pages)[q := phys.pages[q]]
        invariant forall j :: 0 <= j < k ==> phys.pages[q][j] == SplitTable(level, block)[j]
      {
        phys.Store(q, phys.pages[q][k := Piece(level, block, k)]);
      }
      assert phys.pages[q] == SplitTable(level, block);
    }

    /** One level of the descent in `map_va`: follow, split or create. */
    method NextTable(level: nat, p: nat, i: nat) returns (r: Result<nat>)
      requires Valid() && hasRoot && Slot(shape, p, i) && level < 3 && shape.level[p] == level
      modifies this, tracked, phys
      ensures Valid() && hasRoot
      ensures Descended(old(View()), View(), p, i, r) && Stepped(old(View()), View(), p, i)
    {
      var e := phys.pages[p][i];
      assert GoodEntry(level, e);
      if IsTable(e) {
        r := Ok(e.addr);
        WalkStaysInTree(phys.pages, l0, shape, p, i);
      } else if e.present {
        r := SplitBlock(level, p, i);
      } else {
        r := LinkEmpty(level, p, i);
      }
    }

    /** The three descents of `map_va`: the level-3 table for the address, by way of `l1` and `l2`. */
    method Descend(va: nat) returns (r: Result<nat>, ghost l1: nat, ghost l2: nat)
      requires Valid() && hasRoot && LowHalf(va)
      modifies this, tracked, phys
      ensures Valid() && hasRoot
      ensures Descends(old(View()), View()) && Loosened(old(View()), View(), va)
      ensures r.Err? ==> r.error == NoMemory
      ensures r.Ok? ==> (
        var s := View();
        && LinkTo(s, s.root, Index(0, va), l1) && LinkTo(s, l1, Index(1, va), l2)
        && LinkTo(s, l2, Index(2, va), r.value))
    {
      hide Good, SameTranslation, TreeGrew, OutsideKept, Loosened, Stepped, Through, Index, LowHalf, PhysMemory.Valid;
      l1, l2 := 0, 0;
      ghost var s := View();
      RootSlot(s, va);
      ThroughRoot(s, va);
      r := NextTable(0, l0, Index(0, va));
      StepLoosens(s, View(), l0, Index(0, va), va);
      if r.Err? {
        return;
      }
      l1 := r.value;
      ghost var s1 := View();
      RootSlot(s1, va);
      ThroughOne(s1, va, l1);
      r := NextTable(1, r.value, Index(1, va));
      StepLoosens(s1, View(), l1, Index(1, va), va);
      LoosenedTwice(s, s1, View(), va);
      DescendsTransitive(s, s1, View());
      LinkToKept(s1, View(), l0, Index(0, va), l1);
      if r.Err? {
        return;
      }
      l2 := r.value;
      ghost var s2 := View();
      RootSlot(s2, va);
      ThroughTwo(s2, va, l1, l2);
      r := NextTable(2, r.value, Index(2, va));
      StepLoosens(s2, View(), l2, Index(2, va), va);
      LoosenedTwice(s, s2, View(), va);
      DescendsTransitive(s, s2, View());
      LinkToKept(s2, View(), l0, Index(0, va), l1);
      LinkToKept(s2, View(), l1, Index(1, va), l2);
    }

    /**
     * `map_va` for a lower-half address.  Success updates exactly one page of the
     * translation; failure changes no translation even though tables may have been
     * linked or blocks split on the way down.
     */
    method MapVa(va: nat, pa: nat, flags: MapFlags) returns (r: Result<()>)
      requires Valid() && LowHalf(va)
      modifies this, tracked, phys
      ensures Valid() && hasRoot == old(hasRoot)
      ensures r == Err(InvalidArgs) <==> va % PAGE_SIZE != 0 || pa % PAGE_SIZE != 0 || !old(hasRoot)
      ensures r == Err(InvalidArgs) ==> View() == old(View())
      ensures r.Err? ==> r.error == InvalidArgs || r.error == NoMemory
      ensures hasRoot ==> OutsideKept(old(View()), View()) && TreeGrew(old(View()), View())
      ensures r.Ok? ==> MapsPage(old(View()), View(), va, Mask48(pa)) && MapsRights(old(View()), View(), va, flags)
      ensures hasRoot && r.Err? ==> SameTranslation(old(View()), View()) && Loosened(old(View()), View(), va)
    {
      hide Good, SameTranslation, TreeGrew, OutsideKept, MapsPage, MapsRights, Loosened, Mask48, Index, LowHalf,
        PhysMemory.Valid;
      KeptAsIs(View());
      LoosenedKept(View(), View(), va);
      if va % PAGE_SIZE != 0 || pa % PAGE_SIZE != 0 {
        return Err(InvalidArgs);
      }
      if !hasRoot {
        return Err(InvalidArgs);
      }
      ghost var s := View();
      var r3, l1, l2 := Descend(va);
      if r3.Err? {
        return Err(r3.error);
      }
      ghost var s3 := View();
      RootSlot(s3, va);
      MapVaIsUpdate(s, s3, va, pa, flags, l1, l2, r3.value);
      MapVaRights(s, s3, va, pa, flags, l1, l2, r3.value);
      phys.Store(r3.value, phys.pages[r3.value][Index(3, va) := PageDesc(pa, flags)]);
      assert View() == PageSpace.WritePage(s3, r3.value, Index(3, va), PageDesc(pa, flags));
      r := Ok(());
    }

    /** `translate_va`. */
    method TranslateVa(va: nat) returns (r: Option<nat>)
      requires Valid()
      ensures r == if hasRoot then Walk(phys.pages, 0, l0, va) else None
    {
      if !hasRoot {
        return None;
      }
      var e0 := Entry(phys.pages, l0, Index(0, va));
      if !e0.present {
        return None;
      }
      var e1 := Entry(phys.pages, e0.addr, Index(1, va));
      if !e1.present {
        return None;
      }
      if !e1.table {
        return Some(LeafBase(1, e1) + va % SIZE_1G);
      }
      var e2 := Entry(phys.pages, e1.addr, Index(2, va));
      if !e2.present {
        return None;
      }
      if !e2.table {
        return Some(LeafBase(2, e2) + va % SIZE_2M);
      }
      var e3 := Entry(phys.pages, e2.addr, Index(3, va));
      if !e3.present {
        return None;
      }
      return Some(e3.addr + va % PAGE_SIZE);
    }

    /** The word `clone_identity_block` reads through the parent's root: the second 1 GiB entry, if any. */
    static function ParentEntry(m: Mem, parent: nat): Pte {
      var e := Entry(m, parent, 0);
      if e == ZERO_PTE || e.addr == 0 then ZERO_PTE else Entry(m, e.addr, 1)
    }

    /**
     * `clone_identity_block`: copies the parent's second 1 GiB entry into this tree.  The tree stays
     * good exactly when that entry links what its own did: a parent whose block has been split hands
     * over a table of its own.
     */
    method CloneIdentityBlock(parent: nat)
      requires Valid() && (hasRoot ==> phys.pages[l0][0] == ZERO_PTE || IsTable(phys.pages[l0][0]))
      modifies phys`pages
      ensures Layout() && phys.pages.Keys == old(phys.pages).Keys
      ensures var e := ParentEntry(old(phys.pages), parent);
        var l1 := if hasRoot then old(phys.pages)[l0][0].addr else 0;
        if !hasRoot || e == ZERO_PTE || l1 == 0 then phys.pages == old(phys.pages)
        else phys.pages == SetEntry(old(phys.pages), l1, 1, e) && (Valid() <==> FitsSlot(1, old(phys.pages)[l1][1], e))
    {
      if !hasRoot {
        return;
      }
      var e0 := Entry(phys.pages, parent, 0);
      if e0 == ZERO_PTE || e0.addr == 0 {
        return;
      }
      var mine := phys.pages[l0][0];
      if mine == ZERO_PTE || mine.addr == 0 {
        return;
      }
      var l1 := mine.addr;
      assert Links(phys.pages, shape, l0, 0);
      WalkStaysInTree(phys.pages, l0, shape, l0, 0);
      var e := Entry(phys.pages, e0.addr, 1);
      if e != ZERO_PTE {
        StoreGoodIff(View(), l1, 1, e);
        phys.Store(l1, phys.pages[l1][1 := e]);
      }
    }

    /** `free_tree`: returns every tracked table to the allocator, none of them twice. */
    method FreeTree()
      requires Valid()
      modifies this, phys`tags, phys`live
      ensures Valid() && !hasRoot
      ensures FreedTags(old(phys.tags), if old(hasRoot) then Elements(old(tracked[..count])) else {}, phys.tags)
      ensures old(hasRoot && |Reachable(phys.pages, l0)| <= MAX_TRACKED) ==>
        forall p: nat :: old(p in Reachable(phys.pages, l0)) <==> old(p in tracked[..count])
    {
      hide Good, Reachable, PhysMemory.Valid;
      if !hasRoot {
        return;
      }
      TrackedIsReachableIff(View());
      TrackedAreHeld(View());
      var idx := count;
      while idx > 0
        invariant 0 <= idx <= count && unchanged(this)
        invariant phys.Valid()
        invariant phys.tags.Keys == old(phys.tags).Keys
        invariant forall p :: p in phys.tags ==>
          phys.tags[p] == if p in tracked[idx..count] then Free else old(phys.tags)[p]
      {
        idx := idx - 1;
        var pa := tracked[idx];
        assert tracked[idx..count] == [pa] + tracked[idx + 1..count];
        if pa != 0 {
          phys.FreePage(pa);
        }
      }
      l0, count, generation, hasRoot := 0, 0, 0, false;
    }
  }

  // ----- two trees over one allocator -----

  /** The trees share the allocator and nothing else. */
  ghost predicate SideBySide(a: PageTableTree, b: PageTableTree)
    reads a, a.tracked, b, b.tracked, a.phys, b.phys
  {
    && a != b && a.phys == b.phys && a.tracked != b.tracked && a.Valid() && b.Valid()
    && (a.hasRoot && b.hasRoot ==> a.shape.level.Keys !! b.shape.level.Keys)
  }

  /** Giving one tree its root leaves the other valid with every translation as it was. */
  method AllocateRootBeside(a: PageTableTree, b: PageTableTree) returns (r: Result<()>)
    requires SideBySide(a, b)
    modifies a, a.tracked, a.phys
    ensures SideBySide(a, b) && b.hasRoot == old(b.hasRoot)
    ensures b.hasRoot ==> SameTranslation(old(b.View()), b.View())
  {
    hide Good, SameTranslation, TranslatesNothing, PhysMemory.Valid;
    ghost var other := b.View();
    r := a.AllocateRoot();
    if b.hasRoot {
      NewSpaceIsIsolated(other, b.phys.pages, b.phys.tags, b.phys.cursor);
      BelowCursor(other);
      assert b.View() == other.(m := b.phys.pages, tags := b.phys.tags, cursor := b.phys.cursor);
    }
  }

  lemma BelowCursor(s: Space)
    requires Good(s)
    ensures forall p :: p in s.sh.level ==> p < s.cursor
  {
  }

  /** So does mapping a page, whether it succeeds or fails. */
  method MapVaBeside(a: PageTableTree, b: PageTableTree, va: nat, pa: nat, flags: MapFlags) returns (r: Result<()>)
    requires SideBySide(a, b) && LowHalf(va)
    modifies a, a.tracked, a.phys
    ensures SideBySide(a, b) && b.hasRoot == old(b.hasRoot)
    ensures b.hasRoot ==> SameTranslation(old(b.View()), b.View())
  {
    hide Good, SameTranslation, TreeGrew, OutsideKept, MapsPage, PhysMemory.Valid;
    ghost var mine, other := a.View(), b.View();
    r := a.MapVa(va, pa, flags);
    if b.hasRoot {
      if a.hasRoot {
        SpacesAreIsolated(mine, a.View(), other);
      } else {
        KeptAsIs(other);
      }
      assert b.View() == other.(m := b.phys.pages, tags := b.phys.tags, cursor := b.phys.cursor);
    }
  }

  /** So does freeing one of them. */
  method FreeTreeBeside(a: PageTableTree, b: PageTableTree)
    requires SideBySide(a, b)
    modifies a, a.phys`tags, a.phys`live
    ensures SideBySide(a, b) && b.hasRoot == old(b.hasRoot)
    ensures b.hasRoot ==> SameTranslation(old(b.View()), b.View())
  {
    hide Good, SameTranslation, PhysMemory.Valid;
    ghost var mine, other := a.View(), b.View();
    ghost var rooted := a.hasRoot;
    a.FreeTree();
    if b.hasRoot {
      if rooted {
        TrackedInTree(mine);
      }
      TablesTagged(other);
      UntouchedSpace(other, b.phys.pages, b.phys.tags, b.phys.cursor);
      assert b.View() == other.(m := b.phys.pages, tags := b.phys.tags, cursor := b.phys.cursor);
    }
  }

  lemma TrackedInTree(s: Space)
    requires Good(s)
    ensures forall p :: p in s.tracked ==> p in s.sh.level
  {
  }

  lemma TablesTagged(s: Space)
    requires Good(s)
    ensures forall p :: p in s.sh.level ==> p in s.m && p in s.tags
  {
  }
}
