/**
 * The self-check of an address space and its two ways of being freed
 * (kernel/src/arch/aarch64/page_table.rs:326-434, kernel/src/arch/aarch64/mmu.rs:81-107).
 */
module PageAudit {
  import opened Common
  import opened Descriptors
  import opened PageReach
  import opened PageSpace
  import opened PageTable
  import opened PageWalk
  import opened Phys

  /** The bounded list of tables found so far stands for the set `found`. */
  ghost predicate Seen(list: seq<nat>, found: set<nat>) {
    && Distinct(list) && |list| <= MAX_TRACKED
    && Elements(list) <= found
    && (|list| < MAX_TRACKED ==> found <= Elements(list))
  }

  lemma SeenGrows(list: seq<nat>, found: set<nat>, pa: nat)
    requires Seen(list, found)
    ensures Seen(PageSpace.Track(list, pa), found + {pa})
  {
    assert Elements(list + [pa]) == Elements(list) + {pa};
  }

  /** A bounded list that could hold everything does. */
  lemma SeenAll(list: seq<nat>, found: set<nat>)
    requires Seen(list, found) && |found| <= MAX_TRACKED
    ensures Elements(list) == found
  {
    DistinctCardinality(list);
    if |list| == MAX_TRACKED {
      SubsetOfSameSize(Elements(list), found);
    }
  }

  /** What `validate` tests when the reachable tables fit its list. */
  ghost predicate Consistent(m: Mem, root: nat, tracked: seq<nat>) {
    && Clean(m, 0, root, 256)
    && Elements(tracked) - {0} <= Reachable(m, root) <= Elements(tracked)
  }

  /** The nested walk loops of `validate` below the table `t`. */
  method Visit(m: Mem, level: nat, t: nat, seen: seq<nat>, ghost found: set<nat>) returns (ok: bool, list: seq<nat>)
    requires level <= 3 && Seen(seen, found)
    ensures ok <==> Clean(m, level, t, SlotCount(level))
    ensures Seen(list, found + Found(m, level, t, SlotCount(level)))
    decreases 3 - level
  {
    ok, list := true, seen;
    assert found + Found(m, level, t, 0) == found;
    for i := 0 to SlotCount(level)
      invariant ok <==> Clean(m, level, t, i)
      invariant Seen(list, found + Found(m, level, t, i))
    {
      var e := Entry(m, t, i);
      ghost var before := found + Found(m, level, t, i);
      if level < 3 && IsTable(e) {
        SeenGrows(list, before, e.addr);
        list := PageSpace.Track(list, e.addr);
        var below;
        below, list := Visit(m, level + 1, e.addr, list, before + {e.addr});
        ok := ok && below;
        assert before + {e.addr} + Found(m, level + 1, e.addr, ENTRIES) == found + Found(m, level, t, i + 1);
      } else {
        assert Found(m, level, t, i + 1) == Found(m, level, t, i);
        if e.present && !e.table && (level == 0 || level == 3) {
          ok := false;
        }
      }
    }
  }

  /** The search loop both comparisons of `validate` use. */
  method Contains(s: seq<nat>, x: nat) returns (found: bool)
    ensures found <==> x in s
  {
    for j := 0 to |s|
      invariant x !in s[..j]
    {
      if s[j] == x {
        return true;
      }
    }
    return false;
  }

  /**
   * `validate`: while the reachable tables fit the list, it accepts exactly the
   * consistent trees.  Repeated entries in `tracked` go unnoticed.
   */
  method Validate(tree: PageTableTree) returns (ok: bool)
    requires tree.Layout()
    ensures !tree.hasRoot ==> ok
    ensures tree.hasRoot && |Reachable(tree.phys.pages, tree.l0)| <= MAX_TRACKED ==>
      (ok <==> Consistent(tree.phys.pages, tree.l0, tree.tracked[..tree.count]))
  {
    if !tree.hasRoot {
      return true;
    }
    var m, root, tracked := tree.phys.pages, tree.l0, tree.tracked[..tree.count];
    ok := CheckTree(m, root, tracked);
  }

  method CheckTree(m: Mem, root: nat, tracked: seq<nat>) returns (ok: bool)
    ensures |Reachable(m, root)| <= MAX_TRACKED ==> (ok <==> Consistent(m, root, tracked))
  {
    SeenGrows([], {}, root);
    var clean, list := Visit(m, 0, root, PageSpace.Track([], root), {} + {root});
    ghost var reachable := {root} + Found(m, 0, root, 256);
    ok := clean;
    for i := 0 to |tracked|
      invariant ok <==> clean && forall k :: 0 <= k < i && tracked[k] != 0 ==> tracked[k] in list
    {
      if tracked[i] != 0 {
        var found := Contains(list, tracked[i]);
        ok := ok && found;
      }
    }
    ghost var forward := ok;
    for i := 0 to |list|
      invariant ok <==> forward && forall k :: 0 <= k < i ==> list[k] in tracked
    {
      var found := Contains(tracked, list[i]);
      ok := ok && found;
    }
    if |reachable| <= MAX_TRACKED {
      SeenAll(list, reachable);
      SubsetByIndex(list, tracked);
      SubsetByIndexNonzero(tracked, list);
    }
  }

  lemma SubsetByIndex(a: seq<nat>, b: seq<nat>)
    ensures (forall k :: 0 <= k < |a| ==> a[k] in b) <==> Elements(a) <= Elements(b)
  {
    if Elements(a) <= Elements(b) {
      forall k | 0 <= k < |a| ensures a[k] in b {
        assert a[k] in Elements(a);
      }
    }
  }

  lemma SubsetByIndexNonzero(a: seq<nat>, b: seq<nat>)
    ensures (forall k :: 0 <= k < |a| && a[k] != 0 ==> a[k] in b) <==> Elements(a) - {0} <= Elements(b)
  {
    if Elements(a) - {0} <= Elements(b) {
      forall k | 0 <= k < |a| && a[k] != 0 ensures a[k] in b {
        assert a[k] in Elements(a) - {0};
      }
    }
  }

  /** Every address space built by `allocate_root` and `map_va` passes, up to the capacity of the array. */
  lemma GoodSpacePasses(s: Space)
    requires Good(s) && |Reachable(s.m, s.root)| <= MAX_TRACKED
    ensures Consistent(s.m, s.root, s.tracked)
  {
    TrackedIsReachableIff(s);
    TreeIsClean(s.m, s.root, s.sh, s.root, 256);
  }

  /** Pairwise distinctness is not part of the check. */
  lemma RepeatsGoUnnoticed(m: Mem, root: nat, tracked: seq<nat>)
    requires Consistent(m, root, tracked) && tracked != []
    ensures Consistent(m, root, tracked + [tracked[0]]) && !Distinct(tracked + [tracked[0]])
  {
    assert Elements(tracked + [tracked[0]]) == Elements(tracked);
    assert (tracked + [tracked[0]])[0] == (tracked + [tracked[0]])[|tracked|];
  }

  /** The freeing loops of `free_page_table_tree` below the table `t`. */
  method FreeBelow(phys: PhysMemory<Table>, level: nat, t: nat, ghost root: nat, ghost sh: Shape)
    requires phys.Valid() && level <= 3 && IsTree(phys.pages, root, sh) && t in sh.level && sh.level[t] == level
    requires forall x :: x in Found(phys.pages, level, t, SlotCount(level)) ==> x in phys.tags && phys.tags[x] != Free
    modifies phys`tags, phys`live
    ensures phys.Valid() && phys.tags.Keys == old(phys.tags).Keys
    ensures forall x :: x in phys.tags ==>
      phys.tags[x] == if x in Found(phys.pages, level, t, SlotCount(level)) then Free else old(phys.tags)[x]
    decreases 3 - level
  {
    hide PhysMemory.Valid, IsTree, Found;
    NothingFound(phys.pages, level, t);
    if level == 3 {
      return;
    }
    for i := 0 to SlotCount(level)
      invariant phys.Valid() && phys.tags.Keys == old(phys.tags).Keys
      invariant forall x :: x in phys.tags ==>
        phys.tags[x] == if x in Found(phys.pages, level, t, i) then Free else old(phys.tags)[x]
    {
      TableOfTree(phys.pages, root, sh, t);
      var e := phys.pages[t][i];
      FoundNext(phys.pages, level, t, i);
      if IsTable(e) {
        WalkStaysInTree(phys.pages, root, sh, t, i);
        FoundGrows(phys.pages, level, t, i + 1, SlotCount(level));
        SlotIsFresh(phys.pages, root, sh, t, i);
        FreeBelow(phys, level + 1, e.addr, root, sh);
        phys.FreePage(e.addr);
      }
    }
  }

  lemma TableOfTree(m: Mem, root: nat, sh: Shape, t: nat)
    requires IsTree(m, root, sh) && t in sh.level
    ensures t in m
  {
  }

  lemma NothingFound(m: Mem, level: nat, t: nat)
    requires level <= 3
    ensures Found(m, level, t, 0) == {} && (level == 3 ==> Found(m, level, t, ENTRIES) == {})
  {
  }

  lemma FoundNext(m: Mem, level: nat, t: nat, i: nat)
    requires level < 3 && i < ENTRIES
    ensures var e := Entry(m, t, i);
      Found(m, level, t, i + 1) == if IsTable(e) then Found(m, level, t, i) + {e.addr} + Found(m, level + 1, e.addr,
        ENTRIES)
                                   else Found(m, level, t, i)
  {
  }

  /** Nothing below slot `n` has been met below an earlier slot. */
  lemma SlotIsFresh(m: Mem, root: nat, sh: Shape, t: nat, n: nat)
    requires IsTree(m, root, sh) && t in sh.level && n < SlotCount(sh.level[t]) && Links(m, sh, t, n)
    ensures var a, k := m[t][n].addr, sh.level[t];
      && a !in Found(m, k, t, n) && a !in Found(m, k + 1, a, ENTRIES)
      && Found(m, k + 1, a, ENTRIES) !! Found(m, k, t, n)
  {
    var a, k := m[t][n].addr, sh.level[t];
    FoundDisjoint(m, root, sh, t, n, a);
    forall x | x in Found(m, k + 1, a, ENTRIES) ensures x !in Found(m, k, t, n) {
      FoundDisjoint(m, root, sh, t, n, x);
    }
  }

  /**
   * `free_page_table_tree`: frees every reachable table exactly once (a second free
   * would violate the precondition of `FreePage`).
   */
  method FreePageTableTree(tree: PageTableTree)
    requires tree.Valid() && tree.hasRoot
    modifies tree.phys`tags, tree.phys`live
    ensures tree.phys.Valid() && FreedTags(old(tree.phys.tags), Reachable(tree.phys.pages, tree.l0), tree.phys.tags)
  {
    hide PhysMemory.Valid, Good, IsTree, Found;
    ghost var s := tree.View();
    ReachableAreHeld(s);
    FreeBelow(tree.phys, 0, tree.l0, s.root, s.sh);
    tree.phys.FreePage(tree.l0);
  }

  lemma ReachableAreHeld(s: Space)
    requires Good(s)
    ensures IsTree(s.m, s.root, s.sh) && s.root in s.sh.level && s.sh.level[s.root] == 0
    ensures s.root !in Found(s.m, 0, s.root, 256)
    ensures forall x :: x in Reachable(s.m, s.root) ==> x in s.tags && s.tags[x] != Free
  {
    TreeIsReachable(s.m, s.root, s.sh);
    if s.root in Found(s.m, 0, s.root, 256) {
      FoundIsBelow(s.m, s.root, s.sh, s.root, 256, s.root);
    }
  }

  lemma FreedSameIff(tags: map<nat, PageTag>, a: set<nat>, b: set<nat>, tags1: map<nat, PageTag>, tags2: map<nat,
    PageTag>)
    requires FreedTags(tags, a, tags1) && FreedTags(tags, b, tags2) && a <= b
    requires forall x :: x in b ==> x in tags && tags[x] != Free
    ensures tags1 == tags2 <==> a == b
  {
    if tags1 == tags2 {
      forall x | x in b ensures x in a {
        assert tags2[x] == Free;
      }
    }
  }

  /**
   * Freeing by the tracking array leaves the tags `byList`, freeing by walking the tables leaves `byWalk`:
   * the same frames are free exactly up to the capacity of the array.
   */
  lemma SameFramesFreedIff(s: Space, byList: map<nat, PageTag>, byWalk: map<nat, PageTag>)
    requires Good(s) && FreedTags(s.tags, Elements(s.tracked), byList)
      && FreedTags(s.tags, Reachable(s.m, s.root), byWalk)
    ensures byList == byWalk <==> |Reachable(s.m, s.root)| <= MAX_TRACKED
  {
    hide Good, Found, FreedTags, Elements, IsTree;
    TrackedIsReachableIff(s);
    ReachableAreHeld(s);
    FreedSameIff(s.tags, Elements(s.tracked), Reachable(s.m, s.root), byList, byWalk);
  }
}
