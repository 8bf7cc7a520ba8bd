/**
 * The set of tables a walk of the lower half finds, the checks `validate` makes on
 * them, and their agreement with the tree invariant
 * (kernel/src/arch/aarch64/page_table.rs:340-434, kernel/src/arch/aarch64/mmu.rs:81-107).
 */
module PageReach {
  import opened Common
  import opened Descriptors
  import opened PageWalk

  /** Tables found below the first `n` slots of the table `t` at `level`. */
  ghost function Found(m: Mem, level: nat, t: nat, n: nat): set<nat>
    requires level <= 3 && n <= ENTRIES
    decreases 3 - level, n
  {
    if level == 3 || n == 0 then {}
    else
      var e := Entry(m, t, n - 1);
      Found(m, level, t, n - 1)
      + if IsTable(e) then {e.addr} + Found(m, level + 1, e.addr, ENTRIES) else {}
  }

  /** The root and every table found from its lower half. */
  ghost function Reachable(m: Mem, root: nat): set<nat> {
    {root} + Found(m, 0, root, 256)
  }

  /** No block at level 0 and no reserved word at level 3 below the first `n` slots of `t`. */
  ghost predicate Clean(m: Mem, level: nat, t: nat, n: nat)
    requires level <= 3 && n <= ENTRIES
    decreases 3 - level, n
  {
    n == 0 ||
    var e := Entry(m, t, n - 1);
    && Clean(m, level, t, n - 1)
    && ((level == 0 || level == 3) && e.present ==> e.table)
    && (level < 3 && IsTable(e) ==> Clean(m, level + 1, e.addr, ENTRIES))
  }

  /** Slot `i` of the table `t` holds nothing malformed for its level. */
  predicate SlotSound(m: Mem, level: nat, t: nat, i: nat)
    requires i < ENTRIES
  {
    (level == 0 || level == 3) && Entry(m, t, i).present ==> Entry(m, t, i).table
  }

  predicate InTable(path: seq<nat>) {
    forall k :: 0 <= k < |path| ==> path[k] < ENTRIES
  }

  /** The slot at the end of the path of slot numbers from `t`, if every slot before it leads to a table. */
  predicate EndsSound(m: Mem, level: nat, t: nat, path: seq<nat>)
    requires level <= 3 && path != [] && InTable(path)
    decreases path
  {
    if |path| == 1 then SlotSound(m, level, t, path[0])
    else level < 3 && IsTable(Entry(m, t, path[0])) ==> EndsSound(m, level + 1, Entry(m, t, path[0]).addr, path[1..])
  }

  /** A path of slot numbers, the first below `n`. */
  predicate Path(path: seq<nat>, n: nat) {
    path != [] && path[0] < n && InTable(path)
  }

  /** The check is what it is for: no path, however it descends, ends at a malformed slot. */
  lemma {:induction false} CleanIff(m: Mem, level: nat, t: nat, n: nat)
    requires level <= 3 && n <= ENTRIES
    ensures Clean(m, level, t, n) <==> forall path :: Path(path, n) ==> EndsSound(m, level, t, path)
    decreases 3 - level, n
  {
    hide IsTable, SlotSound;
    if n > 0 {
      CleanIff(m, level, t, n - 1);
      var e := Entry(m, t, n - 1);
      assert Path([n - 1], n) && EndsSound(m, level, t, [n - 1]) == SlotSound(m, level, t, n - 1);
      SoundSlot(m, level, t, n - 1);
      if level < 3 && IsTable(e) {
        CleanIff(m, level + 1, e.addr, ENTRIES);
        forall path | Path(path, ENTRIES) ensures Path([n - 1] + path, n)
          && EndsSound(m, level, t, [n - 1] + path) == EndsSound(m, level + 1, e.addr, path)
        {
          assert ([n - 1] + path)[1..] == path;
        }
      }
      forall path | Path(path, n) && Clean(m, level, t, n) ensures EndsSound(m, level, t, path) {
        if path[0] < n - 1 {
          assert Path(path, n - 1);
        } else if |path| > 1 && level < 3 && IsTable(e) {
          assert Path(path[1..], ENTRIES);
        }
      }
      forall path | Path(path, n - 1) ensures Path(path, n) {
      }
    }
  }

  lemma SoundSlot(m: Mem, level: nat, t: nat, i: nat)
    requires i < ENTRIES
    ensures SlotSound(m, level, t, i) <==>
      ((level == 0 || level == 3) && Entry(m, t, i).present ==> Entry(m, t, i).table)
  {
  }

  /** The ancestor of table `x` at level `k`. */
  ghost function Up(m: Mem, root: nat, sh: Shape, x: nat, k: nat): (a: nat)
    requires IsTree(m, root, sh) && x in sh.level && k <= sh.level[x]
    ensures a in sh.level && sh.level[a] == k
    decreases sh.level[x]
  {
    if sh.level[x] == k then x
    else
      assert Owned(sh, x);
      Up(m, root, sh, sh.owner[x].0, k)
  }

  /** Every table found below slot `j < n` of `t` has the table linked at `j` as ancestor. */
  lemma {:induction false} FoundIsBelow(m: Mem, root: nat, sh: Shape, t: nat, n: nat, x: nat)
    requires IsTree(m, root, sh) && t in sh.level && n <= SlotCount(sh.level[t])
    requires x in Found(m, sh.level[t], t, n)
    ensures x in sh.level && sh.level[x] > sh.level[t] && x != root
    ensures var a := Up(m, root, sh, x, sh.level[t] + 1);
      a in sh.owner && sh.owner[a].0 == t && sh.owner[a].1 < n
    decreases 3 - sh.level[t], n
  {
    var k, e := sh.level[t], m[t][n - 1];
    if x in Found(m, k, t, n - 1) {
      FoundIsBelow(m, root, sh, t, n - 1, x);
    } else {
      assert Links(m, sh, t, n - 1);
      WalkStaysInTree(m, root, sh, t, n - 1);
      if x != e.addr {
        FoundIsBelow(m, root, sh, e.addr, ENTRIES, x);
        UpTwice(m, root, sh, x, k + 2, k + 1);
      }
    }
  }

  lemma {:induction false} UpTwice(m: Mem, root: nat, sh: Shape, x: nat, j: nat, k: nat)
    requires IsTree(m, root, sh) && x in sh.level && k <= j <= sh.level[x]
    ensures Up(m, root, sh, Up(m, root, sh, x, j), k) == Up(m, root, sh, x, k)
    decreases sh.level[x]
  {
    if sh.level[x] > j {
      assert Owned(sh, x);
      UpTwice(m, root, sh, sh.owner[x].0, j, k);
    }
  }

  /** Tables found below different slots are different, and none is found twice. */
  lemma FoundDisjoint(m: Mem, root: nat, sh: Shape, t: nat, n: nat, x: nat)
    requires IsTree(m, root, sh) && t in sh.level && n < SlotCount(sh.level[t])
    requires Links(m, sh, t, n)
    requires x == m[t][n].addr || x in Found(m, sh.level[t] + 1, m[t][n].addr, ENTRIES)
    ensures x !in Found(m, sh.level[t], t, n)
    ensures m[t][n].addr !in Found(m, sh.level[t] + 1, m[t][n].addr, ENTRIES)
  {
    var a := m[t][n].addr;
    var k := sh.level[t];
    WalkStaysInTree(m, root, sh, t, n);
    if a in Found(m, k + 1, a, ENTRIES) {
      FoundIsBelow(m, root, sh, a, ENTRIES, a);
    }
    assert sh.owner[a] == (t, n);
    if x in Found(m, k, t, n) {
      FoundIsBelow(m, root, sh, t, n, x);
      if x != a {
        FoundIsBelow(m, root, sh, a, ENTRIES, x);
        UpTwice(m, root, sh, x, k + 2, k + 1);
      }
    }
  }

  lemma {:induction false} FoundGrows(m: Mem, level: nat, t: nat, i: nat, n: nat)
    requires level <= 3 && i <= n <= ENTRIES
    ensures Found(m, level, t, i) <= Found(m, level, t, n)
    decreases n
  {
    if i < n {
      FoundGrows(m, level, t, i, n - 1);
    }
  }

  /** Whatever is found below a table of the tree is found from the root. */
  lemma {:induction false} FoundFromRoot(m: Mem, root: nat, sh: Shape, t: nat)
    requires IsTree(m, root, sh) && t in sh.level
    ensures t in Reachable(m, root)
    ensures Found(m, sh.level[t], t, SlotCount(sh.level[t])) <= Found(m, 0, root, 256)
    decreases sh.level[t]
  {
    if t != root {
      var p, i := sh.owner[t].0, sh.owner[t].1;
      assert Owned(sh, t);
      FoundFromRoot(m, root, sh, p);
      FoundGrows(m, sh.level[p], p, i + 1, SlotCount(sh.level[p]));
      assert t in Found(m, sh.level[p], p, i + 1);
      assert Found(m, sh.level[t], t, ENTRIES) <= Found(m, sh.level[p], p, i + 1);
    }
  }

  /** The tables of the tree are exactly the tables reachable from the lower half. */
  lemma TreeIsReachable(m: Mem, root: nat, sh: Shape)
    requires IsTree(m, root, sh)
    ensures sh.level.Keys == Reachable(m, root)
  {
    forall t | t in sh.level ensures t in Reachable(m, root) {
      FoundFromRoot(m, root, sh, t);
    }
    forall x | x in Reachable(m, root) ensures x in sh.level {
      if x != root {
        FoundIsBelow(m, root, sh, root, 256, x);
      }
    }
  }

  lemma {:induction false} TreeIsClean(m: Mem, root: nat, sh: Shape, t: nat, n: nat)
    requires IsTree(m, root, sh) && t in sh.level && n <= SlotCount(sh.level[t])
    ensures Clean(m, sh.level[t], t, n)
    decreases 3 - sh.level[t], n
  {
    if n > 0 {
      TreeIsClean(m, root, sh, t, n - 1);
      assert Slot(sh, t, n - 1);
      if sh.level[t] < 3 && IsTable(m[t][n - 1]) {
        assert Links(m, sh, t, n - 1);
        WalkStaysInTree(m, root, sh, t, n - 1);
        TreeIsClean(m, root, sh, m[t][n - 1].addr, ENTRIES);
      }
    }
  }

  /** A walk depends on the tables of its own tree only. */
  lemma {:induction false} WalkFrame(m: Mem, m': Mem, root: nat, sh: Shape, t: nat, va: nat)
    requires IsTree(m, root, sh) && t in sh.level && LowHalf(va)
    requires forall p :: p in sh.level ==> p in m' && m'[p] == m[p]
    ensures Walk(m', sh.level[t], t, va) == Walk(m, sh.level[t], t, va)
    decreases 3 - sh.level[t]
  {
    var k, j := sh.level[t], Index(sh.level[t], va);
    assert Slot(sh, t, j);
    if k < 3 && IsTable(m[t][j]) {
      assert Links(m, sh, t, j);
      WalkStaysInTree(m, root, sh, t, j);
      WalkFrame(m, m', root, sh, m[t][j].addr, va);
    } else {
      assert GoodEntry(k, m[t][j]);
    }
  }

  /** The table that replaces `block` translates `va` as the block did. */
  ghost predicate SplitKeeps(level: nat, block: Pte, q: nat, va: nat)
    requires 1 <= level <= 2 && WellFormed(block) && IsBlock(block)
  {
    Walk(map[q := SplitTable(level, block)], level + 1, q, va) == LeafResult(level, block, va)
  }

  /**
   * Splitting a block keeps every translation exactly when the address bits between
   * the block size and the piece size are clear.
   */
  lemma SplitFaithfulIff(level: nat, block: Pte, q: nat)
    requires 1 <= level <= 2 && WellFormed(block) && IsBlock(block)
    ensures (forall va: nat :: SplitKeeps(level, block, q, va))
      <==> LeafBase(level + 1, block) == LeafBase(level, block)
  {
    if LeafBase(level + 1, block) == LeafBase(level, block) {
      forall va: nat ensures SplitKeeps(level, block, q, va) {
        SplitKeepsIff(level, block, q, va);
      }
    } else {
      SplitKeepsIff(level, block, q, 0);
      assert !SplitKeeps(level, block, q, 0);
    }
  }

  lemma SplitKeepsIff(level: nat, block: Pte, q: nat, va: nat)
    requires 1 <= level <= 2 && WellFormed(block) && IsBlock(block)
    requires va == 0 || LeafBase(level + 1, block) == LeafBase(level, block)
    ensures SplitKeeps(level, block, q, va) <==> LeafBase(level + 1, block) == LeafBase(level, block)
  {
    SplitWalk(level, block, q, va);
    OffsetSplit(level, va);
  }

  lemma SplitWalk(level: nat, block: Pte, q: nat, va: nat)
    requires 1 <= level <= 2 && WellFormed(block) && IsBlock(block)
    requires Index(level + 1, va) == 0 || LeafBase(level + 1, block) == LeafBase(level, block)
    ensures Walk(map[q := SplitTable(level, block)], level + 1, q, va)
      == Some(LeafBase(level + 1, block) + Index(level + 1, va) * EntrySpan(level + 1) + va % EntrySpan(level + 1))
  {
    PieceFields(level, block, Index(level + 1, va));
  }

  /** The 1 GiB block descriptor 0x4020_0401, with bit 21 set, moves by 2 MiB when it is split. */
  lemma MisalignedBlockMoves()
    ensures var block := Pte(true, false, 0x100, 0x4020_0000, 0);
      && Encode(block) == 0x4020_0401 && WellFormed(block) && IsBlock(block)
      && LeafResult(1, block, 0) == Some(0x4000_0000)
      && Walk(map[0 := SplitTable(1, block)], 2, 0, 0) == Some(0x4020_0000)
  {
    SplitWalk(1, Pte(true, false, 0x100, 0x4020_0000, 0), 0, 0);
  }
}
