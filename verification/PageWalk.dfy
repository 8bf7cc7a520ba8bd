/**
 * Translation through a four-level table tree in physical memory, the tree
 * invariant, and what linking a table or writing a page entry does to both
 * (kernel/src/arch/aarch64/page_table.rs, kernel/src/arch/aarch64/mmu.rs).
 */
module PageWalk {
  import opened Arith
  import opened Common
  import opened Descriptors

  /** A word of physical memory; unbacked addresses read as zero. */
  function Entry(m: Mem, pa: nat, i: nat): Pte
    requires i < ENTRIES
  {
    if pa in m then m[pa][i] else ZERO_PTE
  }

  /** The walk of `translate_va` and `translate_user_va` from a table at `level`. */
  function Walk(m: Mem, level: nat, pa: nat, va: nat): Option<nat>
    requires level <= 3
    decreases 3 - level
  {
    var e := Entry(m, pa, Index(level, va));
    if !e.present then None
    else if level == 3 || (level > 0 && !e.table) then Some(LeafBase(level, e) + va % EntrySpan(level))
    else Walk(m, level + 1, e.addr, va)
  }

  /**
   * The tables of one address space: their levels, and for every table but the root
   * the one slot that points to it.
   */
  datatype Shape = Shape(level: map<nat, nat>, owner: map<nat, (nat, nat)>)

  /** Only the lower half of the root belongs to the address space. */
  function SlotCount(level: nat): nat {
    if level == 0 then 256 else ENTRIES
  }

  predicate Slot(sh: Shape, p: nat, i: nat) {
    p in sh.level && i < SlotCount(sh.level[p])
  }

  /** A slot whose descriptor points to a next-level table. */
  predicate Links(m: Mem, sh: Shape, p: nat, i: nat) {
    Slot(sh, p, i) && p in m && sh.level[p] < 3 && i < ENTRIES && IsTable(m[p][i])
  }

  /** A table other than the root. */
  predicate Owned(sh: Shape, q: nat) {
    q in sh.owner && q in sh.level
  }

  /** Per-level descriptor formats: no block at level 0, aligned blocks, no reserved level-3 word. */
  predicate GoodEntry(level: nat, e: Pte) {
    && WellFormed(e)
    && (e.present ==>
      && (level == 0 || level == 3 ==> e.table)
      && (1 <= level <= 2 && !e.table ==> AlignedBlock(level, e)))
  }

  ghost predicate IsTree(m: Mem, root: nat, sh: Shape) {
    && root in sh.level && sh.level[root] == 0
    && (forall p :: p in sh.level ==> p in m && sh.level[p] <= 3)
    && sh.owner.Keys == sh.level.Keys - {root}
    && (forall p: nat, i: nat :: Slot(sh, p, i) ==> GoodEntry(sh.level[p], m[p][i]))
    && (forall p: nat, i: nat :: Links(m, sh, p, i) ==>
          m[p][i].addr in sh.owner && sh.owner[m[p][i].addr] == (p, i))
    && (forall q {:trigger Owned(sh, q)} :: Owned(sh, q) ==>
          Links(m, sh, sh.owner[q].0, sh.owner[q].1)
          && m[sh.owner[q].0][sh.owner[q].1].addr == q
          && sh.level[q] == sh.level[sh.owner[q].0] + 1)
  }

  /** `m` with word `i` of table `p` replaced. */
  function SetEntry(m: Mem, p: nat, i: nat, e: Pte): Mem
    requires p in m && i < ENTRIES
  {
    m[p := m[p][i := e]]
  }

  /** `m` with the new table `q` holding `content`, linked from slot `i` of `p`. */
  function Link(m: Mem, p: nat, i: nat, q: nat, content: Table): Mem
    requires p in m && i < ENTRIES && p != q
  {
    SetEntry(m[q := content], p, i, TableDesc(q))
  }

  function Grow(sh: Shape, p: nat, i: nat, q: nat): Shape
    requires p in sh.level
  {
    Shape(sh.level[q := sh.level[p] + 1], sh.owner[q := (p, i)])
  }

  /** What a new table may hold so that it adds no further table to the tree. */
  predicate LeafTable(level: nat, content: Table) {
    forall i :: 0 <= i < ENTRIES ==> GoodEntry(level, content[i]) && (level < 3 ==> !IsTable(content[i]))
  }

  predicate FreshTable(sh: Shape, q: nat) {
    q !in sh.level && q % PAGE_SIZE == 0 && q < VA_SPAN
  }

  /** Linking a fresh leaf table into a slot that linked none keeps the tree. */
  lemma {:induction false} LinkKeepsTree(m: Mem, root: nat, sh: Shape, p: nat, i: nat, q: nat, content: Table)
    requires IsTree(m, root, sh) && Slot(sh, p, i) && sh.level[p] < 3
    requires !Links(m, sh, p, i) && FreshTable(sh, q)
    requires LeafTable(sh.level[p] + 1, content)
    ensures IsTree(Link(m, p, i, q, content), root, Grow(sh, p, i, q))
  {
    var m', sh' := Link(m, p, i, q, content), Grow(sh, p, i, q);
    Mask48Keeps(q);
    assert m'[p][i] == TableDesc(q) && m'[q] == content;
    forall r: nat, j: nat | Slot(sh', r, j)
      ensures GoodEntry(sh'.level[r], m'[r][j])
      ensures Links(m', sh', r, j) ==>
        m'[r][j].addr in sh'.owner && sh'.owner[m'[r][j].addr] == (r, j)
    {
      if r == q {
      } else if r == p && j == i {
      } else {
        assert Slot(sh, r, j) && m'[r][j] == m[r][j];
      }
    }
    forall t | Owned(sh', t)
      ensures Links(m', sh', sh'.owner[t].0, sh'.owner[t].1)
        && m'[sh'.owner[t].0][sh'.owner[t].1].addr == t
        && sh'.level[t] == sh'.level[sh'.owner[t].0] + 1
    {
      if t != q {
        var r, j := sh.owner[t].0, sh.owner[t].1;
        assert Owned(sh, t) && Links(m, sh, r, j);
      }
    }
  }

  /** Every step of a walk inside the tree stays inside the tree, one level down. */
  lemma WalkStaysInTree(m: Mem, root: nat, sh: Shape, p: nat, i: nat)
    requires IsTree(m, root, sh) && Links(m, sh, p, i)
    ensures var q := m[p][i].addr; Owned(sh, q) && q != root && sh.level[q] == sh.level[p] + 1
  {
    assert Owned(sh, m[p][i].addr);
  }

  /** An address is in the lower half when its level-0 index is below 256. */
  predicate LowHalf(va: nat) {
    Index(0, va) < 256
  }

  /** What the walk makes of entry `e` found at `level` when `e` links no table. */
  function LeafResult(level: nat, e: Pte, va: nat): Option<nat>
    requires 0 <= level <= 3
    requires e.present ==> level > 0
  {
    if e.present then Some(LeafBase(level, e) + va % EntrySpan(level)) else None
  }

  /**
   * Linking a table that translates its slot's addresses as the slot did before
   * changes no translation from any table of the tree.
   */
  lemma {:induction false} LinkKeepsWalk(m: Mem, root: nat, sh: Shape, p: nat, i: nat, q: nat, content: Table,
                                         t: nat, va: nat)
    requires IsTree(m, root, sh) && Slot(sh, p, i) && sh.level[p] < 3
    requires !Links(m, sh, p, i) && FreshTable(sh, q)
    requires Walk(map[q := content], sh.level[p] + 1, q, va) == LeafResult(sh.level[p], m[p][i], va)
    requires LeafTable(sh.level[p] + 1, content)
    requires t in sh.level && LowHalf(va)
    ensures Walk(Link(m, p, i, q, content), sh.level[t], t, va) == Walk(m, sh.level[t], t, va)
    decreases 3 - sh.level[t]
  {
    var m' := Link(m, p, i, q, content);
    var k, j := sh.level[t], Index(sh.level[t], va);
    assert Slot(sh, t, j);
    assert GoodEntry(k, m[t][j]);
    if t == p && j == i {
      Mask48Keeps(q);
      assert m'[t][j] == TableDesc(q);
      WalkLinked(m', k, t, va);
      WalkLeafTable(m', map[q := content], k + 1, q, va);
      WalkUnlinked(m, k, t, va);
    } else {
      assert m'[t][j] == m[t][j];
      if k < 3 && IsTable(m[t][j]) {
        assert Links(m, sh, t, j);
        WalkStaysInTree(m, root, sh, t, j);
        WalkLinked(m, k, t, va);
        WalkLinked(m', k, t, va);
        LinkKeepsWalk(m, root, sh, p, i, q, content, m[t][j].addr, va);
      } else {
        WalkUnlinked(m, k, t, va);
        WalkUnlinked(m', k, t, va);
      }
    }
  }

  lemma WalkLinked(m: Mem, level: nat, t: nat, va: nat)
    requires level < 3 && IsTable(Entry(m, t, Index(level, va)))
    ensures Walk(m, level, t, va) == Walk(m, level + 1, Entry(m, t, Index(level, va)).addr, va)
  {
  }

  lemma WalkUnlinked(m: Mem, level: nat, t: nat, va: nat)
    requires level <= 3
    requires var e := Entry(m, t, Index(level, va)); GoodEntry(level, e) && (level < 3 ==> !IsTable(e))
    ensures Walk(m, level, t, va) == LeafResult(level, Entry(m, t, Index(level, va)), va)
  {
  }

  /** A walk from a leaf table depends on that table only. */
  lemma WalkLeafTable(m: Mem, m': Mem, level: nat, q: nat, va: nat)
    requires level <= 3 && q in m && q in m' && m[q] == m'[q] && level > 0
    requires LeafTable(level, m[q])
    ensures Walk(m, level, q, va) == Walk(m', level, q, va)
  {
    assert GoodEntry(level, m[q][Index(level, va)]);
  }

  /** A zeroed table translates nothing. */
  lemma ZeroTableWalk(q: nat, level: nat, va: nat)
    requires level <= 3
    ensures LeafTable(level, ZERO_TABLE)
    ensures Walk(map[q := ZERO_TABLE], level, q, va) == None
  {
  }

  /** Content of the table that replaces `block`, a block found at `level`. */
  function SplitTable(level: nat, block: Pte): Table
    requires 1 <= level <= 2
  {
    seq(ENTRIES, i requires 0 <= i < ENTRIES => Piece(level, block, i))
  }

  lemma OffsetSplit(level: nat, va: nat)
    requires 1 <= level <= 2
    ensures va % EntrySpan(level) == Index(level + 1, va) * EntrySpan(level + 1) + va % EntrySpan(level + 1)
  {
    if level == 1 {
      var n := va / SIZE_2M;
      DivUnique(va, SIZE_1G, n / 512, n % 512 * SIZE_2M + va % SIZE_2M);
    } else {
      var n := va / PAGE_SIZE;
      DivUnique(va, SIZE_2M, n / 512, n % 512 * PAGE_SIZE + va % PAGE_SIZE);
    }
  }

  /** Splitting an aligned block translates every address of the block as the block did. */
  lemma SplitTableWalk(level: nat, block: Pte, q: nat, va: nat)
    requires 1 <= level <= 2 && WellFormed(block) && IsBlock(block) && AlignedBlock(level, block)
    ensures LeafTable(level + 1, SplitTable(level, block))
    ensures Walk(map[q := SplitTable(level, block)], level + 1, q, va) == LeafResult(level, block, va)
  {
    var content := SplitTable(level, block);
    forall i | 0 <= i < ENTRIES
      ensures GoodEntry(level + 1, content[i]) && (level + 1 < 3 ==> !IsTable(content[i]))
      ensures content[i].present && LeafBase(level + 1, content[i]) == LeafBase(level, block) + i * EntrySpan(level + 1)
    {
      PieceFields(level, block, i);
    }
    OffsetSplit(level, va);
  }

  /** The chain of tables visited for `va` from `t` down to the level-3 table `l3`. */
  predicate Reaches(m: Mem, level: nat, t: nat, va: nat, l3: nat)
    requires level <= 3
    decreases 3 - level
  {
    if level == 3 then t == l3
    else IsTable(Entry(m, t, Index(level, va)))
         && Reaches(m, level + 1, Entry(m, t, Index(level, va)).addr, va, l3)
  }

  /** The two addresses agree in every index from `level` down, so from level 0: same page. */
  predicate SameIndices(level: nat, va: nat, vb: nat)
    requires level <= 3
    decreases 3 - level
  {
    Index(level, va) == Index(level, vb) && (level < 3 ==> SameIndices(level + 1, va, vb))
  }

  /** Two addresses with equal indices at all four levels lie in the same page of the 48-bit space. */
  lemma SameIndicesIsSamePage(va: nat, vb: nat)
    ensures SameIndices(0, va, vb) <==> va % VA_SPAN / PAGE_SIZE == vb % VA_SPAN / PAGE_SIZE
  {
    PageNumber(va);
    PageNumber(vb);
  }

  lemma SameSpan(level: nat, va: nat, vb: nat)
    requires level <= 3 && va / PAGE_SIZE == vb / PAGE_SIZE
    ensures va / EntrySpan(level) == vb / EntrySpan(level)
    ensures va % EntrySpan(level) - vb % EntrySpan(level) == va % PAGE_SIZE - vb % PAGE_SIZE
  {
    Quotients(va);
    Quotients(vb);
  }

  /** Translation is uniform over a page: the bytes of one page all translate, to one frame, or none does. */
  lemma {:induction false} PageUniform(m: Mem, level: nat, t: nat, va: nat, vb: nat)
    requires level <= 3 && va / PAGE_SIZE == vb / PAGE_SIZE
    ensures Walk(m, level, t, va).Some? <==> Walk(m, level, t, vb).Some?
    ensures Walk(m, level, t, va).Some? ==>
      Walk(m, level, t, va).value - va % PAGE_SIZE == Walk(m, level, t, vb).value - vb % PAGE_SIZE
    decreases 3 - level
  {
    SameSpan(level, va, vb);
    var e := Entry(m, t, Index(level, va));
    if e.present && level < 3 && !(level > 0 && !e.table) {
      PageUniform(m, level + 1, e.addr, va, vb);
    }
  }

  /** The 36-bit page number is the four indices in base 512. */
  lemma PageNumber(va: nat)
    ensures va % VA_SPAN / PAGE_SIZE
      == ((Index(0, va) * 512 + Index(1, va)) * 512 + Index(2, va)) * 512 + Index(3, va)
  {
    var n := va / PAGE_SIZE;
    PageNumberOfOffset(va);
    Quotients(va);
    Digits(n);
    assert Index(0, va) == n / 512 / 512 / 512 % 512;
    assert Index(1, va) == n / 512 / 512 % 512;
    assert Index(2, va) == n / 512 % 512;
    assert Index(3, va) == n % 512;
  }

  lemma PageNumberOfOffset(va: nat)
    ensures va % VA_SPAN / PAGE_SIZE == va / PAGE_SIZE % 0x10_0000_0000
  {
    var n := va / PAGE_SIZE;
    var k := n % 0x10_0000_0000;
    DivUnique(va, VA_SPAN, n / 0x10_0000_0000, k * PAGE_SIZE + va % PAGE_SIZE);
    DivUnique(k * PAGE_SIZE + va % PAGE_SIZE, PAGE_SIZE, k, va % PAGE_SIZE);
  }

  lemma Digits(n: nat)
    ensures n % 0x10_0000_0000
      == ((n / 512 / 512 / 512 % 512 * 512 + n / 512 / 512 % 512) * 512 + n / 512 % 512) * 512 + n % 512
  {
    var a := n / 512;
    var b := a / 512;
    var c := b / 512;
    DivUnique(n, 0x10_0000_0000, c / 512, ((c % 512 * 512 + b % 512) * 512 + a % 512) * 512 + n % 512);
  }

  /** Two walks through the tree that end in the same level-3 table took the same path. */
  lemma {:induction false} PathIsUnique(m: Mem, root: nat, sh: Shape, ta: nat, tb: nat, va: nat, vb: nat, l3: nat)
    requires IsTree(m, root, sh) && LowHalf(va) && LowHalf(vb)
    requires ta in sh.level && tb in sh.level && sh.level[ta] == sh.level[tb]
    requires Reaches(m, sh.level[ta], ta, va, l3) && Reaches(m, sh.level[tb], tb, vb, l3)
    ensures ta == tb
    ensures sh.level[ta] < 3 ==> forall k :: sh.level[ta] <= k < 3 ==> Index(k, va) == Index(k, vb)
    decreases 3 - sh.level[ta]
  {
    var k := sh.level[ta];
    if k < 3 {
      var i, j := Index(k, va), Index(k, vb);
      assert Slot(sh, ta, i) && Slot(sh, tb, j);
      WalkStaysInTree(m, root, sh, ta, i);
      WalkStaysInTree(m, root, sh, tb, j);
      PathIsUnique(m, root, sh, m[ta][i].addr, m[tb][j].addr, va, vb, l3);
    }
  }

  /** Indices shared down to level 3 lead to the same level-3 table, and only they do. */
  lemma SamePathIff(m: Mem, root: nat, sh: Shape, va: nat, vb: nat, l3: nat)
    requires IsTree(m, root, sh) && LowHalf(va) && LowHalf(vb) && Reaches(m, 0, root, va, l3)
    ensures Reaches(m, 0, root, vb, l3) && Index(3, va) == Index(3, vb) <==> SameIndices(0, va, vb)
  {
    if Reaches(m, 0, root, vb, l3) {
      PathIsUnique(m, root, sh, root, root, va, vb, l3);
    }
    if SameIndices(0, va, vb) {
      ReachesSame(m, 0, root, va, vb, l3);
    }
  }

  lemma {:induction false} ReachesSame(m: Mem, level: nat, t: nat, va: nat, vb: nat, l3: nat)
    requires level <= 3 && SameIndices(level, va, vb) && Reaches(m, level, t, va, l3)
    ensures Reaches(m, level, t, vb, l3)
    decreases 3 - level
  {
    if level < 3 {
      ReachesSame(m, level + 1, Entry(m, t, Index(level, va)).addr, va, vb, l3);
    }
  }

  /** Writing a page entry for `va` maps that page and leaves every other page of the lower half alone. */
  lemma {:induction false} WritePageWalk(m: Mem, root: nat, sh: Shape, l3: nat, va: nat, e: Pte, t: nat, vb: nat)
    requires IsTree(m, root, sh) && LowHalf(va) && LowHalf(vb)
    requires l3 in sh.level && sh.level[l3] == 3 && IsTable(e) && WellFormed(e)
    requires t in sh.level && Reaches(m, 0, root, va, l3)
    ensures var m' := SetEntry(m, l3, Index(3, va), e);
      Walk(m', sh.level[t], t, vb)
      == if Reaches(m, sh.level[t], t, vb, l3) && Index(3, va) == Index(3, vb)
         then Some(e.addr + vb % PAGE_SIZE) else Walk(m, sh.level[t], t, vb)
    decreases 3 - sh.level[t]
  {
    var k, j := sh.level[t], Index(sh.level[t], vb);
    assert Slot(sh, t, j);
    assert GoodEntry(k, m[t][j]);
    if k < 3 {
      assert SetEntry(m, l3, Index(3, va), e)[t] == m[t];
      if IsTable(m[t][j]) {
        assert Links(m, sh, t, j);
        WalkStaysInTree(m, root, sh, t, j);
        WritePageWalk(m, root, sh, l3, va, e, m[t][j].addr, vb);
      }
    }
  }

  lemma WritePageKeepsTree(m: Mem, root: nat, sh: Shape, l3: nat, i: nat, e: Pte)
    requires IsTree(m, root, sh) && l3 in sh.level && sh.level[l3] == 3 && i < ENTRIES && IsTable(e) && WellFormed(e)
    ensures IsTree(SetEntry(m, l3, i, e), root, sh)
  {
    var m' := SetEntry(m, l3, i, e);
    forall p: nat, j: nat | Slot(sh, p, j)
      ensures GoodEntry(sh.level[p], m'[p][j])
      ensures sh.level[p] < 3 ==> m'[p][j] == m[p][j]
    {
      assert GoodEntry(sh.level[p], m[p][j]);
    }
  }
}
