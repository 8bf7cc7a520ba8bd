/**
 * The attributes of mapped pages: what `map_va` stores for the page it maps, and what splitting a block on
 * the way does to the attributes of the pages around it (kernel/src/arch/aarch64/page_table.rs).
 */
module PageRights {
  import opened Common
  import opened Descriptors
  import opened PageSpace
  import opened PageWalk
  import opened Phys

  /** Attribute bits 11..2 and 63..48 of a leaf. */
  datatype Rights = Rights(low: nat, high: nat)

  /** The attributes under which a walk from a table at `level` ends. */
  function Leaf(m: Mem, level: nat, t: nat, va: nat): Option<Rights>
    requires level <= 3
    decreases 3 - level
  {
    var e := Entry(m, t, Index(level, va));
    if !e.present then None
    else if level == 3 || (level > 0 && !e.table) then Some(Rights(e.low, e.high))
    else Leaf(m, level + 1, e.addr, va)
  }

  function RightsOf(s: Space, va: nat): Option<Rights> {
    Leaf(s.m, 0, s.root, va)
  }

  /** A page has attributes exactly when it is mapped. */
  lemma {:induction false} LeafIffMapped(m: Mem, level: nat, t: nat, va: nat)
    requires level <= 3
    ensures Leaf(m, level, t, va).Some? <==> Walk(m, level, t, va).Some?
    decreases 3 - level
  {
    var e := Entry(m, t, Index(level, va));
    if e.present && level < 3 && !(level > 0 && !e.table) {
      LeafIffMapped(m, level + 1, e.addr, va);
    }
  }

  /** The user bit set and the execute-never bits cleared. */
  function Relaxed(r: Option<Rights>): Option<Rights> {
    match r
    case None => None
    case Some(x) => Some(Rights(if x.low / 16 % 2 == 1 then x.low else x.low + 16, x.high % 16))
  }

  // ----- what the bits grant, section D8.4 of the Arm Architecture Reference Manual -----

  predicate UserMay(r: Rights) {
    r.low / 16 % 2 == 1
  }

  predicate ReadOnly(r: Rights) {
    r.low / 32 % 2 == 1
  }

  predicate NobodyExecutes(r: Rights) {
    r.high / 32 % 2 == 1 && r.high / 64 % 2 == 1
  }

  predicate EverybodyExecutes(r: Rights) {
    r.high / 32 % 2 == 0 && r.high / 64 % 2 == 0
  }

  function Asked(f: MapFlags): Rights {
    Rights(AttrLow(f), AttrHigh(f))
  }

  /**
   * The bits grant the access asked for exactly when the page is for the user or writable: a kernel page
   * asked to be read-only is writable, and open to the user.
   */
  lemma GrantedIff(f: MapFlags)
    ensures if f.executable then EverybodyExecutes(Asked(f)) else NobodyExecutes(Asked(f))
    ensures (UserMay(Asked(f)) <==> f.user) && (ReadOnly(Asked(f)) <==> !f.writable) <==> f.user || f.writable
    ensures !f.user && !f.writable ==> UserMay(Asked(f)) && !ReadOnly(Asked(f))
  {
  }

  /** Relaxing opens a page to the user and lets everybody execute it; nothing else about it changes. */
  lemma RelaxedGrants(r: Rights)
    requires r.low < 1024 && r.high < 0x1_0000
    ensures var x := Relaxed(Some(r)).value;
      && UserMay(x) && EverybodyExecutes(x) && (ReadOnly(x) <==> ReadOnly(r))
      && x.low - x.low / 16 % 2 * 16 == r.low - r.low / 16 % 2 * 16
    ensures Relaxed(Some(r)) == Some(r) <==> UserMay(r) && r.high < 16
    ensures Relaxed(Relaxed(Some(r))) == Relaxed(Some(r))
  {
    if r.low / 16 % 2 == 0 {
      assert (r.low + 16) / 16 == r.low / 16 + 1;
      assert (r.low + 16) / 32 == r.low / 32;
    }
  }

  // ----- the steps -----

  /** What the table linked into a slot that held `e` is filled with. */
  predicate Filled(level: nat, e: Pte, content: Table) {
    if e.present then 1 <= level <= 2 && content == SplitTable(level, e)
    else forall k :: 0 <= k < ENTRIES ==> !content[k].present
  }

  /** The frame `q` linked at slot (`p`, `i`), which linked no table before. */
  ghost predicate LinkedNew(s: Space, s': Space, p: nat, i: nat, q: nat) {
    && Slot(s.sh, p, i) && p in s.m && i < ENTRIES && p != q && s.sh.level[p] < 3 && !Links(s.m, s.sh, p, i)
    && FreshTable(s.sh, q) && q in s'.m && Filled(s.sh.level[p], s.m[p][i], s'.m[q])
    && s'.m == Link(s.m, p, i, q, s'.m[q])
  }

  /** One descent at slot (`p`, `i`): memory as it was, or one table linked there. */
  ghost predicate Stepped(s: Space, s': Space, p: nat, i: nat) {
    s'.root == s.root && (s'.m == s.m || exists q: nat :: LinkedNew(s, s', p, i, q))
  }

  /** The walk for `va` from `t` passes slot (`p`, `i`). */
  predicate Through(m: Mem, level: nat, t: nat, va: nat, p: nat, i: nat)
    requires level <= 3
    decreases 3 - level
  {
    var e := Entry(m, t, Index(level, va));
    (t == p && Index(level, va) == i) || (level < 3 && IsTable(e) && Through(m, level + 1, e.addr, va, p, i))
  }

  /** Linking a table relaxes the addresses whose walk passed the slot and keeps all others. */
  lemma {:induction false} LinkRights(m: Mem, root: nat, sh: Shape, p: nat, i: nat, q: nat, content: Table, t: nat,
    va: nat)
    requires IsTree(m, root, sh) && Slot(sh, p, i) && sh.level[p] < 3 && !Links(m, sh, p, i) && FreshTable(sh, q)
    requires Filled(sh.level[p], m[p][i], content) && t in sh.level && LowHalf(va)
    ensures Leaf(Link(m, p, i, q, content), sh.level[t], t, va)
      == var r := Leaf(m, sh.level[t], t, va); if Through(m, sh.level[t], t, va, p, i) then Relaxed(r) else r
    decreases 3 - sh.level[t]
  {
    var m' := Link(m, p, i, q, content);
    var k, j := sh.level[t], Index(sh.level[t], va);
    assert Slot(sh, t, j);
    assert GoodEntry(k, m[t][j]);
    if t == p && j == i {
      Mask48Keeps(q);
      assert m'[t][j] == TableDesc(q) && m'[q] == content;
      NewTableLeaf(m', k, m[p][i], q, va);
    } else {
      assert m'[t][j] == m[t][j];
      if k < 3 && IsTable(m[t][j]) {
        assert Links(m, sh, t, j);
        WalkStaysInTree(m, root, sh, t, j);
        LinkRights(m, root, sh, p, i, q, content, m[t][j].addr, va);
      }
    }
  }

  lemma NewTableLeaf(m: Mem, level: nat, e: Pte, q: nat, va: nat)
    requires level < 3 && q in m && Filled(level, e, m[q]) && !IsTable(e)
    ensures Leaf(m, level + 1, q, va) == if e.present then Relaxed(Some(Rights(e.low, e.high))) else None
  {
    assert !e.present ==> !m[q][Index(level + 1, va)].present;
  }

  // ----- the block around an address -----

  /** The walk for `va` ends at a block, and the one for `vb` at the same one. */
  predicate Meets(m: Mem, level: nat, t: nat, va: nat, vb: nat)
    requires level <= 3
    decreases 3 - level
  {
    var e := Entry(m, t, Index(level, va));
    && Index(level, va) == Index(level, vb) && e.present && level < 3
    && if level > 0 && !e.table then true else e.table && Meets(m, level + 1, e.addr, va, vb)
  }

  ghost predicate SameBlock(s: Space, va: nat, vb: nat) {
    Meets(s.m, 0, s.root, va, vb)
  }

  lemma {:induction false} ThroughLevel(m: Mem, root: nat, sh: Shape, t: nat, va: nat, p: nat, i: nat)
    requires IsTree(m, root, sh) && LowHalf(va) && t in sh.level && Through(m, sh.level[t], t, va, p, i)
    ensures p in sh.level && sh.level[t] <= sh.level[p]
    ensures sh.level[t] == sh.level[p] ==> t == p && Index(sh.level[t], va) == i
    decreases 3 - sh.level[t]
  {
    var k, j := sh.level[t], Index(sh.level[t], va);
    if !(t == p && j == i) {
      assert Slot(sh, t, j);
      WalkStaysInTree(m, root, sh, t, j);
      ThroughLevel(m, root, sh, m[t][j].addr, va, p, i);
    }
  }

  /** Two walks that pass the same block start at the same table and share their indices down to it. */
  lemma {:induction false} ThroughBoth(m: Mem, root: nat, sh: Shape, ta: nat, tb: nat, va: nat, vb: nat, p: nat, i: nat)
    requires IsTree(m, root, sh) && LowHalf(va) && LowHalf(vb) && Slot(sh, p, i)
    requires 1 <= sh.level[p] <= 2 && IsBlock(m[p][i])
    requires ta in sh.level && tb in sh.level && sh.level[ta] == sh.level[tb]
    requires Through(m, sh.level[ta], ta, va, p, i) && Through(m, sh.level[tb], tb, vb, p, i)
    ensures ta == tb && Meets(m, sh.level[ta], ta, va, vb)
    decreases 3 - sh.level[ta]
  {
    var k := sh.level[ta];
    ThroughLevel(m, root, sh, ta, va, p, i);
    ThroughLevel(m, root, sh, tb, vb, p, i);
    if k < sh.level[p] {
      var ia, ib := Index(k, va), Index(k, vb);
      assert Slot(sh, ta, ia) && Slot(sh, tb, ib);
      WalkStaysInTree(m, root, sh, ta, ia);
      WalkStaysInTree(m, root, sh, tb, ib);
      ThroughBoth(m, root, sh, m[ta][ia].addr, m[tb][ib].addr, va, vb, p, i);
    }
  }

  /** An address in the same block passes the same slot, and that slot holds the block. */
  lemma {:induction false} MeetsThrough(m: Mem, level: nat, t: nat, va: nat, vb: nat, p: nat, i: nat)
    requires level <= 3 && i < ENTRIES && Through(m, level, t, va, p, i) && !IsTable(Entry(m, p, i))
      && Meets(m, level, t, va, vb)
    ensures Through(m, level, t, vb, p, i) && IsBlock(Entry(m, p, i))
    decreases 3 - level
  {
    if !(t == p && Index(level, va) == i) {
      MeetsThrough(m, level + 1, Entry(m, t, Index(level, va)).addr, va, vb, p, i);
    }
  }

  /** A block of the new tree lies inside a block of the old one. */
  lemma {:induction false} MeetsBefore(m: Mem, root: nat, sh: Shape, p: nat, i: nat, q: nat, content: Table, t: nat,
    va: nat, vb: nat)
    requires IsTree(m, root, sh) && Slot(sh, p, i) && sh.level[p] < 3 && !Links(m, sh, p, i) && FreshTable(sh, q)
    requires Filled(sh.level[p], m[p][i], content) && t in sh.level && LowHalf(va)
    requires Meets(Link(m, p, i, q, content), sh.level[t], t, va, vb)
    ensures Meets(m, sh.level[t], t, va, vb)
    decreases 3 - sh.level[t]
  {
    var m' := Link(m, p, i, q, content);
    var k, j := sh.level[t], Index(sh.level[t], va);
    assert Slot(sh, t, j);
    assert GoodEntry(k, m[t][j]);
    if t == p && j == i {
      Mask48Keeps(q);
      assert m'[t][j] == TableDesc(q) && m'[q] == content;
      assert Meets(m', k + 1, q, va, vb);
    } else {
      assert m'[t][j] == m[t][j];
      if k < 3 && IsTable(m[t][j]) {
        assert Links(m, sh, t, j);
        WalkStaysInTree(m, root, sh, t, j);
        MeetsBefore(m, root, sh, p, i, q, content, m[t][j].addr, va, vb);
      }
    }
  }

  // ----- descents -----

  /** At `vb`: attributes kept, or relaxed because `vb` lies in the block around `va` that was split. */
  ghost predicate LoosenedAt(s: Space, s': Space, va: nat, vb: nat) {
    && (SameBlock(s', va, vb) ==> SameBlock(s, va, vb))
    && (RightsOf(s', vb) == RightsOf(s, vb)
        || (SameBlock(s, va, vb) && RightsOf(s', vb) == Relaxed(RightsOf(s, vb))))
    && (SameBlock(s, va, vb) && !SameBlock(s', va, vb) ==> RightsOf(s', vb) == Relaxed(RightsOf(s, vb)))
  }

  ghost predicate Loosened(s: Space, s': Space, va: nat) {
    forall vb: nat :: LowHalf(vb) ==> LoosenedAt(s, s', va, vb)
  }

  lemma LoosenedKept(s: Space, s': Space, va: nat)
    requires s'.m == s.m && s'.root == s.root
    ensures Loosened(s, s', va)
  {
  }

  lemma LoosenedTwice(a: Space, b: Space, c: Space, va: nat)
    requires Loosened(a, b, va) && Loosened(b, c, va)
    ensures Loosened(a, c, va)
  {
    hide RightsOf, SameBlock;
    forall vb: nat | LowHalf(vb) ensures LoosenedAt(a, c, va, vb) {
      assert LoosenedAt(a, b, va, vb) && LoosenedAt(b, c, va, vb);
      RelaxedTwice(RightsOf(a, vb));
    }
  }

  lemma RelaxedTwice(r: Option<Rights>)
    ensures Relaxed(Relaxed(r)) == Relaxed(r)
  {
    if r.Some? && r.value.low / 16 % 2 == 0 {
      assert (r.value.low + 16) / 16 == r.value.low / 16 + 1;
    }
  }

  lemma StepLoosens(s: Space, s': Space, p: nat, i: nat, va: nat)
    requires Good(s) && Stepped(s, s', p, i) && LowHalf(va) && Through(s.m, 0, s.root, va, p, i)
    ensures Loosened(s, s', va)
  {
    hide OwnsFrames, TracksTables, IsTree, Leaf, Meets, Through, Filled;
    if s'.m == s.m {
      LoosenedKept(s, s', va);
    } else {
      var q: nat :| LinkedNew(s, s', p, i, q);
      RootOfTree(s);
      forall vb: nat | LowHalf(vb) ensures LoosenedAt(s, s', va, vb) {
        LinkLoosens(s, s', p, i, q, va, vb);
      }
    }
  }

  /** Adding a table to a slot without one is such a step. */
  lemma AddedStep(s: Space, p: nat, i: nat, q: nat, content: Table)
    requires Good(s) && Slot(s.sh, p, i) && s.sh.level[p] < 3 && !Links(s.m, s.sh, p, i)
    requires IsFrame(q) && q >= s.cursor && Filled(s.sh.level[p], s.m[p][i], content)
    ensures Stepped(s, AddTable(s, p, i, q, content), p, i)
  {
    hide Filled;
    assert LinkedNew(s, AddTable(s, p, i, q, content), p, i, q);
  }

  lemma RootOfTree(s: Space)
    requires Good(s)
    ensures IsTree(s.m, s.root, s.sh) && s.root in s.sh.level && s.sh.level[s.root] == 0
  {
  }

  lemma LinkLoosens(s: Space, s': Space, p: nat, i: nat, q: nat, va: nat, vb: nat)
    requires IsTree(s.m, s.root, s.sh) && s.root in s.sh.level && s.sh.level[s.root] == 0
    requires s'.root == s.root && LinkedNew(s, s', p, i, q)
    requires LowHalf(va) && LowHalf(vb) && Through(s.m, 0, s.root, va, p, i)
    ensures LoosenedAt(s, s', va, vb)
  {
    hide IsTree, Leaf, Meets, Through, Link, FreshTable;
    var block := s.m[p][i];
    LinkRights(s.m, s.root, s.sh, p, i, q, s'.m[q], s.root, vb);
    if SameBlock(s', va, vb) {
      MeetsBefore(s.m, s.root, s.sh, p, i, q, s'.m[q], s.root, va, vb);
    }
    NotATable(s, p, i);
    if SameBlock(s, va, vb) {
      MeetsThrough(s.m, 0, s.root, va, vb, p, i);
    } else if Through(s.m, 0, s.root, vb, p, i) {
      if block.present {
        ThroughBoth(s.m, s.root, s.sh, s.root, s.root, va, vb, p, i);
      } else {
        NothingThrough(s.m, 0, s.root, vb, p, i);
      }
    }
  }

  lemma NotATable(s: Space, p: nat, i: nat)
    requires IsTree(s.m, s.root, s.sh) && Slot(s.sh, p, i) && s.sh.level[p] < 3 && i < ENTRIES
      && !Links(s.m, s.sh, p, i)
    ensures p in s.m && !IsTable(Entry(s.m, p, i)) && Entry(s.m, p, i) == s.m[p][i]
  {
  }

  lemma {:induction false} NothingThrough(m: Mem, level: nat, t: nat, va: nat, p: nat, i: nat)
    requires level <= 3 && i < ENTRIES && Through(m, level, t, va, p, i) && !Entry(m, p, i).present
    ensures Leaf(m, level, t, va).None?
    decreases 3 - level
  {
    if !(t == p && Index(level, va) == i) {
      NothingThrough(m, level + 1, Entry(m, t, Index(level, va)).addr, va, p, i);
    }
  }

  // ----- the path -----

  lemma ThroughRoot(s: Space, va: nat)
    ensures Through(s.m, 0, s.root, va, s.root, Index(0, va))
  {
  }

  lemma ThroughOne(s: Space, va: nat, l1: nat)
    requires LinkTo(s, s.root, Index(0, va), l1)
    ensures Through(s.m, 0, s.root, va, l1, Index(1, va))
  {
  }

  lemma ThroughTwo(s: Space, va: nat, l1: nat, l2: nat)
    requires LinkTo(s, s.root, Index(0, va), l1) && LinkTo(s, l1, Index(1, va), l2)
    ensures Through(s.m, 0, s.root, va, l2, Index(2, va))
  {
    assert Through(s.m, 1, l1, va, l2, Index(2, va));
  }

  /** A walk that reaches level 3 ends at no block. */
  lemma {:induction false} NoBlock(m: Mem, level: nat, t: nat, va: nat, vb: nat, l3: nat)
    requires level <= 3 && Reaches(m, level, t, va, l3)
    ensures !Meets(m, level, t, va, vb)
    decreases 3 - level
  {
    if level < 3 {
      NoBlock(m, level + 1, Entry(m, t, Index(level, va)).addr, va, vb, l3);
    }
  }

  /** The last store gives the page its attributes and touches no other. */
  lemma {:induction false} WriteRights(m: Mem, root: nat, sh: Shape, l3: nat, va: nat, e: Pte, t: nat, vb: nat)
    requires IsTree(m, root, sh) && LowHalf(va) && LowHalf(vb)
    requires l3 in sh.level && sh.level[l3] == 3 && IsTable(e)
    requires t in sh.level && Reaches(m, 0, root, va, l3)
    ensures Leaf(SetEntry(m, l3, Index(3, va), e), sh.level[t], t, vb)
      == if Reaches(m, sh.level[t], t, vb, l3) && Index(3, va) == Index(3, vb) then Some(Rights(e.low, e.high))
         else Leaf(m, sh.level[t], t, vb)
    decreases 3 - sh.level[t]
  {
    var k, j := sh.level[t], Index(sh.level[t], vb);
    assert Slot(sh, t, j);
    assert GoodEntry(k, m[t][j]);
    if k < 3 {
      assert SetEntry(m, l3, Index(3, va), e)[t] == m[t];
      if IsTable(m[t][j]) {
        assert Links(m, sh, t, j);
        WalkStaysInTree(m, root, sh, t, j);
        WriteRights(m, root, sh, l3, va, e, m[t][j].addr, vb);
      }
    }
  }

  // ----- map_va -----

  /**
   * The page of `va` has the attributes asked for; the other pages of the block it lay in, if it lay in
   * one, are relaxed; every other page keeps its attributes.
   */
  ghost predicate MapsRights(s: Space, s': Space, va: nat, flags: MapFlags) {
    forall vb: nat :: LowHalf(vb) ==>
      RightsOf(s', vb) == if SamePage(vb, va) then Some(Asked(flags))
                          else if SameBlock(s, va, vb) then Relaxed(RightsOf(s, vb)) else RightsOf(s, vb)
  }

  lemma MapVaRights(s: Space, s3: Space, va: nat, pa: nat, flags: MapFlags, l1: nat, l2: nat, l3: nat)
    requires Good(s3) && Loosened(s, s3, va) && LowHalf(va)
    requires LinkTo(s3, s3.root, Index(0, va), l1) && LinkTo(s3, l1, Index(1, va), l2)
      && LinkTo(s3, l2, Index(2, va), l3)
    ensures l3 in s3.m
    ensures MapsRights(s, WritePage(s3, l3, Index(3, va), PageDesc(pa, flags)), va, flags)
  {
    hide Leaf, Meets, Reaches, IsTree, OwnsFrames, TracksTables;
    var e := PageDesc(pa, flags);
    RootOfTree(s3);
    ThreeLinks(s3, va, l1, l2, l3);
    var s' := WritePage(s3, l3, Index(3, va), e);
    forall vb: nat | LowHalf(vb)
      ensures RightsOf(s', vb) == if SamePage(vb, va) then Some(Asked(flags))
        else if SameBlock(s, va, vb) then Relaxed(RightsOf(s, vb)) else RightsOf(s, vb)
    {
      assert LoosenedAt(s, s3, va, vb);
      NoBlock(s3.m, 0, s3.root, va, vb, l3);
      WriteRights(s3.m, s3.root, s3.sh, l3, va, e, s3.root, vb);
      SamePathIff(s3.m, s3.root, s3.sh, va, vb, l3);
      SameIndicesIsSamePage(va, vb);
    }
  }

  lemma ThreeLinks(s: Space, va: nat, l1: nat, l2: nat, l3: nat)
    requires IsTree(s.m, s.root, s.sh) && LowHalf(va) && s.root in s.sh.level && s.sh.level[s.root] == 0
    requires LinkTo(s, s.root, Index(0, va), l1) && LinkTo(s, l1, Index(1, va), l2)
      && LinkTo(s, l2, Index(2, va), l3)
    ensures l3 in s.m && l3 in s.sh.level && s.sh.level[l3] == 3 && Reaches(s.m, 0, s.root, va, l3)
  {
    PathOfLinks(s.m, s.root, s.sh, va, l1, l2, l3);
  }
}
