/** What each operation of the RAM file system does to its paths and to the nodes behind them. */
module RamFsEffects {
  import opened Common
  import opened RamFsTree
  import opened RamFsSteps
  import opened RamFsPaths

  /** Bytes past the end of a file are zero, and free slots are blank. */
  ghost predicate ZeroTails(s: Fs) {
    && Sized(s)
    && (forall n: nat :: n < MAX_FILES ==> ZeroTail(s, n))
  }

  predicate ZeroTail(s: Fs, n: nat)
    requires Sized(s) && n < MAX_FILES
  {
    && (s.kinds[n] == FREE ==> s.sizes[n] == 0)
    && (forall k :: s.sizes[n] <= k < |s.datas[n]| ==> s.datas[n][k] == 0)
  }

  /** One path more: `c` under the node `p` now leads to `i`. */
  ghost predicate AddsPath(s: Fs, g: Shape, t: Fs, h: Shape, p: nat, c: Bytes, i: nat) {
    forall cs: seq<Bytes> :: Lookup(t, h, 0, cs)
      == if Lookup(s, g, 0, cs).Some? then Lookup(s, g, 0, cs)
         else if cs != [] && cs[|cs| - 1] == c && Lookup(s, g, 0, cs[..|cs| - 1]) == Some(p) then Some(i)
         else None
  }

  /** Exactly the path to `c` is gone. */
  ghost predicate DropsPath(s: Fs, g: Shape, t: Fs, h: Shape, c: nat) {
    forall cs: seq<Bytes> :: Lookup(t, h, 0, cs) == if Lookup(s, g, 0, cs) == Some(c) then None else Lookup(s, g, 0, cs)
  }

  predicate SameNode(s: Fs, t: Fs, n: nat)
    requires Sized(s) && Sized(t) && n < MAX_FILES
  {
    t.kinds[n] == s.kinds[n] && t.sizes[n] == s.sizes[n] && t.datas[n] == s.datas[n] && t.names[n] == s.names[n]
  }

  /** Type, size, bytes and name of every live node but `c` are unchanged. */
  ghost predicate NodesKept(s: Fs, t: Fs, c: nat) {
    && Sized(s) && Sized(t)
    && (forall n: nat :: Live(s, n) && n != c ==> SameNode(s, t, n))
  }

  lemma TreeSized(s: Fs, g: Shape)
    requires Tree(s, g)
    ensures Sized(s) && |g.kids| == MAX_FILES && |g.depth| == MAX_FILES && KidsInRange(g)
  {
    TreeKidsInRange(s, g);
  }

  /** The file system after a node was created in slot `i`, the cursor just past it. */
  ghost function Made(s: Fs, g: Shape, i: nat, name: Bytes, kind: nat, p: nat): (t: Fs)
    requires Sized(s) && KidsInRange(g) && i < MAX_FILES && p < MAX_FILES
    ensures Sized(t)
  {
    Created(s, g, i, name, kind, p).(nextIdx := i + 1)
  }

  /** Sizes, bytes and the cursor play no part in the tree. */
  lemma TreeSame(s: Fs, t: Fs, g: Shape)
    requires Tree(s, g) && t.nextIdx >= 1 && t == s.(nextIdx := t.nextIdx, sizes := t.sizes, datas := t.datas)
    requires Sized(t) && forall n: nat :: n < MAX_FILES ==> t.sizes[n] <= FILE_SIZE && |t.datas[n]| == FILE_SIZE
    ensures Tree(t, g)
  {
    forall n: nat | n < MAX_FILES ensures GoodNode(t, g, n) {
      assert GoodNode(s, g, n);
    }
    forall n: nat, j: nat | n < MAX_FILES && j < |g.kids[n]| ensures GoodChild(t, g, n, j) {
      assert GoodChild(s, g, n, j);
    }
    forall n: nat | 0 < n < MAX_FILES && t.kinds[n] != FREE ensures HasParent(t, g, n) {
      assert HasParent(s, g, n);
    }
    forall n: nat | n < MAX_FILES ensures NamesDistinct(t, g.kids[n]) {
      assert NamesDistinct(s, g.kids[n]);
    }
  }

  /** ... nor in lookup. */
  lemma {:induction false} LookupSame(s: Fs, t: Fs, g: Shape, n: nat, path: seq<Bytes>)
    requires s.names == t.names
    ensures Lookup(s, g, n, path) == Lookup(t, g, n, path)
    decreases |path|
  {
    if path != [] && n < |g.kids| {
      ChildNamedSame(s, t, g.kids[n], path[0]);
      if ChildNamed(s, g.kids[n], path[0]).Some? {
        LookupSame(s, t, g, ChildNamed(s, g.kids[n], path[0]).value, path[1..]);
      }
    }
  }

  /** Creating in a free slot under a new name: one path more, and nothing else changes. */
  lemma CreateEffect(s: Fs, g: Shape, i: nat, name: Bytes, kind: nat, p: nat)
    requires Tree(s, g) && ZeroTails(s) && 0 < i < MAX_FILES && p < MAX_FILES && s.kinds[p] == DIRECTORY
      && FREE < kind <= DIRECTORY
    requires s.kinds[i] == FREE && NewName(s, g.kids[p], Cut(name))
    ensures KidsInRange(g)
    ensures var t, h := Made(s, g, i, name, kind, p), Grown(g, i, p);
      && Tree(t, h) && ZeroTails(t) && AddsPath(s, g, t, h, p, Cut(name), i) && NodesKept(s, t, i)
      && t.kinds == s.kinds[i := kind] && t.nextIdx == i + 1 && Contents(t, i) == []
  {
    hide Tree, Created, Append, Reset, Walked, Passed, AddsPath, ZeroTails, NodesKept;
    CreatedTree(s, g, i, name, kind, p);
    CreateAddsPath(s, g, i, name, kind, p);
    FreeSlotUnused(s, g, i);
    TreeSized(s, g);
    CreatedFields(s, g, i, name, kind, p);
    var t := Created(s, g, i, name, kind, p);
    MovedCursor(t, Made(s, g, i, name, kind, p), Grown(g, i, p));
    FilledSlot(s, i, Made(s, g, i, name, kind, p));
  }

  lemma MovedCursor(t: Fs, u: Fs, g: Shape)
    requires Tree(t, g) && u.nextIdx >= 1 && u == t.(nextIdx := u.nextIdx)
    ensures Tree(u, g)
  {
    forall n: nat | n < MAX_FILES ensures t.sizes[n] <= FILE_SIZE && |t.datas[n]| == FILE_SIZE {
      assert GoodNode(t, g, n);
    }
    TreeSame(t, u, g);
  }

  /** Exactly when a creation leaves a well-formed tree. */
  lemma MadeWellFormedIff(s: Fs, g: Shape, i: nat, name: Bytes, kind: nat, p: nat)
    requires Tree(s, g) && 0 < i < MAX_FILES && p < MAX_FILES && s.kinds[p] == DIRECTORY && FREE < kind <= DIRECTORY
    ensures KidsInRange(g)
    ensures WellFormed(Made(s, g, i, name, kind, p)) <==> s.kinds[i] == FREE && NewName(s, g.kids[p], Cut(name))
  {
    hide Tree, Created;
    CreateWellFormedIff(s, g, i, name, kind, p);
    TreeSized(s, g);
    var t, u := Created(s, g, i, name, kind, p), Made(s, g, i, name, kind, p);
    CreatedCursor(s, g, i, name, kind, p);
    if WellFormed(t) {
      var h: Shape :| Tree(t, h);
      MovedCursor(t, u, h);
    }
    if WellFormed(u) {
      var h: Shape :| Tree(u, h);
      MovedCursor(u, t, h);
    }
  }

  lemma CreatedCursor(s: Fs, g: Shape, i: nat, name: Bytes, kind: nat, p: nat)
    requires Tree(s, g) && i < MAX_FILES && p < MAX_FILES
    ensures KidsInRange(g) && Created(s, g, i, name, kind, p).nextIdx >= 1
  {
    TreeKidsInRange(s, g);
  }

  lemma CreateAddsPath(s: Fs, g: Shape, i: nat, name: Bytes, kind: nat, p: nat)
    requires Tree(s, g) && 0 < i < MAX_FILES && p < MAX_FILES && s.kinds[p] == DIRECTORY && s.kinds[i] == FREE
    ensures KidsInRange(g) && AddsPath(s, g, Made(s, g, i, name, kind, p), Grown(g, i, p), p, Cut(name), i)
  {
    hide Created;
    TreeKidsInRange(s, g);
    forall cs: seq<Bytes> ensures Lookup(Made(s, g, i, name, kind, p), Grown(g, i, p), 0, cs)
      == if Lookup(s, g, 0, cs).Some? then Lookup(s, g, 0, cs)
         else if cs != [] && cs[|cs| - 1] == Cut(name) && Lookup(s, g, 0, cs[..|cs| - 1]) == Some(p) then Some(i)
         else None
    {
      CreatedLookup(s, g, i, name, kind, p, 0, cs);
      LookupSame(Created(s, g, i, name, kind, p), Made(s, g, i, name, kind, p), Grown(g, i, p), 0, cs);
    }
  }

  lemma FilledSlot(s: Fs, i: nat, t: Fs)
    requires ZeroTails(s) && Sized(t) && i < MAX_FILES && s.kinds[i] == FREE && t.sizes == s.sizes[i := 0]
      && t.datas == s.datas
    requires t.kinds == s.kinds[i := t.kinds[i]] && t.names == s.names[i := t.names[i]]
    ensures ZeroTails(t) && NodesKept(s, t, i) && Contents(t, i) == []
  {
    forall n: nat | n < MAX_FILES ensures ZeroTail(t, n) {
      assert ZeroTail(s, n);
    }
    forall n: nat | Live(s, n) && n != i ensures SameNode(s, t, n) {
    }
  }

  lemma RemoveEffect(s: Fs, g: Shape, p: nat, j: nat)
    requires Tree(s, g) && ZeroTails(s) && p < MAX_FILES && j < |g.kids[p]| && g.kids[p][j] < MAX_FILES
      && s.counts[g.kids[p][j]] == 0
    ensures KidsInRange(g) && s.counts[p] > 0
    ensures var t, h, c := Removed(s, g, p, j), Pruned(g, p, j), g.kids[p][j];
      && Tree(t, h) && ZeroTails(t) && DropsPath(s, g, t, h, c) && NodesKept(s, t, c)
      && t.kinds == s.kinds[c := FREE] && t.nextIdx == s.nextIdx
  {
    var c := g.kids[p][j];
    assert GoodChild(s, g, p, j);
    assert GoodNode(s, g, p) && GoodNode(s, g, c);
    RemovedTree(s, g, p, j);
    var t, h := Removed(s, g, p, j), Pruned(g, p, j);
    forall cs: seq<Bytes> ensures Lookup(t, h, 0, cs) == if Lookup(s, g, 0, cs) == Some(c) then None
      else Lookup(s, g, 0, cs) {
      RemovedLookup(s, g, p, j, 0, cs);
    }
    forall n: nat | n < MAX_FILES ensures ZeroTail(t, n) {
      assert ZeroTail(s, n);
    }
    forall n: nat | Live(s, n) && n != c ensures SameNode(s, t, n) {
    }
  }

  /** The bytes of a file, as a reader sees them. */
  function Contents(s: Fs, n: nat): Bytes
    requires Sized(s) && n < MAX_FILES
  {
    if s.sizes[n] <= |s.datas[n]| then s.datas[n][..s.sizes[n]] else []
  }

  lemma PartOfContents(s: Fs, n: nat, at: nat, len: nat)
    requires Sized(s) && n < MAX_FILES && at + len <= s.sizes[n] <= |s.datas[n]|
    ensures |Contents(s, n)| == s.sizes[n] && Contents(s, n)[at..at + len] == s.datas[n][at..at + len]
  {
  }

  /** `bytes` with `data` laid over position `at`, zero-filled up to there. */
  function Overlay(bytes: Bytes, data: Bytes, at: nat): (r: Bytes)
    ensures |r| == if at + |data| > |bytes| then at + |data| else |bytes|
    ensures forall k :: 0 <= k < |r| ==> r[k] == if at <= k < at + |data| then data[k - at]
      else if k < |bytes| then bytes[k] else 0
  {
    var n := if at + |data| > |bytes| then at + |data| else |bytes|;
    seq(n, k requires 0 <= k < n => if at <= k < at + |data| then data[k - at] else if k < |bytes| then bytes[k] else 0)
  }

  // ----- walking to the end of a list -----

  predicate LinkedAt(t: Fs, list: seq<nat>, j: nat)
    requires Sized(t) && j < |list|
  {
    list[j] < MAX_FILES && t.next[list[j]] == After(list, j)
  }

  ghost predicate LinkedList(t: Fs, list: seq<nat>) {
    && Sized(t)
    && (forall j: nat :: j < |list| ==> LinkedAt(t, list, j))
  }

  lemma LinkAt(t: Fs, list: seq<nat>, j: nat)
    requires LinkedList(t, list) && j < |list|
    ensures LinkedAt(t, list, j)
  {
  }

  /** After the slot is reset, the parent's list still ends: at the reset slot if it was a member. */
  lemma WalkedLinks(s: Fs, g: Shape, i: nat, name: Bytes, kind: nat, p: nat)
    requires Tree(s, g) && i < MAX_FILES && p < MAX_FILES
    ensures KidsInRange(g) && LinkedList(Reset(s, i, name, kind, p), Walked(g, i, p))
    ensures Reset(s, i, name, kind, p).first[p] == Head(Walked(g, i, p))
  {
    TreeKidsInRange(s, g);
    assert GoodNode(s, g, p);
    var list, kids := Walked(g, i, p), g.kids[p];
    forall j: nat | j < |list| ensures LinkedAt(Reset(s, i, name, kind, p), list, j) {
      assert list[j] == kids[j];
      assert GoodChild(s, g, p, j);
      assert Distinct(kids);
    }
  }

  lemma ListLinks(s: Fs, g: Shape, p: nat)
    requires Tree(s, g) && p < MAX_FILES
    ensures LinkedList(s, g.kids[p]) && s.first[p] == Head(g.kids[p])
  {
    assert GoodNode(s, g, p);
    forall j: nat | j < |g.kids[p]| ensures LinkedAt(s, g.kids[p], j) {
      assert GoodChild(s, g, p, j);
    }
  }

  lemma RootLive(s: Fs, g: Shape)
    requires Tree(s, g)
    ensures Live(s, 0) && s.kinds[0] == DIRECTORY && s.nextIdx >= 1
  {
  }

  lemma LeafCount(s: Fs, g: Shape, c: nat)
    requires Tree(s, g) && Live(s, c) && !(s.kinds[c] == DIRECTORY && s.counts[c] > 0)
    ensures s.counts[c] == 0
  {
    assert GoodNode(s, g, c);
  }

  lemma SlotPositive(s: Fs, g: Shape)
    requires Tree(s, g) && Slot(s.kinds, s.nextIdx).Some?
    ensures 0 < Slot(s.kinds, s.nextIdx).value < MAX_FILES
  {
  }

  /** The writes of a removal, given the predecessor found by the walk. */
  function Wiped(s: Fs, p: nat, prev: int, c: nat): (t: Fs)
    requires Sized(s) && p < MAX_FILES && c < MAX_FILES && prev < MAX_FILES && s.counts[p] > 0
  {
    var u := if prev < 0 then s.(first := s.first[p := s.next[c]]) else s.(next := s.next[prev := s.next[c]]);
    Blank(u.(counts := s.counts[p := s.counts[p] - 1]), c)
  }

  function Blank(s: Fs, c: nat): (t: Fs)
    requires Sized(s) && c < MAX_FILES
  {
    s.(names := s.names[c := []], kinds := s.kinds[c := FREE], sizes := s.sizes[c := 0], parents := s.parents[c := -1],
       first := s.first[c := -1], next := s.next[c := -1], counts := s.counts[c := 0], datas :=
         s.datas[c := Zeros(FILE_SIZE)])
  }

  lemma RemovedIs(s: Fs, g: Shape, p: nat, j: nat, t: Fs)
    requires Sized(s) && KidsInRange(g) && p < MAX_FILES && j < |g.kids[p]| && s.counts[p] > 0
    requires t == Wiped(s, p, if j == 0 then -1 else g.kids[p][j - 1], g.kids[p][j])
    ensures t == Removed(s, g, p, j)
  {
  }

  // ----- the empty file system -----

  function Initial(): Fs {
    Fs(seq(MAX_FILES, i => if i == 0 then [SLASH] else []), seq(MAX_FILES, i => if i == 0 then DIRECTORY else FREE),
       seq(MAX_FILES, _ => 0), seq(MAX_FILES, _ => -1), seq(MAX_FILES, _ => -1), seq(MAX_FILES, _ => -1),
       seq(MAX_FILES, _ => 0), seq(MAX_FILES, _ => Zeros(FILE_SIZE)), 1)
  }

  function InitialShape(): Shape {
    Shape(seq(MAX_FILES, _ => []), seq(MAX_FILES, _ => 0))
  }

  lemma InitialTree()
    ensures Tree(Initial(), InitialShape()) && ZeroTails(Initial()) && FreshAbove(Initial().kinds, 1)
    ensures forall cs: seq<Bytes> :: Lookup(Initial(), InitialShape(), 0, cs) == if cs == [] then Some(0) else None
  {
    var s, g := Initial(), InitialShape();
    forall n: nat | n < MAX_FILES ensures GoodNode(s, g, n) && ZeroTail(s, n) {
    }
  }

  /** Sixty-three times the letter `a`, and one more byte. */
  function LongName(last: nat): (r: Bytes)
    ensures |r| == MAX_NAME && r[..MAX_NAME - 1] == Repeated(97, MAX_NAME - 1) && r[MAX_NAME - 1] == last
  {
    Repeated(97, MAX_NAME - 1) + [last]
  }

  function Repeated(b: nat, n: nat): (r: Bytes)
    ensures |r| == n
  {
    seq(n, _ => b)
  }

  /**
   * Two names that agree on 63 bytes: the second is not found under its full name, is created, and
   * then two siblings are stored under one name.
   */
  lemma LongNamesExample()
    ensures KidsInRange(InitialShape())
    ensures var s, g := Created(Initial(), InitialShape(), 1, LongName(1), FILE, 0), Grown(InitialShape(), 1, 0);
      && Tree(s, g) && KidsInRange(g) && ChildNamed(s, g.kids[0], LongName(2)).None?
      && s.kinds[2] == FREE && !WellFormed(Created(s, g, 2, LongName(2), FILE, 0))
  {
    hide Created, WellFormed, LongName;
    InitialTree();
    var s0, g0 := Initial(), InitialShape();
    CreatedTree(s0, g0, 1, LongName(1), FILE, 0);
    CreatedParents(s0, g0, 1, LongName(1), FILE, 0);
    var s, g := Created(s0, g0, 1, LongName(1), FILE, 0), Grown(g0, 1, 0);
    assert g.kids[0] == [1];
    assert s.names[1] == Cut(LongName(1)) == Cut(LongName(2));
    CreateWellFormedIff(s, g, 2, LongName(2), FILE, 0);
  }

  // ----- making directories along a path -----

  /** How many directories a walk along `cs` from the directory `n` has to make. */
  function Allocs(s: Fs, g: Shape, n: nat, cs: seq<Bytes>): nat
    requires Sized(s)
    decreases |cs|
  {
    if cs == [] || n >= |g.kids| then 0
    else match ChildNamed(s, g.kids[n], cs[0])
      case None => |cs|
      case Some(c) => if |cs| == 1 || c >= MAX_FILES || s.kinds[c] != DIRECTORY then 0 else Allocs(s, g, c, cs[1..])
  }

  /** The first `k` components lead to something that is no directory. */
  predicate FileOnPath(s: Fs, g: Shape, cs: seq<Bytes>, k: nat)
    requires Sized(s)
  {
    k <= |cs| && Lookup(s, g, 0, cs[..k]).Some?
    && var n := Lookup(s, g, 0, cs[..k]).value;
       n < MAX_FILES && s.kinds[n] != DIRECTORY
  }

  /** No path is lost or redirected, every new one is a prefix of `cs`, and no old node changed. */
  ghost predicate Grows(s: Fs, g: Shape, t: Fs, h: Shape, cs: seq<Bytes>) {
    && (forall p: seq<Bytes> :: Lookup(s, g, 0, p).Some? ==> Lookup(t, h, 0, p) == Lookup(s, g, 0, p))
    && (forall p: seq<Bytes> :: Lookup(t, h, 0, p).Some? && Lookup(s, g, 0, p).None? ==> p <= cs)
    && Sized(s) && Sized(t) && (forall n: nat :: Live(s, n) ==> SameNode(s, t, n))
  }

  lemma GrowsRefl(s: Fs, g: Shape, cs: seq<Bytes>)
    requires Tree(s, g)
    ensures Grows(s, g, s, g, cs)
  {
    forall n: nat | Live(s, n) ensures SameNode(s, s, n) {
    }
  }

  /** The last step of a prefix. */
  lemma PrefixStep(s: Fs, g: Shape, cs: seq<Bytes>, k: nat, n: nat)
    requires k < |cs| && Lookup(s, g, 0, cs[..k]) == Some(n) && n < |g.kids|
    ensures Lookup(s, g, 0, cs[..k + 1]) == ChildNamed(s, g.kids[n], cs[k])
  {
    assert cs[..k + 1] == cs[..k] + [cs[k]];
    LookupAppend(s, g, 0, cs[..k], [cs[k]]);
    var c := ChildNamed(s, g.kids[n], cs[k]);
    if c.Some? {
      assert Lookup(s, g, n, [cs[k]]) == Lookup(s, g, c.value, []) == c;
    }
  }

  /** A prefix that leads nowhere, or to a node without children, is never continued. */
  lemma PrefixStops(s: Fs, g: Shape, cs: seq<Bytes>, k: nat, j: nat)
    requires k <= j <= |cs|
    requires var r := Lookup(s, g, 0, cs[..k]);
      r.None? || (k < j && r.value < |g.kids| && g.kids[r.value] == [])
    ensures Lookup(s, g, 0, cs[..j]).None?
  {
    assert cs[..j] == cs[..k] + cs[k..j];
    LookupAppend(s, g, 0, cs[..k], cs[k..j]);
    var r := Lookup(s, g, 0, cs[..k]);
    if r.Some? {
      assert ChildNamed(s, g.kids[r.value], cs[k..j][0]).None?;
    }
  }

  /** One more directory along `cs`. */
  lemma GrowsStep(s: Fs, g: Shape, t: Fs, h: Shape, u: Fs, w: Shape, cs: seq<Bytes>, k: nat, p: nat, i: nat)
    requires k < |cs| && Grows(s, g, t, h, cs) && Tree(t, h) && AddsPath(t, h, u, w, p, cs[k], i) && NodesKept(t, u, i)
    requires Lookup(t, h, 0, cs[..k]) == Some(p) && Lookup(t, h, 0, cs[..k + 1]).None?
    requires i < MAX_FILES && t.kinds[i] == FREE
    ensures Grows(s, g, u, w, cs) && Lookup(u, w, 0, cs[..k + 1]) == Some(i)
  {
    hide Tree, Lookup;
    forall q: seq<Bytes> | Lookup(u, w, 0, q).Some? && Lookup(s, g, 0, q).None? ensures q <= cs {
      if Lookup(t, h, 0, q).None? {
        OnlyNewPath(t, h, u, w, cs, k, p, i, q);
      }
    }
    assert Lookup(u, w, 0, cs[..k + 1]) == Some(i) by {
      assert cs[..k + 1][..k] == cs[..k] && cs[..k + 1][k] == cs[k];
    }
    GrowsNodes(s, t, u, i);
  }

  lemma OnlyNewPath(t: Fs, h: Shape, u: Fs, w: Shape, cs: seq<Bytes>, k: nat, p: nat, i: nat, q: seq<Bytes>)
    requires k < |cs| && Tree(t, h) && AddsPath(t, h, u, w, p, cs[k], i) && Lookup(t, h, 0, cs[..k]) == Some(p)
    requires Lookup(u, w, 0, q).Some? && Lookup(t, h, 0, q).None?
    ensures q == cs[..k + 1]
  {
    hide Tree, Lookup;
    PathIsUnique(t, h, q[..|q| - 1], cs[..k]);
    assert q == q[..|q| - 1] + [cs[k]];
  }

  lemma GrowsNodes(s: Fs, t: Fs, u: Fs, i: nat)
    requires Sized(s) && Sized(t) && (forall n: nat :: Live(s, n) ==> SameNode(s, t, n))
    requires NodesKept(t, u, i) && i < MAX_FILES && t.kinds[i] == FREE
    ensures forall n: nat :: Live(s, n) ==> SameNode(s, u, n)
  {
    forall n: nat | Live(s, n) ensures SameNode(s, u, n) {
      assert SameNode(s, t, n);
      assert Live(t, n);
      assert SameNode(t, u, n);
    }
  }

  /** The directory `cs[k]` made under `p`: the walk goes on from the new, empty directory. */
  lemma MadeDirectory(s: Fs, g: Shape, t: Fs, h: Shape, cs: seq<Bytes>, k: nat, p: nat, i: nat)
    requires Grows(s, g, t, h, cs) && Tree(t, h) && ZeroTails(t) && k < |cs| && |cs[k]| < MAX_NAME
    requires p < MAX_FILES && t.kinds[p] == DIRECTORY && 0 < i < MAX_FILES && t.kinds[i] == FREE
    requires Lookup(t, h, 0, cs[..k]) == Some(p) && ChildNamed(t, h.kids[p], cs[k]).None?
    ensures KidsInRange(h)
    ensures var u, w := Made(t, h, i, cs[k], DIRECTORY, p), Grown(h, i, p);
      && Tree(u, w) && ZeroTails(u) && u.nextIdx == i + 1 && Grows(s, g, u, w, cs)
      && Lookup(u, w, 0, cs[..k + 1]) == Some(i)
      && w.kids[i] == [] && u.kinds == t.kinds[i := DIRECTORY]
  {
    hide Tree, Grows, Made, AddsPath, NodesKept, ZeroTails, Lookup;
    TreeSized(t, h);
    assert Cut(cs[k]) == cs[k];
    assert NewName(t, h.kids[p], cs[k]);
    CreateEffect(t, h, i, cs[k], DIRECTORY, p);
    PrefixStep(t, h, cs, k, p);
    GrowsStep(s, g, t, h, Made(t, h, i, cs[k], DIRECTORY, p), Grown(h, i, p), cs, k, p, i);
    FreeSlotUnused(t, h, i);
  }

  lemma NoKids(s: Fs, g: Shape, n: nat)
    requires Tree(s, g) && n < MAX_FILES && s.kinds[n] != DIRECTORY
    ensures g.kids[n] == []
  {
    assert GoodNode(s, g, n);
  }

  /** The walk of a directory-making call, `k` components down at the directory `n`. */
  ghost predicate Walking(s: Fs, g: Shape, t: Fs, h: Shape, cs: seq<Bytes>, k: nat, n: nat, made: bool) {
    && Tree(t, h) && ZeroTails(t) && Tree(s, g) && Grows(s, g, t, h, cs)
    && k <= |cs| && n < MAX_FILES && t.kinds[n] == DIRECTORY && Lookup(t, h, 0, cs[..k]) == Some(n)
    && (forall j: nat :: j <= k ==> !FileOnPath(s, g, cs, j))
    && (if made then Lookup(s, g, 0, cs[..k]).None? && h.kids[n] == [] else t == s && h == g)
    && (0 < k == |cs| ==> made)
    && AllocsOk(t.kinds, t.nextIdx, if made then |cs| - k else Allocs(s, g, n, cs[k..]))
  }

  lemma WalkStart(s: Fs, g: Shape, cs: seq<Bytes>)
    requires Tree(s, g) && ZeroTails(s) && AllocsOk(s.kinds, s.nextIdx, Allocs(s, g, 0, cs))
    ensures Walking(s, g, s, g, cs, 0, 0, false)
  {
    GrowsRefl(s, g, cs);
    assert cs[..0] == [] && cs[0..] == cs;
  }

  /** The next component exists: the last one, a file in the way, or a directory to go on from. */
  lemma WalkFound(s: Fs, g: Shape, t: Fs, h: Shape, cs: seq<Bytes>, k: nat, n: nat, made: bool, c: nat)
    requires Walking(s, g, t, h, cs, k, n, made) && k < |cs| && ChildNamed(t, h.kids[n], cs[k]) == Some(c)
    ensures !made && Live(s, c)
    ensures k + 1 == |cs| ==> Lookup(s, g, 0, cs).Some? && forall j: nat :: j < |cs| ==> !FileOnPath(s, g, cs, j)
    ensures k + 1 < |cs| && s.kinds[c] != DIRECTORY ==> Lookup(s, g, 0, cs).None? && FileOnPath(s, g, cs, k + 1)
    ensures k + 1 < |cs| && s.kinds[c] == DIRECTORY ==> Walking(s, g, t, h, cs, k + 1, c, made)
  {
    hide Tree, Grows, ZeroTails;
    TreeSized(t, h);
    ChildLive(t, h, n, cs[k]);
    assert !made;
    PrefixStep(s, g, cs, k, n);
    assert cs[..|cs|] == cs;
    if k + 1 < |cs| {
      assert cs[k..][0] == cs[k] && cs[k..][1..] == cs[k + 1..];
      if s.kinds[c] != DIRECTORY {
        NoKids(s, g, c);
        PrefixStops(s, g, cs, k + 1, |cs|);
      }
    }
  }

  /** The next component is missing: so is everything below it. */
  lemma WalkMissing(s: Fs, g: Shape, t: Fs, h: Shape, cs: seq<Bytes>, k: nat, n: nat, made: bool)
    requires Walking(s, g, t, h, cs, k, n, made) && k < |cs| && ChildNamed(t, h.kids[n], cs[k]).None?
    ensures Lookup(s, g, 0, cs).None? && Lookup(s, g, 0, cs[..k + 1]).None?
    ensures forall j: nat :: j <= |cs| ==> !FileOnPath(s, g, cs, j)
    ensures AllocsOk(t.kinds, t.nextIdx, |cs| - k)
  {
    hide Tree, Grows, ZeroTails, Lookup, AllocsOk;
    TreeSized(t, h);
    if made {
      PrefixStops(s, g, cs, k, k + 1);
    } else {
      PrefixStep(s, g, cs, k, n);
      assert cs[k..][0] == cs[k];
    }
    forall j: nat | k + 1 <= j <= |cs| ensures Lookup(s, g, 0, cs[..j]).None? {
      PrefixStops(s, g, cs, k + 1, j);
    }
    assert cs[..|cs|] == cs;
  }

  /** ... and the directory made in its place carries the walk on. */
  lemma WalkMade(s: Fs, g: Shape, t: Fs, h: Shape, cs: seq<Bytes>, k: nat, n: nat, made: bool, i: nat)
    requires Walking(s, g, t, h, cs, k, n, made) && k < |cs| && ChildNamed(t, h.kids[n], cs[k]).None?
      && |cs[k]| < MAX_NAME
    requires Slot(t.kinds, t.nextIdx) == Some(i)
    ensures KidsInRange(h) && i < MAX_FILES && t.kinds[i] == FREE && NewName(t, h.kids[n], Cut(cs[k]))
    ensures Walking(s, g, Made(t, h, i, cs[k], DIRECTORY, n), Grown(h, i, n), cs, k + 1, i, true)
  {
    hide Tree, Grows, ZeroTails, Lookup, Made, Allocs;
    TreeSized(t, h);
    WalkMissing(s, g, t, h, cs, k, n, made);
    SlotPositive(t, h);
    assert Cut(cs[k]) == cs[k];
    MadeDirectory(s, g, t, h, cs, k, n, i);
  }

  lemma WalkFacts(s: Fs, g: Shape, t: Fs, h: Shape, cs: seq<Bytes>, k: nat, n: nat, made: bool)
    requires Walking(s, g, t, h, cs, k, n, made)
    ensures Sized(s) && Sized(t) && n < MAX_FILES && t.kinds[n] == DIRECTORY && |h.kids| == MAX_FILES
      && Grows(s, g, t, h, cs)
    ensures !made ==> t == s && h == g
  {
  }

  lemma WalkEnd(s: Fs, g: Shape, t: Fs, h: Shape, cs: seq<Bytes>, n: nat, made: bool)
    requires Walking(s, g, t, h, cs, |cs|, n, made)
    ensures Sized(s) && Sized(t) && Grows(s, g, t, h, cs)
    ensures Lookup(t, h, 0, cs).Some? && !FileOnPath(t, h, cs, |cs|)
    ensures cs != [] ==> Lookup(s, g, 0, cs).None?
    ensures forall j: nat :: j <= |cs| ==> !FileOnPath(s, g, cs, j)
  {
    hide Tree, Grows, ZeroTails, Lookup, AllocsOk, Allocs;
    assert cs[..|cs|] == cs;
    SizedTrees(s, g, t, h);
  }

  lemma SizedTrees(s: Fs, g: Shape, t: Fs, h: Shape)
    requires Tree(s, g) && Tree(t, h)
    ensures Sized(s) && Sized(t)
  {
  }

  /** The directory part and the file part of a path, cut at the last slash. */
  function DirOf(clean: Bytes): Bytes {
    match LastSlash(clean) case None => [] case Some(k) => clean[..k]
  }

  function FileOf(clean: Bytes): Bytes {
    match LastSlash(clean) case None => clean case Some(k) => clean[k + 1..]
  }

  lemma DirAndFile(clean: Bytes)
    ensures Components(clean) == Components(DirOf(clean)) + if FileOf(clean) == [] then [] else [FileOf(clean)]
  {
    hide Components, FirstSlash;
    LastComponent(clean);
    NoComponents();
  }


  /** A path that did not resolve before its last component was created resolves to the new node after. */
  lemma CreatedResolves(s: Fs, g: Shape, t: Fs, h: Shape, clean: Bytes, p: nat, i: nat)
    requires AddsPath(s, g, t, h, p, FileOf(clean), i)
    requires Lookup(s, g, 0, Components(clean)).None? && Lookup(s, g, 0, Components(DirOf(clean))) == Some(p)
    ensures Lookup(t, h, 0, Components(clean)) == Some(i)
  {
    DirAndFile(clean);
    var cs := Components(clean);
    assert cs != Components(DirOf(clean));
    assert cs[..|cs| - 1] == Components(DirOf(clean)) && cs[|cs| - 1] == FileOf(clean);
  }

  /** The new file's path is the whole path opened. */
  lemma OpenedIsNew(s: Fs, g: Shape, clean: Bytes, p: nat, i: nat, t: Fs, h: Shape)
    requires Tree(s, g) && AddsPath(s, g, t, h, p, FileOf(Clean(clean)), i) && NodesKept(s, t, i)
    requires i < MAX_FILES && s.kinds[i] == FREE
    requires Lookup(s, g, 0, Components(clean)).None? && Lookup(s, g, 0, Components(DirOf(Clean(clean)))) == Some(p)
    ensures Lookup(t, h, 0, Components(clean)) == Some(i) && Grows(s, g, t, h, Components(clean))
  {
    hide Tree, Components, FirstSlash, AddsPath, NodesKept, Grows, Lookup;
    var cs := Components(clean);
    CleanComponents(clean);
    CreatedResolves(s, g, t, h, Clean(clean), p, i);
    DirAndFile(Clean(clean));
    var dir := Components(DirOf(Clean(clean)));
    assert cs != dir;
    assert cs == dir + [FileOf(Clean(clean))];
    assert cs[..|dir|] == dir && cs[..|dir| + 1] == cs;
    GrowsRefl(s, g, cs);
    GrowsStep(s, g, s, g, t, h, cs, |dir|, p, i);
  }

  // ----- file contents -----

  function Stored(s: Fs, n: nat, data: Bytes, at: nat): (t: Fs)
    requires Sized(s) && n < MAX_FILES && |s.datas[n]| == FILE_SIZE && at + |data| <= FILE_SIZE
  {
    var size := if at + |data| > s.sizes[n] then at + |data| else s.sizes[n];
    s.(datas := s.datas[n := s.datas[n][..at] + data + s.datas[n][at + |data|..]], sizes := s.sizes[n := size])
  }

  /** Writing lays the bytes over the file, zero-filled up to the offset, and touches nothing else. */
  lemma StoredEffect(s: Fs, g: Shape, n: nat, data: Bytes, at: nat)
    requires Tree(s, g) && ZeroTails(s) && n < MAX_FILES && s.kinds[n] == FILE && at + |data| <= FILE_SIZE
    ensures |s.datas[n]| == FILE_SIZE
    ensures var t := Stored(s, n, data, at);
      && Tree(t, g) && ZeroTails(t) && NodesKept(s, t, n)
      && Contents(t, n) == Overlay(Contents(s, n), data, at)
  {
    hide Tree, ZeroTails, NodesKept, Stored, Overlay;
    TreeSized(s, g);
    FileBounds(s, g, n);
    var t := Stored(s, n, data, at);
    StoredNode(s, n, data, at);
    forall m: nat | m < MAX_FILES ensures t.sizes[m] <= FILE_SIZE && |t.datas[m]| == FILE_SIZE {
      FileBounds(s, g, m);
    }
    RootLive(s, g);
    TreeSame(s, t, g);
  }

  lemma StoredNode(s: Fs, n: nat, data: Bytes, at: nat)
    requires ZeroTails(s) && n < MAX_FILES && s.kinds[n] != FREE && |s.datas[n]| == FILE_SIZE
      && at + |data| <= FILE_SIZE && s.sizes[n] <= FILE_SIZE
    ensures var t := Stored(s, n, data, at);
      && Sized(t) && t == s.(sizes := t.sizes, datas := t.datas)
      && t.sizes == s.sizes[n := t.sizes[n]] && t.datas == s.datas[n := t.datas[n]]
      && t.sizes[n] <= FILE_SIZE == |t.datas[n]|
      && ZeroTails(t) && NodesKept(s, t, n) && Contents(t, n) == Overlay(Contents(s, n), data, at)
  {
    hide Overlay;
    var t := Stored(s, n, data, at);
    assert ZeroTail(s, n);
    LaidOver(s.datas[n], s.sizes[n], data, at);
    forall m: nat | m < MAX_FILES ensures ZeroTail(t, m) {
      assert ZeroTail(s, m);
    }
    forall m: nat | Live(s, m) && m != n ensures SameNode(s, t, m) {
    }
  }

  /** The bytes of a buffer whose tail is zero after `data` was copied in. */
  lemma LaidOver(buf: Bytes, size: nat, data: Bytes, at: nat)
    requires size <= |buf| && at + |data| <= |buf| && forall k :: size <= k < |buf| ==> buf[k] == 0
    ensures var after, grown := buf[..at] + data + buf[at + |data|..], if at + |data| > size then at + |data| else size;
      && |after| == |buf| && after[..grown] == Overlay(buf[..size], data, at)
      && forall k :: grown <= k < |after| ==> after[k] == 0
  {
  }

  lemma FileBounds(s: Fs, g: Shape, n: nat)
    requires Tree(s, g) && n < MAX_FILES
    ensures s.sizes[n] <= FILE_SIZE == |s.datas[n]|
  {
    assert GoodNode(s, g, n);
  }

  // ----- removing a path -----

  /** The outcome of removing what a path resolves to. */
  function RemovalStatus(s: Fs, node: Option<nat>, refused: Status): Result<()>
    requires Sized(s)
  {
    match node
    case None => Err(NotFound)
    case Some(n) =>
      if n == 0 then Err(InvalidArgs)
      else if n < MAX_FILES && s.kinds[n] == DIRECTORY && s.counts[n] > 0 then Err(refused)
      else Ok(())
  }

  predicate HasEntry(s: Fs, g: Shape, cs: seq<Bytes>, name: Bytes) {
    Lookup(s, g, 0, cs + [name]).Some?
  }

  /** The outcome in terms of paths: a path that leads nowhere, the root, and a path with entries below it. */
  ghost function Outcome(s: Fs, g: Shape, cs: seq<Bytes>, refused: Status): Result<()> {
    if Lookup(s, g, 0, cs).None? then Err(NotFound)
    else if cs == [] then Err(InvalidArgs)
    else if exists name :: HasEntry(s, g, cs, name) then Err(refused)
    else Ok(())
  }

  lemma RemovalIs(s: Fs, g: Shape, cs: seq<Bytes>, refused: Status)
    requires Tree(s, g)
    ensures Sized(s) && RemovalStatus(s, Lookup(s, g, 0, cs), refused) == Outcome(s, g, cs, refused)
  {
    hide Tree;
    TreeSized(s, g);
    RootLive(s, g);
    if Lookup(s, g, 0, cs).Some? {
      var n := Lookup(s, g, 0, cs).value;
      LookupLive(s, g, 0, cs);
      if n == 0 {
        PathIsUnique(s, g, cs, []);
      }
      ChildCount(s, g, n);
      forall name ensures HasEntry(s, g, cs, name) ==> g.kids[n] != [] {
        LookupAppend(s, g, 0, cs, [name]);
      }
      if g.kids[n] != [] {
        KidsNamed(s, g, n);
        var name := s.names[g.kids[n][0]];
        LookupAppend(s, g, 0, cs, [name]);
        NamedOnce(s, g.kids[n], 0, name);
        assert Lookup(s, g, n, [name]) == Lookup(s, g, g.kids[n][0], []);
        assert HasEntry(s, g, cs, name);
      }
    }
  }

  lemma ChildCount(s: Fs, g: Shape, n: nat)
    requires Tree(s, g) && Live(s, n)
    ensures |g.kids| == MAX_FILES && s.counts[n] == |g.kids[n]| && (s.kinds[n] != DIRECTORY ==> g.kids[n] == [])
  {
    assert GoodNode(s, g, n);
  }

  /** Exactly the path `cs` stopped resolving, its slot is free, and every other node is as it was. */
  ghost predicate Unlinked(s: Fs, g: Shape, t: Fs, h: Shape, cs: seq<Bytes>) {
    && Lookup(s, g, 0, cs).Some?
    && NodesKept(s, t, Lookup(s, g, 0, cs).value)
    && (forall q: seq<Bytes> :: Lookup(t, h, 0, q) == if q == cs then None else Lookup(s, g, 0, q))
  }

  lemma DropIsUnlink(s: Fs, g: Shape, t: Fs, h: Shape, cs: seq<Bytes>)
    requires Tree(s, g) && Lookup(s, g, 0, cs).Some?
    requires DropsPath(s, g, t, h, Lookup(s, g, 0, cs).value) && NodesKept(s, t, Lookup(s, g, 0, cs).value)
    ensures Unlinked(s, g, t, h, cs)
  {
    hide Tree;
    forall q: seq<Bytes> ensures Lookup(t, h, 0, q) == if q == cs then None else Lookup(s, g, 0, q) {
      if Lookup(s, g, 0, q) == Lookup(s, g, 0, cs) {
        PathIsUnique(s, g, q, cs);
      }
    }
  }

  /** Only the root has no parent; everybody else is in its parent's list. */
  lemma ParentLists(s: Fs, g: Shape, n: nat)
    requires Tree(s, g) && Live(s, n)
    ensures n == 0 ==> s.parents[n] == -1
    ensures n > 0 ==> 0 <= s.parents[n] < MAX_FILES && n in g.kids[s.parents[n]]
  {
    if n > 0 {
      assert HasParent(s, g, n);
    }
  }
}
