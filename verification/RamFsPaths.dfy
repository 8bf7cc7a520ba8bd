/** Paths of the RAM file system: cutting a path at its slashes, and slot allocation. */
module RamFsPaths {
  import opened Common
  import opened RamFsTree

  const SLASH: nat := 47

  predicate Name(c: Bytes) {
    c != [] && SLASH !in c
  }

  /** Position of the first slash, or the length. */
  function FirstSlash(p: Bytes): (k: nat)
    ensures k <= |p| && (forall i :: 0 <= i < k ==> p[i] != SLASH) && (k < |p| ==> p[k] == SLASH)
  {
    if p == [] || p[0] == SLASH then 0 else FirstSlash(p[1..]) + 1
  }

  /** Position of the last slash, if any. */
  function LastSlash(p: Bytes): (k: Option<nat>)
    ensures k.None? ==> SLASH !in p
    ensures k.Some? ==> k.value < |p| && p[k.value] == SLASH && SLASH !in p[k.value + 1..]
  {
    if p == [] then None
    else if p[|p| - 1] == SLASH then Some(|p| - 1)
    else
      var k := LastSlash(p[..|p| - 1]);
      assert p == p[..|p| - 1] + [p[|p| - 1]];
      assert k.Some? ==> p[k.value + 1..] == p[..|p| - 1][k.value + 1..] + [p[|p| - 1]];
      k
  }

  /** The non-empty pieces between slashes. */
  function Components(p: Bytes): (cs: seq<Bytes>)
    decreases |p|
  {
    var k := FirstSlash(p);
    if k == |p| then Piece(p, k) else Piece(p, k) + Components(p[k + 1..])
  }

  /** The piece before position `k`, dropped if it is empty. */
  function Piece(p: Bytes, k: nat): seq<Bytes>
    requires k <= |p|
  {
    if k == 0 then [] else [p[..k]]
  }

  lemma {:induction false} ComponentsAreNames(p: Bytes)
    ensures forall i :: 0 <= i < |Components(p)| ==> Name(Components(p)[i])
    decreases |p|
  {
    var k := FirstSlash(p);
    if k < |p| {
      ComponentsAreNames(p[k + 1..]);
    }
  }

  /** A path without its first slash. */
  function Clean(p: Bytes): Bytes {
    if p != [] && p[0] == SLASH then p[1..] else p
  }

  lemma CleanComponents(p: Bytes)
    ensures Components(Clean(p)) == Components(p)
  {
    if p != [] && p[0] == SLASH {
      assert FirstSlash(p) == 0;
    }
  }

  lemma ComponentsUnfold(p: Bytes)
    ensures var k := FirstSlash(p);
      k <= |p| && Components(p) == if k == |p| then Piece(p, k) else Piece(p, k) + Components(p[k + 1..])
  {
    hide FirstSlash, Piece;
  }

  lemma {:induction false} ComponentsSplit(a: Bytes, b: Bytes)
    ensures Components(a + [SLASH] + b) == Components(a) + Components(b)
    decreases |a|
  {
    hide Components, FirstSlash;
    var p := a + [SLASH] + b;
    FirstSlashSplit(a, b);
    var k := FirstSlash(a);
    var head := Piece(a, k);
    assert p[..k] == a[..k];
    ComponentsUnfold(p);
    ComponentsUnfold(a);
    if k == |a| {
      assert p[k + 1..] == b;
      assert a[..k] == a;
    } else {
      assert p[k + 1..] == a[k + 1..] + [SLASH] + b;
      ComponentsSplit(a[k + 1..], b);
      assert head + (Components(a[k + 1..]) + Components(b)) == head + Components(a[k + 1..]) + Components(b);
    }
  }

  lemma {:induction false} FirstSlashSplit(a: Bytes, b: Bytes)
    ensures FirstSlash(a + [SLASH] + b) == FirstSlash(a)
  {
    var p := a + [SLASH] + b;
    var k := FirstSlash(a);
    assert forall i :: 0 <= i < k ==> p[i] == a[i];
    assert p[k] == SLASH;
  }

  /** The absolute path of the given components. */
  function Join(cs: seq<Bytes>): Bytes {
    if cs == [] then [] else [SLASH] + cs[0] + Join(cs[1..])
  }

  lemma {:induction false} OneComponent(c: Bytes)
    requires SLASH !in c
    ensures Components(c) == if c == [] then [] else [c]
  {
    forall i | 0 <= i < |c| ensures c[i] != SLASH {
      assert c[i] in c;
    }
    if c != [] {
      assert FirstSlash(c) == |c|;
      assert c[..|c|] == c;
    }
  }

  /** Every sequence of names is the components of a path. */
  lemma {:induction false} ComponentsOfJoin(cs: seq<Bytes>)
    requires forall i :: 0 <= i < |cs| ==> Name(cs[i])
    ensures Components(Join(cs)) == cs
    decreases |cs|
  {
    if cs != [] {
      ComponentsOfJoin(cs[1..]);
      JoinStep(cs[0], Join(cs[1..]));
      assert Join(cs) == [SLASH] + cs[0] + Join(cs[1..]);
    }
  }

  lemma NoComponents()
    ensures Components([]) == []
  {
  }

  lemma JoinStep(c: Bytes, rest: Bytes)
    requires Name(c) && (rest == [] || rest[0] == SLASH)
    ensures Components([SLASH] + c + rest) == [c] + Components(rest)
  {
    hide Components, FirstSlash;
    var p := [SLASH] + c + rest;
    CleanComponents(p);
    assert Clean(p) == c + rest;
    OneComponent(c);
    if rest == [] {
      assert c + rest == c;
      NoComponents();
    } else {
      CleanComponents(rest);
      assert c + rest == c + [SLASH] + rest[1..];
      ComponentsSplit(c, rest[1..]);
    }
  }

  /** Cutting at the last slash cuts off the last component. */
  lemma LastComponent(p: Bytes)
    ensures match LastSlash(p)
      case None => Components(p) == if p == [] then [] else [p]
      case Some(k) => Components(p) == Components(p[..k]) + if p[k + 1..] == [] then [] else [p[k + 1..]]
  {
    match LastSlash(p)
    case None =>
      OneComponent(p);
    case Some(k) =>
      assert p == p[..k] + [SLASH] + p[k + 1..];
      ComponentsSplit(p[..k], p[k + 1..]);
      OneComponent(p[k + 1..]);
  }

  // ----- slots -----

  /** Lowest free slot from `j` on. */
  function FirstFree(kinds: seq<nat>, j: nat): (r: Option<nat>)
    ensures r.Some? ==> j <= r.value < |kinds| && kinds[r.value] == FREE && forall i :: j <= i < r.value ==>
      kinds[i] != FREE
    ensures r.None? ==> forall i :: j <= i < |kinds| ==> kinds[i] != FREE
    decreases |kinds| - j
  {
    if j >= |kinds| then None else if kinds[j] == FREE then Some(j) else FirstFree(kinds, j + 1)
  }

  /** The slot the allocator hands out; the next call starts just above it. */
  function Slot(kinds: seq<nat>, nextIdx: nat): (r: Option<nat>)
    requires |kinds| == MAX_FILES
    ensures r.Some? ==> r.value < MAX_FILES
  {
    if nextIdx < MAX_FILES then Some(nextIdx) else FirstFree(kinds, 1)
  }

  /** Every slot at or above the cursor is free. */
  predicate FreshAbove(kinds: seq<nat>, nextIdx: nat) {
    forall i :: nextIdx <= i < |kinds| ==> kinds[i] == FREE
  }

  /** The next `n` allocations all yield free slots, or run out. */
  predicate AllocsOk(kinds: seq<nat>, nextIdx: nat, n: nat)
    requires |kinds| == MAX_FILES
    decreases n
  {
    n == 0 || match Slot(kinds, nextIdx)
      case None => true
      case Some(i) => kinds[i] == FREE && AllocsOk(kinds[i := DIRECTORY], i + 1, n - 1)
  }

  /** With every slot above the cursor free, one allocation is always safe; so are as many as there are slots left. */
  lemma {:induction false} FreshAllocsOk(kinds: seq<nat>, nextIdx: nat, n: nat)
    requires |kinds| == MAX_FILES && FreshAbove(kinds, nextIdx) && (n <= 1 || nextIdx + n <= MAX_FILES)
    ensures AllocsOk(kinds, nextIdx, n)
    decreases n
  {
    if n > 1 {
      FreshAllocsOk(kinds[nextIdx := DIRECTORY], nextIdx + 1, n - 1);
    }
  }

  /**
   * Exactly when an allocation leaves every slot above the cursor free again: the cursor had not
   * reached the end, or nothing lives above the reused slot.
   */
  lemma FreshKeptIff(kinds: seq<nat>, nextIdx: nat, kind: nat)
    requires |kinds| == MAX_FILES && FreshAbove(kinds, nextIdx) && Slot(kinds, nextIdx).Some? && kind != FREE
    ensures var i := Slot(kinds, nextIdx).value;
      FreshAbove(kinds[i := kind], i + 1) <==> nextIdx < MAX_FILES || FreshAbove(kinds, i + 1)
  {
    var i := Slot(kinds, nextIdx).value;
    assert forall j :: i + 1 <= j < |kinds| ==> kinds[i := kind][j] == kinds[j];
    if nextIdx < MAX_FILES || FreshAbove(kinds, i + 1) {
      assert FreshAbove(kinds[i := kind], i + 1);
    } else {
      var j :| i + 1 <= j < |kinds| && kinds[j] != FREE;
      assert kinds[i := kind][j] != FREE;
    }
  }

  /** When the allocation after a reuse hands out a live slot: right above the reused one. */
  lemma ReuseThenLiveIff(kinds: seq<nat>, nextIdx: nat, kind: nat)
    requires |kinds| == MAX_FILES && nextIdx >= MAX_FILES && Slot(kinds, nextIdx).Some? && kind != FREE
    ensures var i := Slot(kinds, nextIdx).value;
      var again := Slot(kinds[i := kind], i + 1);
      again.Some? && kinds[again.value] != FREE <==> i + 1 < MAX_FILES && kinds[i + 1] != FREE
  {
    var i := Slot(kinds, nextIdx).value;
    if i + 1 == MAX_FILES {
      var again := Slot(kinds[i := kind], i + 1);
      assert again.Some? ==> kinds[i := kind][again.value] == FREE;
    }
  }

  /** Fifteen nodes created, slot 3 removed, one created (reusing 3): the next creation overwrites slot 4. */
  lemma ReuseOverwritesExample()
    ensures var kinds := seq(MAX_FILES, i => if i == 3 then FREE else DIRECTORY);
      && Slot(kinds, MAX_FILES) == Some(3)
      && Slot(kinds[3 := FILE], 4) == Some(4) && kinds[4] != FREE
  {
    var kinds := seq(MAX_FILES, i => if i == 3 then FREE else DIRECTORY);
    assert kinds[1] != FREE && kinds[2] != FREE && kinds[3] == FREE;
  }
}
