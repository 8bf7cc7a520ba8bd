/**
 * What creating and removing a node do to the RAM file system's arrays
 * (userspace/services/fileagent/src/ramfs.rs), and to the tree and the paths they encode.
 */
module RamFsSteps {
  import opened Common
  import opened RamFsTree

  // ----- creating -----

  /** The stored part of a name. */
  function Cut(name: Bytes): (r: Bytes)
    ensures r <= name && |r| < MAX_NAME
  {
    name[..Min(|name|, MAX_NAME - 1)]
  }

  /** Slot `i` filled in with a fresh node of parent `p`, not yet in any list. */
  function Reset(s: Fs, i: nat, name: Bytes, kind: nat, p: int): (r: Fs)
    requires Sized(s) && i < MAX_FILES
    ensures Sized(r)
  {
    s.(names := s.names[i := Cut(name)], kinds := s.kinds[i := kind], sizes := s.sizes[i := 0],
       parents := s.parents[i := p], first := s.first[i := -1], next := s.next[i := -1], counts := s.counts[i := 0])
  }

  /** The siblings the walk to the end of `p`'s list passes once slot `i` was reset: the list ends at `i`. */
  function Passed(kids: seq<nat>, i: nat): (r: seq<nat>)
    ensures r <= kids && (i !in kids ==> r == kids)
    ensures kids != [] ==> r != []
    ensures |r| < |kids| ==> r[|r| - 1] == i
    ensures forall k :: 0 <= k < |r| - 1 ==> r[k] != i
  {
    if kids == [] then [] else if kids[0] == i then [i] else [kids[0]] + Passed(kids[1..], i)
  }

  /** Slot `i` hung at the end of `p`'s list, which is `list`. */
  function Append(s: Fs, list: seq<nat>, i: nat, p: nat): (r: Fs)
    requires Sized(s) && i < MAX_FILES && p < MAX_FILES && (list != [] ==> list[|list| - 1] < MAX_FILES)
    ensures Sized(r)
  {
    var t := s.(counts := s.counts[p := s.counts[p] + 1]);
    if list == [] then t.(first := s.first[p := i]) else t.(next := s.next[list[|list| - 1] := i])
  }

  ghost predicate KidsInRange(g: Shape) {
    && |g.kids| == MAX_FILES
    && (forall n: nat, j: nat :: n < MAX_FILES && j < |g.kids[n]| ==> g.kids[n][j] < MAX_FILES)
  }

  lemma TreeKidsInRange(s: Fs, g: Shape)
    requires Tree(s, g)
    ensures KidsInRange(g)
  {
    forall n: nat, j: nat | n < MAX_FILES && j < |g.kids[n]| ensures g.kids[n][j] < MAX_FILES {
      assert GoodChild(s, g, n, j);
    }
  }

  /** The list walked to append slot `i` under `p`. A slot that is its own parent has just lost its children. */
  ghost function Walked(g: Shape, i: nat, p: nat): (r: seq<nat>)
    requires KidsInRange(g) && p < MAX_FILES
    ensures r != [] ==> r[|r| - 1] < MAX_FILES
  {
    if i == p then [] else Passed(g.kids[p], i)
  }

  /** The arrays after a node was created in slot `i` under `p`. */
  ghost function Created(s: Fs, g: Shape, i: nat, name: Bytes, kind: nat, p: nat): (r: Fs)
    requires Sized(s) && KidsInRange(g) && i < MAX_FILES && p < MAX_FILES
    ensures Sized(r)
  {
    Append(Reset(s, i, name, kind, p), Walked(g, i, p), i, p)
  }

  /** The tree with leaf `i` added as the last child of `p`. */
  function Grown(g: Shape, i: nat, p: nat): Shape
    requires |g.kids| == MAX_FILES && |g.depth| == MAX_FILES && i < MAX_FILES && p < MAX_FILES
  {
    Shape(g.kids[p := g.kids[p] + [i]], g.depth[i := g.depth[p] + 1])
  }

  predicate NewName(s: Fs, list: seq<nat>, name: Bytes) {
    forall j :: 0 <= j < |list| && list[j] < |s.names| ==> s.names[list[j]] != name
  }

  /** The arrays after filling a slot that was in no list: `next` and `first` change at one place each. */
  lemma CreatedFields(s: Fs, g: Shape, i: nat, name: Bytes, kind: nat, p: nat)
    requires Sized(s) && KidsInRange(g) && i < MAX_FILES && p < MAX_FILES && i != p && i !in g.kids[p]
    ensures var t, list := Created(s, g, i, name, kind, p), g.kids[p];
      && Sized(t) && t.names == s.names[i := Cut(name)] && t.kinds == s.kinds[i := kind] && t.sizes == s.sizes[i := 0]
      && t.parents == s.parents[i := p] && t.counts == s.counts[i := 0][p := s.counts[p] + 1] && t.datas == s.datas
      && t.nextIdx == s.nextIdx
      && t.first == (if list == [] then s.first[i := -1][p := i] else s.first[i := -1])
      && t.next == (if list == [] then s.next[i := -1] else s.next[i := -1][list[|list| - 1] := i])
  {
  }

  /** Slot `i` is free and nothing in the tree mentions it. */
  lemma FreeSlotUnused(s: Fs, g: Shape, i: nat)
    requires Tree(s, g) && i < MAX_FILES && s.kinds[i] == FREE
    ensures g.kids[i] == [] && forall n: nat :: n < MAX_FILES ==> i !in g.kids[n]
  {
    assert GoodNode(s, g, i);
    forall n: nat | n < MAX_FILES ensures i !in g.kids[n] {
      forall j: nat | j < |g.kids[n]| ensures g.kids[n][j] != i {
        assert GoodChild(s, g, n, j);
      }
    }
  }

  lemma CreatedChildren(s: Fs, g: Shape, i: nat, name: Bytes, kind: nat, p: nat, n: nat, j: nat)
    requires Tree(s, g) && 0 < i < MAX_FILES && p < MAX_FILES && s.kinds[i] == FREE && s.kinds[p] == DIRECTORY
    requires FREE < kind <= DIRECTORY && n < MAX_FILES && j < |Grown(g, i, p).kids[n]|
    ensures KidsInRange(g) && GoodChild(Created(s, g, i, name, kind, p), Grown(g, i, p), n, j)
  {
    hide Created, Append, Reset, Walked, Passed;
    TreeKidsInRange(s, g);
    FreeSlotUnused(s, g, i);
    CreatedFields(s, g, i, name, kind, p);
    var list := g.kids[p];
    var c := Grown(g, i, p).kids[n][j];
    if n == p && j == |list| {
      assert c == i;
    } else {
      assert c == g.kids[n][j] && GoodChild(s, g, n, j);
      assert c in g.kids[n] && c != i;
      if list != [] && c == list[|list| - 1] {
        assert GoodChild(s, g, p, |list| - 1);
        assert n == p;
        assert Distinct(list);
      }
    }
  }

  lemma CreatedNames(s: Fs, g: Shape, i: nat, name: Bytes, kind: nat, p: nat, n: nat)
    requires Tree(s, g) && 0 < i < MAX_FILES && p < MAX_FILES && s.kinds[i] == FREE && s.kinds[p] == DIRECTORY
    requires NewName(s, g.kids[p], Cut(name)) && n < MAX_FILES
    ensures KidsInRange(g) && Distinct(Grown(g, i, p).kids[n])
    ensures NamesDistinct(Created(s, g, i, name, kind, p), Grown(g, i, p).kids[n])
  {
    hide Created, Append, Reset, Walked, Passed;
    TreeKidsInRange(s, g);
    FreeSlotUnused(s, g, i);
    CreatedFields(s, g, i, name, kind, p);
    var list := g.kids[n];
    assert Distinct(list) && NamesDistinct(s, list);
    forall j | 0 <= j < |list| ensures list[j] != i {
      assert list[j] in list;
    }
  }

  /** Filling a free slot under a new name keeps the tree. */
  lemma CreatedTree(s: Fs, g: Shape, i: nat, name: Bytes, kind: nat, p: nat)
    requires Tree(s, g) && 0 < i < MAX_FILES && p < MAX_FILES && s.kinds[i] == FREE && s.kinds[p] == DIRECTORY
    requires FREE < kind <= DIRECTORY && NewName(s, g.kids[p], Cut(name))
    ensures KidsInRange(g) && Tree(Created(s, g, i, name, kind, p), Grown(g, i, p))
  {
    hide Created, Append, Reset, Walked, Passed;
    TreeKidsInRange(s, g);
    FreeSlotUnused(s, g, i);
    CreatedFields(s, g, i, name, kind, p);
    var t, h := Created(s, g, i, name, kind, p), Grown(g, i, p);
    forall n: nat | n < MAX_FILES ensures GoodNode(t, h, n) {
      assert GoodNode(s, g, n);
    }
    forall n: nat, j: nat | n < MAX_FILES && j < |h.kids[n]| ensures GoodChild(t, h, n, j) {
      CreatedChildren(s, g, i, name, kind, p, n, j);
    }
    forall n: nat | 0 < n < MAX_FILES && t.kinds[n] != FREE ensures HasParent(t, h, n) {
      if n == i {
        assert h.kids[p][|g.kids[p]|] == i;
      } else {
        assert HasParent(s, g, n);
      }
    }
    forall n: nat | n < MAX_FILES ensures Distinct(h.kids[n]) && NamesDistinct(t, h.kids[n]) {
      CreatedNames(s, g, i, name, kind, p, n);
    }
  }

  lemma {:induction false} ChildNamedSame(s: Fs, t: Fs, list: seq<nat>, name: Bytes)
    requires |s.names| == |t.names|
    requires forall j :: 0 <= j < |list| && list[j] < |s.names| ==> s.names[list[j]] == t.names[list[j]]
    ensures ChildNamed(s, list, name) == ChildNamed(t, list, name)
  {
    if list != [] {
      ChildNamedSame(s, t, list[1..], name);
    }
  }

  lemma {:induction false} ChildNamedAppend(s: Fs, list: seq<nat>, i: nat, name: Bytes)
    ensures ChildNamed(s, list + [i], name)
      == if ChildNamed(s, list, name).Some? then ChildNamed(s, list, name)
         else if i < |s.names| && s.names[i] == name then Some(i) else None
  {
    if list == [] {
      assert list + [i] == [i];
    } else {
      assert (list + [i])[0] == list[0] && (list + [i])[1..] == list[1..] + [i];
      ChildNamedAppend(s, list[1..], i, name);
    }
  }

  lemma ChildLive(s: Fs, g: Shape, n: nat, name: Bytes)
    requires Tree(s, g) && n < MAX_FILES && ChildNamed(s, g.kids[n], name).Some?
    ensures Live(s, ChildNamed(s, g.kids[n], name).value)
  {
    var j: nat :| j < |g.kids[n]| && g.kids[n][j] == ChildNamed(s, g.kids[n], name).value;
    assert GoodChild(s, g, n, j);
  }

  /** Child lookup after a creation. */
  lemma CreatedChildNamed(s: Fs, g: Shape, i: nat, name: Bytes, kind: nat, p: nat, n: nat, c: Bytes)
    requires Tree(s, g) && 0 < i < MAX_FILES && p < MAX_FILES && s.kinds[i] == FREE && s.kinds[p] == DIRECTORY
      && n < MAX_FILES
    ensures KidsInRange(g)
    ensures ChildNamed(Created(s, g, i, name, kind, p), Grown(g, i, p).kids[n], c)
      == if ChildNamed(s, g.kids[n], c).Some? then ChildNamed(s, g.kids[n], c)
         else if n == p && c == Cut(name) then Some(i) else None
  {
    hide Created, Append, Reset, Walked, Passed;
    TreeKidsInRange(s, g);
    FreeSlotUnused(s, g, i);
    CreatedFields(s, g, i, name, kind, p);
    var t := Created(s, g, i, name, kind, p);
    forall j | 0 <= j < |g.kids[n]| && g.kids[n][j] < |s.names| ensures s.names[g.kids[n][j]] == t.names[g.kids[n][j]] {
      assert g.kids[n][j] in g.kids[n];
    }
    ChildNamedSame(s, t, g.kids[n], c);
    ChildNamedAppend(t, g.kids[n], i, c);
  }

  /** A creation adds exactly one path: the parent's path followed by the stored name. */
  lemma {:induction false} CreatedLookup(s: Fs, g: Shape, i: nat, name: Bytes, kind: nat, p: nat, n: nat,
    path: seq<Bytes>)
    requires Tree(s, g) && 0 < i < MAX_FILES && p < MAX_FILES && s.kinds[i] == FREE && s.kinds[p] == DIRECTORY
      && Live(s, n)
    ensures KidsInRange(g)
    ensures Lookup(Created(s, g, i, name, kind, p), Grown(g, i, p), n, path)
      == if Lookup(s, g, n, path).Some? then Lookup(s, g, n, path)
         else if path != [] && path[|path| - 1] == Cut(name)
           && Lookup(s, g, n, path[..|path| - 1]) == Some(p) then Some(i)
         else None
    decreases |path|
  {
    hide Created, Append, Reset, Walked, Passed;
    TreeKidsInRange(s, g);
    var t, h := Created(s, g, i, name, kind, p), Grown(g, i, p);
    if path != [] {
      CreatedChildNamed(s, g, i, name, kind, p, n, path[0]);
      var hit := ChildNamed(s, g.kids[n], path[0]);
      var rest := path[1..];
      if hit.Some? {
        ChildLive(s, g, n, path[0]);
        CreatedLookup(s, g, i, name, kind, p, hit.value, rest);
        if rest != [] {
          assert path[..|path| - 1][0] == path[0] && path[..|path| - 1][1..] == rest[..|rest| - 1];
        } else {
          assert Lookup(s, g, n, path).Some?;
        }
      } else {
        FreeSlotUnused(s, g, i);
        assert Lookup(s, g, n, path).None?;
        if rest != [] {
          assert path[..|path| - 1][0] == path[0];
          assert ChildNamed(t, h.kids[i], rest[0]).None?;
        }
      }
    }
  }

  /**
   * Exactly when a creation leaves a well-formed tree: the slot handed out was free and no sibling
   * is stored under the same (cut) name.
   */
  lemma CreateWellFormedIff(s: Fs, g: Shape, i: nat, name: Bytes, kind: nat, p: nat)
    requires Tree(s, g) && 0 < i < MAX_FILES && p < MAX_FILES && s.kinds[p] == DIRECTORY && FREE < kind <= DIRECTORY
    ensures KidsInRange(g)
    ensures WellFormed(Created(s, g, i, name, kind, p)) <==> s.kinds[i] == FREE && NewName(s, g.kids[p], Cut(name))
  {
    hide Created, Append, Reset, Walked, Passed;
    TreeKidsInRange(s, g);
    var t := Created(s, g, i, name, kind, p);
    if s.kinds[i] == FREE && NewName(s, g.kids[p], Cut(name)) {
      CreatedTree(s, g, i, name, kind, p);
    } else if WellFormed(t) {
      if s.kinds[i] != FREE {
        LiveSlotBreaks(s, g, i, name, kind, p);
      } else {
        RepeatedNameBreaks(s, g, i, name, kind, p);
      }
    }
  }

  lemma LiveSlotBreaks(s: Fs, g: Shape, i: nat, name: Bytes, kind: nat, p: nat)
    requires Tree(s, g) && 0 < i < MAX_FILES && p < MAX_FILES && s.kinds[p] == DIRECTORY && FREE < kind <= DIRECTORY
    requires s.kinds[i] != FREE && KidsInRange(g)
    ensures !WellFormed(Created(s, g, i, name, kind, p))
  {
    hide Created, Append, Reset, Walked, Passed;
    var t := Created(s, g, i, name, kind, p);
    CreatedParents(s, g, i, name, kind, p);
    WellFormedFacts(s);
    assert HasParent(s, g, i);
    var q := s.parents[i];
    assert Live(s, i) && Live(t, i) && Live(s, q) && Live(t, q) && q != i;
    assert i in ChildSet(s, q);
    if q == p {
      assert ChildSet(t, q) == ChildSet(s, q);
    } else if p != i {
      assert ChildSet(t, q) == ChildSet(s, q) - {i};
    }
    if WellFormed(t) {
      WellFormedFacts(t);
    }
  }

  lemma CreatedParents(s: Fs, g: Shape, i: nat, name: Bytes, kind: nat, p: nat)
    requires Sized(s) && KidsInRange(g) && i < MAX_FILES && p < MAX_FILES
    ensures var t := Created(s, g, i, name, kind, p);
      && t.names == s.names[i := Cut(name)] && t.kinds == s.kinds[i := kind] && t.parents == s.parents[i := p]
      && (i != p ==> t.counts == s.counts[i := 0][p := s.counts[p] + 1])
  {
  }

  lemma RepeatedNameBreaks(s: Fs, g: Shape, i: nat, name: Bytes, kind: nat, p: nat)
    requires Tree(s, g) && 0 < i < MAX_FILES && p < MAX_FILES && s.kinds[p] == DIRECTORY && FREE < kind <= DIRECTORY
    requires s.kinds[i] == FREE && KidsInRange(g) && !NewName(s, g.kids[p], Cut(name))
    ensures !WellFormed(Created(s, g, i, name, kind, p))
  {
    hide Created, Append, Reset, Walked, Passed;
    var t := Created(s, g, i, name, kind, p);
    var j :| 0 <= j < |g.kids[p]| && s.names[g.kids[p][j]] == Cut(name);
    var c := g.kids[p][j];
    assert GoodChild(s, g, p, j);
    CreatedParents(s, g, i, name, kind, p);
    assert c != i;
    assert Live(t, c) && Live(t, i) && t.parents[c] == t.parents[i] && t.names[c] == t.names[i];
    if WellFormed(t) {
      WellFormedFacts(t);
    }
  }

  // ----- removing -----

  /** The arrays after child `j` of `p` was unlinked and its slot wiped. */
  ghost function Removed(s: Fs, g: Shape, p: nat, j: nat): (r: Fs)
    requires Sized(s) && KidsInRange(g) && p < MAX_FILES && j < |g.kids[p]| && s.counts[p] > 0
    ensures Sized(r)
  {
    var c := g.kids[p][j];
    var t := if j == 0 then s.(first := s.first[p := s.next[c]])
             else s.(next := s.next[g.kids[p][j - 1] := s.next[c]]);
    t.(names := s.names[c := []], kinds := s.kinds[c := FREE], sizes := s.sizes[c := 0], parents := s.parents[c := -1],
       first := t.first[c := -1], next := t.next[c := -1], counts := s.counts[p := s.counts[p] - 1][c := 0],
       datas := s.datas[c := Zeros(FILE_SIZE)])
  }

  function Zeros(n: nat): (r: Bytes)
    ensures |r| == n && forall k :: 0 <= k < n ==> r[k] == 0
  {
    seq(n, _ => 0)
  }

  function Pruned(g: Shape, p: nat, j: nat): Shape
    requires |g.kids| == MAX_FILES && p < MAX_FILES && j < |g.kids[p]|
  {
    g.(kids := g.kids[p := g.kids[p][..j] + g.kids[p][j + 1..]])
  }

  lemma RemovedChildren(s: Fs, g: Shape, p: nat, j: nat, n: nat, k: nat)
    requires Tree(s, g) && p < MAX_FILES && j < |g.kids[p]| && s.counts[p] > 0 && g.kids[p][j] < MAX_FILES
      && g.kids[g.kids[p][j]] == []
    requires n < MAX_FILES && k < |Pruned(g, p, j).kids[n]|
    ensures KidsInRange(g) && GoodChild(Removed(s, g, p, j), Pruned(g, p, j), n, k)
  {
    TreeKidsInRange(s, g);
    var list, c := g.kids[p], g.kids[p][j];
    assert GoodChild(s, g, p, j);
    assert Distinct(list);
    if n == p {
      var was := if k < j then k else k + 1;
      assert GoodChild(s, g, p, was);
      if j > 0 {
        assert GoodChild(s, g, p, j - 1);
      }
      if k + 1 == j {
        assert list[was] == list[j - 1];
      }
    } else {
      assert GoodChild(s, g, n, k);
      if j > 0 {
        assert GoodChild(s, g, p, j - 1);
      }
    }
  }

  /** Removing a leaf keeps the tree. */
  lemma RemovedTree(s: Fs, g: Shape, p: nat, j: nat)
    requires Tree(s, g) && p < MAX_FILES && j < |g.kids[p]| && s.counts[p] > 0 && g.kids[p][j] < MAX_FILES
      && g.kids[g.kids[p][j]] == []
    ensures KidsInRange(g) && Tree(Removed(s, g, p, j), Pruned(g, p, j))
  {
    TreeKidsInRange(s, g);
    var t, h := Removed(s, g, p, j), Pruned(g, p, j);
    var list, c := g.kids[p], g.kids[p][j];
    assert GoodChild(s, g, p, j);
    assert GoodNode(s, g, p);
    assert Distinct(list) && NamesDistinct(s, list);
    assert p != c;
    forall n: nat | n < MAX_FILES ensures GoodNode(t, h, n) {
      assert GoodNode(s, g, n);
    }
    forall n: nat, k: nat | n < MAX_FILES && k < |h.kids[n]| ensures GoodChild(t, h, n, k) {
      RemovedChildren(s, g, p, j, n, k);
    }
    forall n: nat | 0 < n < MAX_FILES && t.kinds[n] != FREE ensures HasParent(t, h, n) {
      assert HasParent(s, g, n);
      if s.parents[n] == p {
        var k: nat :| k < |list| && list[k] == n;
        assert h.kids[p][if k < j then k else k - 1] == n;
      }
      assert s.parents[n] != c;
    }
    forall n: nat | n < MAX_FILES ensures Distinct(h.kids[n]) && NamesDistinct(t, h.kids[n]) {
      RemovedNames(s, g, p, j, n);
    }
  }

  lemma RemovedNames(s: Fs, g: Shape, p: nat, j: nat, n: nat)
    requires Tree(s, g) && p < MAX_FILES && j < |g.kids[p]| && s.counts[p] > 0 && n < MAX_FILES
    ensures KidsInRange(g) && Distinct(Pruned(g, p, j).kids[n])
      && NamesDistinct(Removed(s, g, p, j), Pruned(g, p, j).kids[n])
  {
    TreeKidsInRange(s, g);
    var list, c := g.kids[n], g.kids[p][j];
    assert Distinct(list) && NamesDistinct(s, list) && Distinct(g.kids[p]);
    assert GoodChild(s, g, p, j);
    if n != p {
      forall k: nat | k < |list| ensures list[k] != c {
        assert GoodChild(s, g, n, k);
      }
    }
  }

  lemma {:induction false} ChildNamedDrop(s: Fs, list: seq<nat>, j: nat, name: Bytes)
    requires j < |list| && Distinct(list) && NamesDistinct(s, list) && forall k :: 0 <= k < |list| ==>
      list[k] < |s.names|
    ensures ChildNamed(s, list[..j] + list[j + 1..], name)
      == if ChildNamed(s, list, name) == Some(list[j]) then None else ChildNamed(s, list, name)
  {
    var less := list[..j] + list[j + 1..];
    forall k: nat | k < |less| ensures less[k] == list[if k < j then k else k + 1] {
    }
    assert NamesDistinct(s, less);
    var a := ChildNamed(s, list, name);
    if a.Some? {
      var k: nat :| k < |list| && list[k] == a.value;
      if k != j {
        NamedOnce(s, less, if k < j then k else k - 1, name);
      } else {
        Unnamed(s, less, name);
      }
    } else {
      Unnamed(s, less, name);
    }
  }

  lemma {:induction false} Unnamed(s: Fs, list: seq<nat>, name: Bytes)
    requires forall j :: 0 <= j < |list| && list[j] < |s.names| ==> s.names[list[j]] != name
    ensures ChildNamed(s, list, name).None?
  {
    if list != [] {
      Unnamed(s, list[1..], name);
    }
  }

  lemma RemovedChildNamed(s: Fs, g: Shape, p: nat, j: nat, n: nat, name: Bytes)
    requires Tree(s, g) && p < MAX_FILES && j < |g.kids[p]| && s.counts[p] > 0 && n < MAX_FILES
    ensures KidsInRange(g)
    ensures ChildNamed(Removed(s, g, p, j), Pruned(g, p, j).kids[n], name)
      == if ChildNamed(s, g.kids[n], name) == Some(g.kids[p][j]) then None else ChildNamed(s, g.kids[n], name)
  {
    TreeKidsInRange(s, g);
    var t, h, c := Removed(s, g, p, j), Pruned(g, p, j), g.kids[p][j];
    assert Distinct(g.kids[n]) && NamesDistinct(s, g.kids[n]);
    assert GoodChild(s, g, p, j);
    forall k: nat | k < |h.kids[n]| ensures h.kids[n][k] != c {
      if n != p {
        assert GoodChild(s, g, n, k);
      }
    }
    ChildNamedSame(t, s, h.kids[n], name);
    if n == p {
      ChildNamedDrop(s, g.kids[p], j, name);
    } else {
      var a := ChildNamed(s, g.kids[n], name);
      if a.Some? {
        var k: nat :| k < |g.kids[n]| && g.kids[n][k] == a.value;
        assert h.kids[n][k] != c;
      }
    }
  }

  /** Removing a leaf takes away exactly its own path. */
  lemma {:induction false} RemovedLookup(s: Fs, g: Shape, p: nat, j: nat, n: nat, path: seq<Bytes>)
    requires Tree(s, g) && p < MAX_FILES && j < |g.kids[p]| && s.counts[p] > 0 && g.kids[p][j] < MAX_FILES
      && g.kids[g.kids[p][j]] == []
    requires Live(s, n) && n != g.kids[p][j]
    ensures KidsInRange(g)
    ensures Lookup(Removed(s, g, p, j), Pruned(g, p, j), n, path)
      == if Lookup(s, g, n, path) == Some(g.kids[p][j]) then None else Lookup(s, g, n, path)
    decreases |path|
  {
    TreeKidsInRange(s, g);
    if path != [] {
      RemovedChildNamed(s, g, p, j, n, path[0]);
      var hit := ChildNamed(s, g.kids[n], path[0]);
      var rest := path[1..];
      if hit.Some? {
        ChildLive(s, g, n, path[0]);
        if hit.value != g.kids[p][j] {
          RemovedLookup(s, g, p, j, hit.value, rest);
        } else {
          assert Lookup(s, g, n, path) == Lookup(s, g, hit.value, rest);
          if rest != [] {
            assert ChildNamed(s, g.kids[hit.value], rest[0]).None?;
          }
        }
      }
    }
  }
}
