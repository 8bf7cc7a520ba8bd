/**
 * The RAM file system's array-encoded tree (userspace/services/fileagent/src/ramfs.rs):
 * sibling lists threaded through parallel arrays, as a value, with the tree they must
 * encode and what insertion and removal do to it.
 */
module RamFsTree {
  import opened Common

  const MAX_FILES: nat := 16
  const MAX_NAME: nat := 64
  const FILE_SIZE: nat := 4096

  const FREE: nat := 0
  const FILE: nat := 1
  const DIRECTORY: nat := 2

  type Bytes = seq<nat>

  /** The parallel arrays; `names[i]` is the first `NAME_LENS[i]` bytes of the name buffer. */
  datatype Fs = Fs(names: seq<Bytes>, kinds: seq<nat>, sizes: seq<nat>, parents: seq<int>,
                   first: seq<int>, next: seq<int>, counts: seq<nat>, datas: seq<Bytes>, nextIdx: nat)

  predicate Sized(s: Fs) {
    && |s.names| == MAX_FILES && |s.kinds| == MAX_FILES && |s.sizes| == MAX_FILES && |s.parents| == MAX_FILES
    && |s.first| == MAX_FILES && |s.next| == MAX_FILES && |s.counts| == MAX_FILES && |s.datas| == MAX_FILES
  }

  predicate Live(s: Fs, n: nat)
    requires Sized(s)
  {
    n < MAX_FILES && s.kinds[n] != FREE
  }

  /** The tree: the children of each node in order, and its depth. */
  datatype Shape = Shape(kids: seq<seq<nat>>, depth: seq<nat>)

  function Head(list: seq<nat>): int {
    if list == [] then -1 else list[0]
  }

  function After(list: seq<nat>, j: nat): int
    requires j < |list|
  {
    if j + 1 < |list| then list[j + 1] else -1
  }

  /** Node `n`, its sibling list and its children agree with the tree. */
  predicate GoodNode(s: Fs, g: Shape, n: nat)
    requires Sized(s) && |g.kids| == MAX_FILES && |g.depth| == MAX_FILES && n < MAX_FILES
  {
    && s.kinds[n] <= DIRECTORY
    && s.first[n] == Head(g.kids[n])
    && (s.kinds[n] != DIRECTORY ==> g.kids[n] == [])
    && (s.kinds[n] != FREE ==> s.counts[n] == |g.kids[n]|)
    && s.sizes[n] <= FILE_SIZE && |s.datas[n]| == FILE_SIZE
  }

  /** Child `j` of `n`: linked to the next sibling, pointing back at `n`, one level deeper. */
  predicate GoodChild(s: Fs, g: Shape, n: nat, j: nat)
    requires Sized(s) && |g.kids| == MAX_FILES && |g.depth| == MAX_FILES && n < MAX_FILES && j < |g.kids[n]|
  {
    var c := g.kids[n][j];
    && 0 < c < MAX_FILES && s.kinds[c] != FREE
    && s.parents[c] == n && s.next[c] == After(g.kids[n], j) && g.depth[c] == g.depth[n] + 1
  }

  /** A live node other than the root is in the child list of its live parent. */
  predicate HasParent(s: Fs, g: Shape, n: nat)
    requires Sized(s) && |g.kids| == MAX_FILES && n < MAX_FILES
  {
    && 0 <= s.parents[n] < MAX_FILES && s.kinds[s.parents[n]] != FREE
    && n in g.kids[s.parents[n]]
  }

  ghost predicate Tree(s: Fs, g: Shape) {
    && Sized(s) && |g.kids| == MAX_FILES && |g.depth| == MAX_FILES
    && s.kinds[0] == DIRECTORY && s.parents[0] == -1 && s.nextIdx >= 1
    && (forall n: nat :: n < MAX_FILES ==> GoodNode(s, g, n))
    && (forall n: nat, j: nat :: n < MAX_FILES && j < |g.kids[n]| ==> GoodChild(s, g, n, j))
    && (forall n: nat {:trigger HasParent(s, g, n)} :: 0 < n < MAX_FILES && s.kinds[n] != FREE ==> HasParent(s, g, n))
    && (forall n: nat :: n < MAX_FILES ==> Distinct(g.kids[n]) && NamesDistinct(s, g.kids[n]))
  }

  predicate NamesDistinct(s: Fs, list: seq<nat>) {
    forall i, j :: 0 <= i < j < |list| && list[i] < |s.names| && list[j] < |s.names| ==>
      s.names[list[i]] != s.names[list[j]]
  }

  /** The arrays encode some tree. */
  ghost predicate WellFormed(s: Fs) {
    exists g: Shape :: Tree(s, g)
  }

  // ----- lookup -----

  /** First node of `list` called `name`. */
  function ChildNamed(s: Fs, list: seq<nat>, name: Bytes): (r: Option<nat>)
    ensures r.Some? ==> r.value in list && r.value < |s.names| && s.names[r.value] == name
    ensures r.None? ==> forall i :: 0 <= i < |list| && list[i] < |s.names| ==> s.names[list[i]] != name
  {
    if list == [] then None
    else if list[0] < |s.names| && s.names[list[0]] == name then Some(list[0])
    else ChildNamed(s, list[1..], name)
  }

  /** Component-wise lookup from node `n`. */
  function Lookup(s: Fs, g: Shape, n: nat, path: seq<Bytes>): Option<nat>
    decreases |path|
  {
    if path == [] then Some(n)
    else if n >= |g.kids| then None
    else match ChildNamed(s, g.kids[n], path[0])
      case None => None
      case Some(c) => Lookup(s, g, c, path[1..])
  }

  lemma {:induction false} LookupLive(s: Fs, g: Shape, n: nat, path: seq<Bytes>)
    requires Tree(s, g) && Live(s, n)
    ensures Lookup(s, g, n, path).Some? ==> Live(s, Lookup(s, g, n, path).value)
    ensures Lookup(s, g, n, path).Some? ==> g.depth[Lookup(s, g, n, path).value] == g.depth[n] + |path|
    decreases |path|
  {
    if path != [] {
      var c := ChildNamed(s, g.kids[n], path[0]);
      if c.Some? {
        var j: nat :| j < |g.kids[n]| && g.kids[n][j] == c.value;
        assert GoodChild(s, g, n, j);
        LookupLive(s, g, c.value, path[1..]);
      }
    }
  }

  lemma {:induction false} LookupAppend(s: Fs, g: Shape, n: nat, a: seq<Bytes>, b: seq<Bytes>)
    ensures Lookup(s, g, n, a + b)
      == if Lookup(s, g, n, a).Some? then Lookup(s, g, Lookup(s, g, n, a).value, b) else None
    decreases |a|
  {
    if a == [] {
      assert a + b == b;
    } else {
      assert (a + b)[0] == a[0] && (a + b)[1..] == a[1..] + b;
      if n < |g.kids| && ChildNamed(s, g.kids[n], a[0]).Some? {
        LookupAppend(s, g, ChildNamed(s, g.kids[n], a[0]).value, a[1..], b);
      }
    }
  }

  /** A node is reached by one path only. */
  lemma {:induction false} PathIsUnique(s: Fs, g: Shape, a: seq<Bytes>, b: seq<Bytes>)
    requires Tree(s, g) && Lookup(s, g, 0, a).Some? && Lookup(s, g, 0, a) == Lookup(s, g, 0, b)
    ensures a == b
    decreases |a|
  {
    LookupLive(s, g, 0, a);
    LookupLive(s, g, 0, b);
    assert |a| == |b|;
    if a != [] {
      var a0, b0 := a[..|a| - 1], b[..|b| - 1];
      assert a == a0 + [a[|a| - 1]] && b == b0 + [b[|b| - 1]];
      LookupAppend(s, g, 0, a0, [a[|a| - 1]]);
      LookupAppend(s, g, 0, b0, [b[|b| - 1]]);
      LastStep(s, g, a0, a[|a| - 1]);
      LastStep(s, g, b0, b[|b| - 1]);
      PathIsUnique(s, g, a0, b0);
    }
  }

  /** The last step of a lookup goes from the parent to a child of that name. */
  lemma LastStep(s: Fs, g: Shape, dir: seq<Bytes>, name: Bytes)
    requires Tree(s, g) && Lookup(s, g, 0, dir + [name]).Some?
    ensures var n := Lookup(s, g, 0, dir + [name]).value;
      && Lookup(s, g, 0, dir).Some? && Live(s, n) && s.names[n] == name && s.parents[n] == Lookup(s, g, 0, dir).value
  {
    LookupAppend(s, g, 0, dir, [name]);
    LookupLive(s, g, 0, dir);
    var p := Lookup(s, g, 0, dir).value;
    var c := ChildNamed(s, g.kids[p], name).value;
    var j: nat :| j < |g.kids[p]| && g.kids[p][j] == c;
    assert GoodChild(s, g, p, j);
    assert Lookup(s, g, p, [name]) == Lookup(s, g, c, []);
  }

  /** Where names differ, every node of the list is the one found under its name. */
  lemma NamedOnce(s: Fs, list: seq<nat>, k: nat, name: Bytes)
    requires k < |list| && NamesDistinct(s, list) && (forall j :: 0 <= j < |list| ==> list[j] < |s.names|)
      && s.names[list[k]] == name
    ensures ChildNamed(s, list, name) == Some(list[k])
  {
    var a := ChildNamed(s, list, name);
    var j :| 0 <= j < |list| && list[j] == a.value;
    assert j == k;
  }

  /** Every live node has a path from the root; by `PathIsUnique` it has exactly one. */
  lemma {:induction false} EveryLiveReached(s: Fs, g: Shape, n: nat) returns (path: seq<Bytes>)
    requires Tree(s, g) && Live(s, n)
    ensures Lookup(s, g, 0, path) == Some(n)
    decreases g.depth[n]
  {
    if n == 0 {
      path := [];
    } else {
      assert HasParent(s, g, n);
      var p: nat := s.parents[n];
      var j: nat :| j < |g.kids[p]| && g.kids[p][j] == n;
      assert GoodChild(s, g, p, j);
      KidsNamed(s, g, p);
      var dir := EveryLiveReached(s, g, p);
      path := dir + [s.names[n]];
      LookupAppend(s, g, 0, dir, [s.names[n]]);
      NamedOnce(s, g.kids[p], j, s.names[n]);
      assert Lookup(s, g, p, [s.names[n]]) == Lookup(s, g, n, []);
    }
  }

  lemma KidsNamed(s: Fs, g: Shape, p: nat)
    requires Tree(s, g) && p < MAX_FILES
    ensures NamesDistinct(s, g.kids[p]) && forall j :: 0 <= j < |g.kids[p]| ==> g.kids[p][j] < |s.names|
  {
    forall j: nat | j < |g.kids[p]| ensures g.kids[p][j] < |s.names| {
      assert GoodChild(s, g, p, j);
    }
  }

  // ----- consequences of well-formedness that need no witness -----

  /** The live nodes whose parent entry is `n`. */
  ghost function ChildSet(s: Fs, n: nat): set<nat>
    requires Sized(s)
  {
    set m: nat | m < MAX_FILES && s.kinds[m] != FREE && s.parents[m] == n
  }

  lemma KidsAreChildSet(s: Fs, g: Shape, n: nat)
    requires Tree(s, g) && Live(s, n)
    ensures Elements(g.kids[n]) == ChildSet(s, n) && s.counts[n] == |ChildSet(s, n)|
  {
    forall m | m in g.kids[n] ensures m in ChildSet(s, n) {
      var j: nat :| j < |g.kids[n]| && g.kids[n][j] == m;
      assert GoodChild(s, g, n, j);
    }
    forall m | m in ChildSet(s, n) ensures m in g.kids[n] {
      assert HasParent(s, g, m);
    }
    DistinctCardinality(g.kids[n]);
    assert GoodNode(s, g, n);
  }

  /** Child counts are right, siblings have different names, and nobody is its own parent. */
  lemma WellFormedFacts(s: Fs)
    requires WellFormed(s)
    ensures Sized(s)
    ensures forall n: nat :: Live(s, n) ==> s.counts[n] == |ChildSet(s, n)|
    ensures forall m: nat, n: nat :: 0 < m < n && Live(s, m) && Live(s, n) && s.parents[m] == s.parents[n] ==>
      s.names[m] != s.names[n]
    ensures forall n: nat :: Live(s, n) ==> s.parents[n] != n
  {
    var g: Shape :| Tree(s, g);
    forall n: nat | Live(s, n) ensures s.counts[n] == |ChildSet(s, n)| && s.parents[n] != n {
      KidsAreChildSet(s, g, n);
      if n > 0 {
        assert HasParent(s, g, n);
        var j: nat :| j < |g.kids[s.parents[n]]| && g.kids[s.parents[n]][j] == n;
        assert GoodChild(s, g, s.parents[n], j);
      }
    }
    forall m: nat, n: nat | 0 < m < n && Live(s, m) && Live(s, n) && s.parents[m] == s.parents[n]
      ensures s.names[m] != s.names[n]
    {
      assert HasParent(s, g, m) && HasParent(s, g, n);
      var list := g.kids[s.parents[m]];
      var i: nat :| i < |list| && list[i] == m;
      var j: nat :| j < |list| && list[j] == n;
      assert NamesDistinct(s, list);
    }
  }
}
