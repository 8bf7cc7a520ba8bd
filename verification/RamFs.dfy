/**
 * The RAM file system (userspace/services/fileagent/src/ramfs.rs) over its parallel arrays, and the
 * path operations of the virtual file system above it (userspace/services/fileagent/src/vfs.rs).
 */
module RamFs {
  import opened Common
  import opened RamFsTree
  import opened RamFsSteps
  import opened RamFsPaths
  import opened RamFsEffects

  class RamFs {
    const names: array<Bytes>
    const kinds: array<nat>
    const sizes: array<nat>
    const parents: array<int>
    const first: array<int>
    const next: array<int>
    const counts: array<nat>
    const datas: array<Bytes>
    var nextIdx: nat
    ghost var shape: Shape

    ghost predicate Buffers() {
      && names.Length == MAX_FILES && kinds.Length == MAX_FILES && sizes.Length == MAX_FILES
      && parents.Length == MAX_FILES
      && first.Length == MAX_FILES && next.Length == MAX_FILES && counts.Length == MAX_FILES
      && datas.Length == MAX_FILES
      && names != datas && kinds != sizes && kinds != counts && sizes != counts
      && parents != first && parents != next && first != next
    }

    ghost function View(): (s: Fs)
      requires Buffers()
      reads this, names, kinds, sizes, parents, first, next, counts, datas
      ensures Sized(s)
    {
      Fs(names[..], kinds[..], sizes[..], parents[..], first[..], next[..], counts[..], datas[..], nextIdx)
    }

    ghost predicate Valid()
      reads this, names, kinds, sizes, parents, first, next, counts, datas
    {
      Buffers() && Tree(View(), shape) && ZeroTails(View())
    }

    /** The file system holding only its root. */
    constructor ()
      ensures Valid() && FreshAbove(View().kinds, nextIdx)
      ensures fresh(names) && fresh(kinds) && fresh(sizes) && fresh(parents)
      ensures fresh(first) && fresh(next) && fresh(counts) && fresh(datas)
      ensures forall cs: seq<Bytes> :: Lookup(View(), shape, 0, cs) == if cs == [] then Some(0) else None
    {
      hide Tree, ZeroTails;
      names := new Bytes[MAX_FILES](_ => []);
      kinds := new nat[MAX_FILES](_ => FREE);
      sizes := new nat[MAX_FILES](_ => 0);
      parents := new int[MAX_FILES](_ => -1);
      first := new int[MAX_FILES](_ => -1);
      next := new int[MAX_FILES](_ => -1);
      counts := new nat[MAX_FILES](_ => 0);
      datas := new Bytes[MAX_FILES](_ => Zeros(FILE_SIZE));
      shape := InitialShape();
      new;
      nextIdx := 1;
      kinds[0] := DIRECTORY;
      names[0] := [SLASH];
      InitialTree();
      assert names[..] == Initial().names && kinds[..] == Initial().kinds && sizes[..] == Initial().sizes;
      assert parents[..] == Initial().parents && first[..] == Initial().first && next[..] == Initial().next;
      assert counts[..] == Initial().counts && datas[..] == Initial().datas;
      assert View() == Initial();
    }

    /** First node called `name` in the list of `parent`. */
    method FindChild(parent: int, name: Bytes) returns (r: Option<nat>)
      requires Valid()
      ensures r == if 0 <= parent < MAX_FILES then ChildNamed(View(), shape.kids[parent], name) else None
    {
      if parent < 0 || parent >= MAX_FILES {
        return None;
      }
      ghost var list := shape.kids[parent];
      ghost var j: nat := 0;
      assert GoodNode(View(), shape, parent);
      var cur := first[parent];
      while cur >= 0
        invariant j <= |list| && cur == Head(list[j..])
        invariant ChildNamed(View(), list, name) == ChildNamed(View(), list[j..], name)
        decreases |list| - j
      {
        assert GoodChild(View(), shape, parent, j);
        assert cur == list[j];
        assert list[j..][1..] == list[j + 1..];
        if names[cur] == name {
          return Some(cur);
        }
        cur := next[cur];
        j := j + 1;
      }
      r := None;
    }

    /** Hands out a slot and moves the cursor past it. */
    method AllocIdx() returns (r: Option<nat>)
      requires Valid()
      modifies this`nextIdx
      ensures r == Slot(old(View()).kinds, old(nextIdx))
      ensures old(nextIdx) < MAX_FILES ==> r == Some(old(nextIdx))
      ensures old(nextIdx) >= MAX_FILES ==> (r.None? <==> forall i :: 1 <= i < MAX_FILES ==> kinds[i] != FREE)
      ensures old(nextIdx) >= MAX_FILES && r.Some? ==>
        1 <= r.value < MAX_FILES && kinds[r.value] == FREE && forall i :: 1 <= i < r.value ==> kinds[i] != FREE
      ensures nextIdx == if r.Some? then r.value + 1 else old(nextIdx)
    {
      var i := nextIdx;
      if i < MAX_FILES {
        nextIdx := i + 1;
        return Some(i);
      }
      ghost var k := kinds[..];
      for j := 1 to MAX_FILES
        invariant nextIdx == old(nextIdx) && kinds[..] == k
        invariant FirstFree(k, 1) == FirstFree(k, j)
      {
        if kinds[j] == FREE {
          nextIdx := j + 1;
          return Some(j);
        }
      }
      r := None;
    }

    /** Fills the slot and walks to the end of the parent's list to hang it there; a negative parent has no list. */
    method SetNode(name: Bytes, kind: nat, parent: int) returns (r: Option<nat>)
      requires Valid() && parent < MAX_FILES
      modifies this`nextIdx, names, kinds, sizes, parents, first, next, counts
      ensures r == Slot(old(View()).kinds, old(nextIdx))
      ensures r.None? ==> View() == old(View())
      ensures KidsInRange(shape)
      ensures r.Some? ==>
        View() == if parent < 0 then Reset(old(View()), r.value, name, kind, parent).(nextIdx := r.value + 1)
                                    else Made(old(View()), shape, r.value, name, kind, parent)
    {
      hide Tree, ZeroTails, Walked, LinkedList;
      ghost var s, g := View(), shape;
      TreeSized(s, g);
      r := AllocIdx();
      if r.None? {
        return;
      }
      var i := r.value;
      FillSlot(i, name, kind, parent);
      if parent < 0 {
        return;
      }
      ghost var t, list := Reset(s, i, name, kind, parent), Walked(g, i, parent);
      WalkedLinks(s, g, i, name, kind, parent);
      var cur := first[parent];
      if cur < 0 {
        first[parent] := i;
      } else {
        ghost var j: nat := 0;
        LinkAt(t, list, j);
        while next[cur] >= 0
          invariant j < |list| && cur == list[j] && cur < MAX_FILES
          invariant View() == t.(nextIdx := i + 1)
          decreases |list| - j
        {
          LinkAt(t, list, j);
          cur := next[cur];
          j := j + 1;
          LinkAt(t, list, j);
        }
        LinkAt(t, list, j);
        next[cur] := i;
      }
      counts[parent] := counts[parent] + 1;
    }

    /** The slot's entries for a new node. */
    method FillSlot(i: nat, name: Bytes, kind: nat, parent: int)
      requires Buffers() && i < MAX_FILES
      modifies names, kinds, sizes, parents, first, next, counts
      ensures View() == Reset(old(View()), i, name, kind, parent)
    {
      names[i] := Cut(name);
      kinds[i] := kind;
      sizes[i] := 0;
      parents[i] := parent;
      first[i] := -1;
      next[i] := -1;
      counts[i] := 0;
    }

    /**
     * Creates a node of the given kind; both creation functions of the source are this one.
     * A name already present, a parent that is no directory and a full table all yield nothing.
     */
    method Create(parent: int, name: Bytes, kind: nat) returns (r: Option<nat>)
      requires Valid() && FREE < kind <= DIRECTORY
      modifies this, names, kinds, sizes, parents, first, next, counts
      ensures KidsInRange(old(shape))
      ensures r == if 0 <= parent < MAX_FILES && old(kinds[parent]) == DIRECTORY
        && ChildNamed(old(View()), old(shape).kids[parent], name).None? then Slot(old(View()).kinds, old(nextIdx))
          else None
      ensures r.None? ==> Valid() && View() == old(View()) && shape == old(shape)
      ensures r.Some? ==> View() == Made(old(View()), old(shape), r.value, name, kind, parent)
      ensures r.Some? ==> (WellFormed(View()) <==> old(View()).kinds[r.value] == FREE
                                                   && NewName(old(View()), old(shape).kids[parent], Cut(name)))
      ensures r.Some? && WellFormed(View()) ==> Valid() && shape == Grown(old(shape), r.value, parent)
    {
      hide Tree, ZeroTails, Made, WellFormed, AddsPath, NodesKept;
      ghost var s, g := View(), shape;
      TreeSized(s, g);
      if parent < 0 || parent >= MAX_FILES {
        return None;
      }
      if kinds[parent] != DIRECTORY {
        return None;
      }
      var found := FindChild(parent, name);
      if found.Some? {
        return None;
      }
      r := SetNode(name, kind, parent);
      if r.Some? {
        SlotPositive(s, g);
        MadeWellFormedIff(s, g, r.value, name, kind, parent);
        if s.kinds[r.value] == FREE && NewName(s, g.kids[parent], Cut(name)) {
          CreateEffect(s, g, r.value, name, kind, parent);
          shape := Grown(g, r.value, parent);
        }
      }
    }

    /** Walks the components of the path from the root. */
    method Resolve(path: Bytes) returns (r: Option<nat>)
      requires Valid()
      ensures r == Lookup(View(), shape, 0, Components(path))
    {
      hide Tree, ZeroTails;
      TreeSized(View(), shape);
      var clean := Clean(path);
      CleanComponents(path);
      if clean == [] {
        return Some(0);
      }
      var cs := Components(clean);
      var current := 0;
      RootLive(View(), shape);
      for k := 0 to |cs|
        invariant Live(View(), current)
        invariant Lookup(View(), shape, 0, cs) == Lookup(View(), shape, current, cs[k..])
      {
        var found := FindChild(current, cs[k]);
        assert cs[k..][0] == cs[k] && cs[k..][1..] == cs[k + 1..];
        if found.None? {
          return None;
        }
        ChildLive(View(), shape, current, cs[k]);
        current := found.value;
      }
      assert cs[|cs|..] == [];
      r := Some(current);
    }

    /** Unlinks a leaf from its parent's list and wipes its slot. */
    method Remove(parent: int, child: int) returns (b: bool)
      requires Valid()
      modifies this, names, kinds, sizes, parents, first, next, counts, datas
      ensures b <==> (0 <= parent < MAX_FILES && 0 <= child < MAX_FILES && old(kinds[child]) != FREE
                      && !(old(kinds[child]) == DIRECTORY && old(counts[child]) > 0)
                      && child in old(shape).kids[parent])
      ensures Valid()
      ensures !b ==> View() == old(View()) && shape == old(shape)
      ensures b ==> DropsPath(old(View()), old(shape), View(), shape, child) && NodesKept(old(View()), View(), child)
      ensures b ==> View().kinds == old(View()).kinds[child := FREE] && nextIdx == old(nextIdx)
    {
      hide Tree, ZeroTails, DropsPath, NodesKept, Removed, Pruned;
      ghost var s, g := View(), shape;
      TreeSized(s, g);
      if parent < 0 || parent >= MAX_FILES || child < 0 || child >= MAX_FILES {
        return false;
      }
      if kinds[child] == DIRECTORY && counts[child] > 0 {
        return false;
      }
      if kinds[child] == FREE {
        return false;
      }
      ghost var list := g.kids[parent];
      ListLinks(s, g, parent);
      var prev := -1;
      var cur := first[parent];
      ghost var j: nat := 0;
      while cur >= 0
        invariant View() == s && shape == g
        invariant j <= |list| && cur == Head(list[j..]) && prev == (if j == 0 then -1 else list[j - 1])
        invariant child !in list[..j]
        decreases |list| - j
      {
        LinkAt(s, list, j);
        assert cur == list[j];
        if cur == child {
          LeafCount(s, g, child);
          RemoveEffect(s, g, parent, j);
          UnlinkAndWipe(parent, prev, child);
          RemovedIs(s, g, parent, j, View());
          shape := Pruned(g, parent, j);
          return true;
        }
        prev := cur;
        cur := next[cur];
        assert list[..j + 1] == list[..j] + [list[j]];
        j := j + 1;
        assert list[j..] != [] ==> list[j..][0] == list[j];
      }
      assert list[..j] == list;
      return false;
    }

    /** The writes of a removal. */
    method UnlinkAndWipe(parent: nat, prev: int, child: nat)
      requires Buffers() && parent < MAX_FILES && child < MAX_FILES && prev < MAX_FILES && counts[parent] > 0
      modifies names, kinds, sizes, parents, first, next, counts, datas
      ensures View() == Wiped(old(View()), parent, prev, child)
    {
      if prev < 0 {
        first[parent] := next[child];
      } else {
        next[prev] := next[child];
      }
      counts[parent] := counts[parent] - 1;
      WipeSlot(child);
    }

    method WipeSlot(child: nat)
      requires Buffers() && child < MAX_FILES
      modifies names, kinds, sizes, parents, first, next, counts, datas
      ensures View() == Blank(old(View()), child)
    {
      kinds[child] := FREE;
      names[child] := [];
      sizes[child] := 0;
      parents[child] := -1;
      first[child] := -1;
      next[child] := -1;
      counts[child] := 0;
      datas[child] := Zeros(FILE_SIZE);
    }

    /** Makes every missing directory of the path. */
    method MkdirPath(path: Bytes) returns (r: Result<()>)
      requires Valid()
      requires forall i :: 0 <= i < |Components(path)| ==> |Components(path)[i]| < MAX_NAME
      requires AllocsOk(kinds[..], nextIdx, Allocs(View(), shape, 0, Components(path)))
      modifies this, names, kinds, sizes, parents, first, next, counts
      ensures Valid() && Grows(old(View()), old(shape), View(), shape, Components(path))
      ensures r == Err(AlreadyExists) <==>
        Components(path) != [] && Lookup(old(View()), old(shape), 0, Components(path)).Some?
      ensures r == Err(WrongType) <==> exists k: nat ::
        k < |Components(path)| && FileOnPath(old(View()), old(shape), Components(path), k)
      ensures r == Err(AlreadyExists) || r == Err(WrongType) ==> View() == old(View())
      ensures r.Ok? ==>
        Lookup(View(), shape, 0, Components(path)).Some?
        && !FileOnPath(View(), shape, Components(path), |Components(path)|)
      ensures r.Err? ==> r.error in {AlreadyExists, WrongType, NoMemory}
      ensures r == Err(NoMemory) ==> Slot(View().kinds, nextIdx).None?
    {
      hide Tree, ZeroTails, Grows, AddsPath, NodesKept, Grown, Made, WellFormed, Walking, FileOnPath, AllocsOk, Allocs;
      hide Lookup;
      ghost var s, g := View(), shape;
      var clean := Clean(path);
      CleanComponents(path);
      var cs := Components(clean);
      var current: nat := 0;
      ghost var made := false;
      WalkStart(s, g, cs);
      for k := 0 to |cs|
        invariant Valid() && Walking(s, g, View(), shape, cs, k, current, made)
      {
        WalkFacts(s, g, View(), shape, cs, k, current, made);
        var found := FindChild(current, cs[k]);
        if found.Some? {
          WalkFound(s, g, View(), shape, cs, k, current, made, found.value);
          if k + 1 == |cs| {
            return Err(AlreadyExists);
          }
          if kinds[found.value] != DIRECTORY {
            return Err(WrongType);
          }
          current := found.value;
        } else {
          ghost var t, h := View(), shape;
          WalkMissing(s, g, t, h, cs, k, current, made);
          var dir := Create(current, cs[k], DIRECTORY);
          if dir.None? {
            return Err(NoMemory);
          }
          WalkMade(s, g, t, h, cs, k, current, made, dir.value);
          current := dir.value;
          made := true;
        }
      }
      WalkEnd(s, g, View(), shape, cs, current, made);
      r := Ok(());
    }

    /** Creates the file named by the last component, in the directory the rest resolves to. */
    method CreateFilePath(path: Bytes) returns (r: Option<nat>)
      requires Valid()
      modifies this, names, kinds, sizes, parents, first, next, counts
      ensures r.None? ==> Valid() && View() == old(View()) && shape == old(shape)
      ensures r.Some? ==> Clean(path) != []
      ensures r.Some? ==> (
        var dir := Lookup(old(View()), old(shape), 0, Components(DirOf(Clean(path))));
        && dir.Some? && dir.value < MAX_FILES && r.value < MAX_FILES && KidsInRange(old(shape))
        && old(View()).kinds[dir.value] == DIRECTORY
        && ChildNamed(old(View()), old(shape).kids[dir.value], FileOf(Clean(path))).None?
        && r == Slot(old(View()).kinds, old(nextIdx))
        && (WellFormed(View()) <==>
          old(View()).kinds[r.value] == FREE
          && NewName(old(View()), old(shape).kids[dir.value], Cut(FileOf(Clean(path)))))
        && (WellFormed(View()) ==> (
              && Valid() && Contents(View(), r.value) == [] && View().kinds[r.value] == FILE
              && AddsPath(old(View()), old(shape), View(), shape, dir.value, Cut(FileOf(Clean(path))), r.value)
              && NodesKept(old(View()), View(), r.value))))
      ensures r.None? && Clean(path) != [] ==> (
        var dir := Lookup(old(View()), old(shape), 0, Components(DirOf(Clean(path))));
        || dir.None? || (dir.value < MAX_FILES && KidsInRange(shape) && (kinds[dir.value] != DIRECTORY
           || ChildNamed(View(), shape.kids[dir.value], FileOf(Clean(path))).Some?
           || Slot(View().kinds, nextIdx).None?)))
    {
      hide Tree, ZeroTails, AddsPath, NodesKept, Grown, Made, WellFormed;
      ghost var s, g := View(), shape;
      TreeSized(s, g);
      RootLive(s, g);
      var clean := Clean(path);
      if clean == [] {
        return None;
      }
      var parent: nat := 0;
      var fileName := clean;
      var slash := LastSlash(clean);
      if slash.Some? {
        fileName := clean[slash.value + 1..];
        var p := Resolve(clean[..slash.value]);
        if p.None? {
          return None;
        }
        parent := p.value;
      }
      LookupLive(s, g, 0, Components(DirOf(clean)));
      r := Create(parent, fileName, FILE);
      if r.Some? && WellFormed(View()) {
        SlotPositive(s, g);
        CreateEffect(s, g, r.value, fileName, FILE, parent);
      }
    }

    /**
     * The node behind `open`: the one the path resolves to, or with the create flag a new empty file.
     * A new file leaves a well-formed tree exactly when its slot was free and its stored name is new, and
     * then the path resolves to it unless the name was too long to be stored whole.
     */
    method Open(path: Bytes, create: bool) returns (r: Option<nat>)
      requires Valid()
      modifies this, names, kinds, sizes, parents, first, next, counts
      ensures Lookup(old(View()), old(shape), 0, Components(path)).Some? ==>
        r == Lookup(old(View()), old(shape), 0, Components(path))
      ensures Lookup(old(View()), old(shape), 0, Components(path)).Some? || !create || r.None? ==>
        Valid() && View() == old(View()) && shape == old(shape)
      ensures Lookup(old(View()), old(shape), 0, Components(path)).None? && r.Some? ==> (
        var name := FileOf(Clean(Clean(path)));
        var dir := Lookup(old(View()), old(shape), 0, Components(DirOf(Clean(Clean(path)))));
        && create && r.value < MAX_FILES && r == Slot(old(View()).kinds, old(nextIdx))
        && dir.Some? && dir.value < MAX_FILES && KidsInRange(old(shape))
        && (WellFormed(View()) <==>
          old(View()).kinds[r.value] == FREE && NewName(old(View()), old(shape).kids[dir.value], Cut(name)))
        && (WellFormed(View()) ==>
              && Valid() && Contents(View(), r.value) == [] && View().kinds[r.value] == FILE
              && AddsPath(old(View()), old(shape), View(), shape, dir.value, Cut(name), r.value)
              && NodesKept(old(View()), View(), r.value))
        && (WellFormed(View()) && |name| < MAX_NAME ==>
              && Lookup(View(), shape, 0, Components(path)) == r
              && Grows(old(View()), old(shape), View(), shape, Components(path))))
      ensures create && r.None? && Clean(Clean(path)) != [] ==> (
        var dir := Lookup(old(View()), old(shape), 0, Components(DirOf(Clean(Clean(path)))));
        || dir.None? || (dir.value < MAX_FILES && KidsInRange(shape) && (kinds[dir.value] != DIRECTORY
           || ChildNamed(View(), shape.kids[dir.value], FileOf(Clean(Clean(path)))).Some?
           || Slot(View().kinds, nextIdx).None?)))
    {
      hide Tree, ZeroTails, AddsPath, NodesKept, Grown, Made, WellFormed, Grows;
      ghost var s, g := View(), shape;
      TreeSized(s, g);
      var clean := Clean(path);
      CleanComponents(path);
      r := Resolve(clean);
      if r.None? && create {
        r := CreateFilePath(clean);
        if r.Some? && WellFormed(View()) && |FileOf(Clean(clean))| < MAX_NAME {
          assert Cut(FileOf(Clean(clean))) == FileOf(Clean(clean));
          OpenedIsNew(s, g, clean, Lookup(s, g, 0, Components(DirOf(Clean(clean)))).value, r.value, View(), shape);
        }
      }
    }

    /** The parent index of a node, -1 for the root. */
    method ParentOf(child: int) returns (p: int)
      requires Buffers()
      ensures p == if 0 <= child < MAX_FILES then parents[child] else -1
    {
      if child < 0 || child >= MAX_FILES {
        return -1;
      }
      p := parents[child];
    }

    /** Removes the node a path resolves to unless it is the root or a directory with children. */
    method Rmdir(path: Bytes) returns (r: Result<()>)
      requires Valid()
      modifies this, names, kinds, sizes, parents, first, next, counts, datas
      ensures Valid()
      ensures r == RemovalStatus(old(View()), Lookup(old(View()), old(shape), 0, Components(path)), NotEmpty)
      ensures r == Outcome(old(View()), old(shape), Components(path), NotEmpty)
      ensures r.Err? ==> View() == old(View()) && shape == old(shape)
      ensures r.Ok? ==> Unlinked(old(View()), old(shape), View(), shape, Components(path))
    {
      hide Tree, ZeroTails, DropsPath, NodesKept;
      ghost var s, g := View(), shape;
      TreeSized(s, g);
      RootLive(s, g);
      var child := Resolve(path);
      LookupLive(s, g, 0, Components(path));
      RemovalIs(s, g, Components(path), NotEmpty);
      RemovalIs(s, g, Components(path), NotFound);
      if child.None? {
        return Err(NotFound);
      }
      ParentLists(s, g, child.value);
      var parent := ParentOf(child.value);
      if parent < 0 {
        return Err(InvalidArgs);
      }
      var done := Remove(parent, child.value);
      if done {
        DropIsUnlink(s, g, View(), shape, Components(path));
      }
      return if done then Ok(()) else Err(NotEmpty);
    }

    /** The same for `unlink`, whose refusal has the code of a missing path. */
    method Unlink(path: Bytes) returns (r: Result<()>)
      requires Valid()
      modifies this, names, kinds, sizes, parents, first, next, counts, datas
      ensures Valid()
      ensures r == RemovalStatus(old(View()), Lookup(old(View()), old(shape), 0, Components(path)), NotFound)
      ensures r == Outcome(old(View()), old(shape), Components(path), NotFound)
      ensures r.Err? ==> View() == old(View()) && shape == old(shape)
      ensures r.Ok? ==> Unlinked(old(View()), old(shape), View(), shape, Components(path))
    {
      r := Rmdir(path);
      if r == Err(NotEmpty) {
        r := Err(NotFound);
      }
    }

    /** Reads from a file; yields the count, or nothing for a bad or free index. */
    method Read(idx: int, buf: array<nat>, offset: nat) returns (n: Option<nat>)
      requires Valid() && buf !in {kinds, sizes, counts}
      modifies buf
      ensures Valid() && View() == old(View())
      ensures n.None? <==> !(0 <= idx < MAX_FILES && Live(View(), idx))
      ensures n.Some? ==> (
        var bytes := Contents(View(), idx);
        && n.value == (if offset >= |bytes| then 0 else Min(buf.Length, |bytes| - offset))
        && (n.value > 0 ==> buf[..n.value] == bytes[offset..offset + n.value]))
      ensures buf[if n.Some? then n.value else 0..] == old(buf[..])[if n.Some? then n.value else 0..]
    {
      hide Tree, ZeroTails;
      ghost var s := View();
      if idx < 0 || idx >= MAX_FILES || kinds[idx] == FREE {
        return None;
      }
      FileBounds(s, shape, idx);
      var size := sizes[idx];
      if offset >= size {
        return Some(0);
      }
      var len := Min(buf.Length, size - offset);
      for k := 0 to len
        invariant View() == s && Valid()
        invariant forall j :: 0 <= j < k ==> buf[j] == s.datas[idx][offset + j]
        invariant forall j :: k <= j < buf.Length ==> buf[j] == old(buf[j])
      {
        buf[k] := datas[idx][offset + k];
      }
      PartOfContents(s, idx, offset, len);
      assert buf[..len] == s.datas[idx][offset..offset + len];
      return Some(len);
    }

    /** Writes to a file at an offset within its capacity, cut to what fits. */
    method Write(idx: int, data: Bytes, offset: nat) returns (n: Option<nat>)
      requires Valid() && offset <= FILE_SIZE
      modifies sizes, datas
      ensures Valid()
      ensures n == if 0 <= idx < MAX_FILES && old(kinds[idx]) == FILE then Some(Min(|data|, FILE_SIZE - offset))
        else None
      ensures n.None? ==> View() == old(View())
      ensures n.Some? ==> n.value <= |data| && NodesKept(old(View()), View(), idx)
      ensures n.Some? ==> Contents(View(), idx) == Overlay(old(Contents(View(), idx)), data[..n.value], offset)
      ensures forall cs: seq<Bytes> :: Lookup(View(), shape, 0, cs) == Lookup(old(View()), shape, 0, cs)
    {
      hide Tree, ZeroTails, NodesKept;
      ghost var s := View();
      if idx < 0 || idx >= MAX_FILES || kinds[idx] != FILE {
        return None;
      }
      FileBounds(s, shape, idx);
      var len := Min(|data|, FILE_SIZE - offset);
      StoredEffect(s, shape, idx, data[..len], offset);
      datas[idx] := datas[idx][..offset] + data[..len] + datas[idx][offset + len..];
      if offset + len > sizes[idx] {
        sizes[idx] := offset + len;
      }
      assert View() == Stored(s, idx, data[..len], offset);
      forall cs: seq<Bytes> ensures Lookup(View(), shape, 0, cs) == Lookup(s, shape, 0, cs) {
        LookupSame(s, View(), shape, 0, cs);
      }
      return Some(len);
    }
  }
}
