/** Address-region allocation (kernel/src/memory/vmar.rs): first fit among children and mappings. */
module Vmar {
  import opened Common
  import opened Arith
  import opened Phys

  const MAX_CHILDREN: nat := 32
  const MAX_MAPPINGS: nat := 32

  datatype Region = Region(base: nat, size: nat)

  function PageUp(x: nat): (r: nat)
    ensures x <= r < x + PAGE_SIZE && r % PAGE_SIZE == 0
  {
    (x + PAGE_SIZE - 1) / PAGE_SIZE * PAGE_SIZE
  }

  /** A block of `size` at `at` would touch the region. */
  predicate Touches(at: nat, size: nat, r: Region) {
    at < r.base + r.size && at + size > r.base
  }

  predicate Clear(at: nat, size: nat, list: seq<Region>) {
    forall i :: 0 <= i < |list| ==> !Touches(at, size, list[i])
  }

  /** Page-aligned, inside `room`, and touching nothing. */
  predicate Fits(at: nat, size: nat, room: Region, children: seq<Region>, mappings: seq<Region>) {
    && at % PAGE_SIZE == 0 && room.base <= at && at + size <= room.base + room.size
    && Clear(at, size, children) && Clear(at, size, mappings)
  }

  ghost predicate NoneBelow(limit: nat, size: nat, room: Region, children: seq<Region>, mappings: seq<Region>) {
    forall at: nat :: at < limit ==> !Fits(at, size, room, children, mappings)
  }

  /** Every aligned address from a touching one up to the end of the region touches it too. */
  lemma SkippedTouch(at: nat, size: nat, r: Region, other: nat)
    requires Touches(at, size, r) && at <= other < PageUp(r.base + r.size) && other % PAGE_SIZE == 0
    ensures Touches(other, size, r)
  {
    var end := PageUp(r.base + r.size);
    assert other + PAGE_SIZE <= end by {
      var q, p := other / PAGE_SIZE, end / PAGE_SIZE;
      assert other == q * PAGE_SIZE && end == p * PAGE_SIZE;
    }
  }

  lemma SkipKeepsNone(at: nat, size: nat, room: Region, children: seq<Region>, mappings: seq<Region>,
    list: seq<Region>, i: nat)
    requires NoneBelow(at, size, room, children, mappings) && (list == children || list == mappings)
    requires i < |list| && Touches(at, size, list[i])
    ensures at < PageUp(list[i].base + list[i].size)
    ensures NoneBelow(PageUp(list[i].base + list[i].size), size, room, children, mappings)
  {
    var next := PageUp(list[i].base + list[i].size);
    forall other: nat | other < next ensures !Fits(other, size, room, children, mappings) {
      if at <= other && other % PAGE_SIZE == 0 {
        SkippedTouch(at, size, list[i], other);
      }
    }
  }

  /** The children lie inside the region and apart from each other. */
  ghost predicate ChildrenApart(room: Region, children: seq<Region>) {
    && (forall i :: 0 <= i < |children| ==>
      room.base <= children[i].base && children[i].base + children[i].size <= room.base + room.size)
    && (forall i, j :: 0 <= i < j < |children| ==> !Touches(children[j].base, children[j].size, children[i]))
  }

  /** The allocator has no free frame above its cursor. */
  ghost predicate NoFrameLeft<P>(mem: PhysMemory<P>)
    reads mem
  {
    mem.cursor == 0 || forall pa :: pa in mem.tags && mem.cursor <= pa < mem.end ==> mem.tags[pa] != Free
  }

  /** The frame `pa` was free and now holds region metadata; no other tag changed. */
  ghost predicate MetaTaken(tags: map<nat, PageTag>, pa: nat, tags': map<nat, PageTag>) {
    pa in tags && tags[pa] == Free && tags' == tags[pa := VmarMeta]
  }

  lemma RoundedTwice(x: nat)
    ensures PageUp(PageUp(x)) == PageUp(x)
  {
  }

  /** An empty region of whole pages, with a metadata page of its own. */
  method Create<P(==)>(mem: PhysMemory<P>, base: nat, size: nat) returns (r: Result<Vmar>)
    requires mem.Valid()
    modifies mem
    ensures mem.Valid()
    ensures base % PAGE_SIZE != 0 || size == 0 <==> r == Err(InvalidArgs)
    ensures r.Err? ==> r.error in {InvalidArgs, NoMemory} && mem.tags == old(mem.tags)
    ensures r == Err(NoMemory) ==> old(NoFrameLeft(mem))
    ensures r.Ok? ==> fresh(r.value) && r.value.Valid() && r.value.room == Region(base, PageUp(size))
    ensures r.Ok? ==> r.value.children == [] && r.value.mappings == []
    ensures r.Ok? ==> MetaTaken(old(mem.tags), r.value.meta, mem.tags)
  {
    if base % PAGE_SIZE != 0 || size == 0 {
      return Err(InvalidArgs);
    }
    var meta := mem.AllocPage(VmarMeta);
    if meta.Err? {
      return Err(meta.error);
    }
    var v := new Vmar(base, PageUp(size), meta.value);
    return Ok(v);
  }

  class Vmar {
    const room: Region
    const meta: nat
    var children: seq<Region>
    var mappings: seq<Region>

    ghost predicate Valid()
      reads this
    {
      room.base % PAGE_SIZE == 0 && |children| <= MAX_CHILDREN && |mappings| <= MAX_MAPPINGS
        && ChildrenApart(room, children)
    }

    constructor (base: nat, size: nat, meta: nat)
      requires base % PAGE_SIZE == 0
      ensures Valid() && room == Region(base, size) && this.meta == meta && children == [] && mappings == []
    {
      room := Region(base, size);
      this.meta := meta;
      children, mappings := [], [];
    }

    /** First region of the list in the way. */
    method FirstTouched(list: seq<Region>, at: nat, size: nat) returns (k: Option<nat>)
      ensures k.None? <==> Clear(at, size, list)
      ensures k.Some? ==> k.value < |list| && Touches(at, size, list[k.value])
    {
      for i := 0 to |list|
        invariant Clear(at, size, list[..i])
      {
        if at < list[i].base + list[i].size && at + size > list[i].base {
          return Some(i);
        }
      }
      assert list[..|list|] == list;
      return None;
    }

    /** The lowest address where the block fits, or none if there is no such address. */
    method Search(size: nat) returns (r: Option<nat>)
      requires Valid()
      ensures r.Some? ==>
        Fits(r.value, size, room, children, mappings) && NoneBelow(r.value, size, room, children, mappings)
      ensures r.None? ==> forall at: nat :: !Fits(at, size, room, children, mappings)
    {
      var candidate := room.base;
      while true
        invariant candidate % PAGE_SIZE == 0 && room.base <= candidate
        invariant NoneBelow(candidate, size, room, children, mappings)
        decreases room.base + room.size - candidate
      {
        if candidate + size > room.base + room.size {
          return None;
        }
        var c := FirstTouched(children, candidate, size);
        if c.Some? {
          SkipKeepsNone(candidate, size, room, children, mappings, children, c.value);
          candidate := PageUp(children[c.value].base + children[c.value].size);
          continue;
        }
        var m := FirstTouched(mappings, candidate, size);
        if m.Some? {
          SkipKeepsNone(candidate, size, room, children, mappings, mappings, m.value);
          candidate := PageUp(mappings[m.value].base + mappings[m.value].size);
          continue;
        }
        return Some(candidate);
      }
    }

    /** Allocates a child region; with fewer than 32 children it fails only when nothing fits or no frame is left. */
    method AllocateSubregion<P(==)>(mem: PhysMemory<P>, size: nat) returns (r: Result<Vmar>)
      requires Valid() && mem.Valid()
      modifies this`children, mem
      ensures Valid() && mem.Valid()
      ensures size == 0 <==> r == Err(InvalidArgs)
      ensures r.Err? ==> children == old(children) && r.error in {InvalidArgs, NoMemory} && mem.tags == old(mem.tags)
      ensures r == Err(NoMemory) && |children| < MAX_CHILDREN ==>
        || (forall at: nat :: !Fits(at, PageUp(size), room, children, mappings))
        || old(NoFrameLeft(mem))
      ensures r.Ok? ==> fresh(r.value) && r.value.Valid() && r.value.room.size == PageUp(size)
      ensures r.Ok? ==> children == old(children) + [r.value.room]
      ensures r.Ok? ==> Fits(r.value.room.base, PageUp(size), room, old(children), mappings)
      ensures r.Ok? ==> NoneBelow(r.value.room.base, PageUp(size), room, old(children), mappings)
      ensures r.Ok? ==> MetaTaken(old(mem.tags), r.value.meta, mem.tags)
    {
      if size == 0 {
        return Err(InvalidArgs);
      }
      var rounded := PageUp(size);
      if |children| >= MAX_CHILDREN {
        return Err(NoMemory);
      }
      var at := Search(rounded);
      if at.None? {
        return Err(NoMemory);
      }
      RoundedTwice(size);
      r := Create(mem, at.value, rounded);
      if r.Ok? {
        children := children + [r.value.room];
      }
    }

    /** Records a mapping; overlaps with children or other mappings are not looked for. */
    method ReserveMapping(vmoOffset: nat, at: nat, size: nat) returns (r: Result<()>)
      requires Valid()
      modifies this`mappings
      ensures Valid()
      ensures r == Err(InvalidArgs) <==> (size == 0 || at % PAGE_SIZE != 0 || vmoOffset % PAGE_SIZE != 0
                                          || at < room.base || at + size > room.base + room.size)
      ensures r.Err? ==> mappings == old(mappings) && r.error in {InvalidArgs, NoMemory}
      ensures r == Err(NoMemory) ==> |mappings| == MAX_MAPPINGS
      ensures r.Ok? ==> mappings == old(mappings) + [Region(at, size)]
    {
      if size == 0 || at % PAGE_SIZE != 0 || vmoOffset % PAGE_SIZE != 0 {
        return Err(InvalidArgs);
      }
      if at < room.base || at + size > room.base + room.size {
        return Err(InvalidArgs);
      }
      if |mappings| >= MAX_MAPPINGS {
        return Err(NoMemory);
      }
      mappings := mappings + [Region(at, size)];
      return Ok(());
    }
  }
}
