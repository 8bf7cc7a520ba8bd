/**
 * Handle tables (kernel/src/object/handle_table.rs): the slot array as a value, and
 * the array-backed table proved against it.
 */
module HandleTables {
  import opened Common

  const MAX_HANDLES: nat := 12

  datatype Kind = VmoKind | ChannelKind(chan: nat) | OtherKind

  /** A kernel object; `oid` tells apart the objects ever created. */
  datatype Obj = Obj(oid: nat, kind: Kind)

  datatype Slot = Slot(value: nat, rights: nat, obj: Obj)

  type Table = seq<Option<Slot>>

  /** First empty slot at or above `i`. */
  function FirstFree(t: Table, i: nat): (r: Option<nat>)
    ensures r.Some? ==> i <= r.value < |t| && t[r.value].None? && forall j :: i <= j < r.value ==> t[j].Some?
    ensures r.None? ==> forall j :: i <= j < |t| ==> t[j].Some?
    decreases |t| - i
  {
    if i >= |t| then None else if t[i].None? then Some(i) else FirstFree(t, i + 1)
  }

  predicate Names(t: Table, i: nat, hv: nat) {
    i < |t| && t[i].Some? && t[i].value.value == hv
  }

  /** First slot at or above `i` that holds the handle value `hv`. */
  function Find(t: Table, hv: nat, i: nat): (r: Option<nat>)
    ensures r.Some? ==> i <= r.value && Names(t, r.value, hv) && forall j :: i <= j < r.value ==> !Names(t, j, hv)
    ensures r.None? ==> forall j :: i <= j < |t| ==> !Names(t, j, hv)
    decreases |t| - i
  {
    if i >= |t| then None else if Names(t, i, hv) then Some(i) else Find(t, hv, i + 1)
  }

  /** The table after `add`; a full table stays as it is and the object is dropped by the caller. */
  function Added(t: Table, s: Slot): Table {
    var i := FirstFree(t, 0);
    if i.Some? then t[i.value := Some(s)] else t
  }

  /** The table after `remove_with_rights`. */
  function Removed(t: Table, hv: nat): Table {
    var i := Find(t, hv, 0);
    if i.Some? then t[i.value := None] else t
  }

  class HandleTable {
    const slots: array<Option<Slot>>

    ghost predicate Valid()
      reads this
    {
      slots.Length == MAX_HANDLES
    }

    constructor ()
      ensures Valid() && fresh(slots) && forall i :: 0 <= i < MAX_HANDLES ==> slots[i] == None
    {
      slots := new Option<Slot>[MAX_HANDLES](_ => None);
    }

    /** `add`, with the value drawn from the global handle counter. */
    method Add(obj: Obj, rights: nat, hv: nat) returns (r: Result<nat>)
      requires Valid()
      modifies slots
      ensures slots[..] == Added(old(slots[..]), Slot(hv, rights, obj))
      ensures r == if FirstFree(old(slots[..]), 0).Some? then Ok(hv) else Err(NoMemory)
    {
      for i := 0 to MAX_HANDLES
        invariant slots[..] == old(slots[..])
        invariant FirstFree(slots[..], 0) == FirstFree(slots[..], i)
      {
        if slots[i].None? {
          slots[i] := Some(Slot(hv, rights, obj));
          assert slots[..] == old(slots[..])[i := slots[i]];
          return Ok(hv);
        }
      }
      return Err(NoMemory);
    }

    /** `remove_with_rights`. */
    method RemoveWithRights(hv: nat) returns (r: Result<(Obj, nat)>)
      requires Valid()
      modifies slots
      ensures slots[..] == Removed(old(slots[..]), hv)
      ensures match Find(old(slots[..]), hv, 0)
        case None => r == Err(BadHandle)
        case Some(i) => r == Ok((old(slots[i]).value.obj, old(slots[i]).value.rights))
    {
      for i := 0 to MAX_HANDLES
        invariant slots[..] == old(slots[..])
        invariant Find(slots[..], hv, 0) == Find(slots[..], hv, i)
      {
        if slots[i].Some? && slots[i].value.value == hv {
          r := Ok((slots[i].value.obj, slots[i].value.rights));
          slots[i] := None;
          assert slots[..] == old(slots[..])[i := None];
          return;
        }
      }
      return Err(BadHandle);
    }

    /** `duplicate_handle` with no required rights: only memory objects can be copied. */
    method Duplicate(hv: nat, fresh_hv: nat) returns (r: Result<nat>)
      requires Valid()
      modifies slots
      ensures match Find(old(slots[..]), hv, 0)
        case None => r == Err(BadHandle) && slots[..] == old(slots[..])
        case Some(i) =>
          var s := old(slots[i]).value;
          if !s.obj.kind.VmoKind? then r == Err(NotAllowed) && slots[..] == old(slots[..])
          else && slots[..] == Added(old(slots[..]), Slot(fresh_hv, s.rights, s.obj))
               && r == if FirstFree(old(slots[..]), 0).Some? then Ok(fresh_hv) else Err(NoMemory)
    {
      var found: Option<nat> := None;
      var i := 0;
      while i < MAX_HANDLES && found.None?
        invariant 0 <= i <= MAX_HANDLES && slots[..] == old(slots[..])
        invariant found.None? ==> Find(slots[..], hv, 0) == Find(slots[..], hv, i)
        invariant found.Some? ==> Find(slots[..], hv, 0) == found
        decreases MAX_HANDLES - i, found.None?
      {
        if slots[i].Some? && slots[i].value.value == hv {
          found := Some(i);
        } else {
          i := i + 1;
        }
      }
      if found.None? {
        return Err(BadHandle);
      }
      var s := slots[found.value].value;
      if !s.obj.kind.VmoKind? {
        return Err(NotAllowed);
      }
      r := Add(s.obj, s.rights, fresh_hv);
    }
  }
}
