/**
 * The waiter arrays of a channel end (kernel/src/ipc/channel.rs:56-104): eight
 * optional thread ids kept gap-free, so that they are a FIFO sequence.
 */
module WaiterArray {
  import opened Common

  const MAX_WAITERS: nat := 8

  /** No thread id stands behind an empty slot. */
  predicate GapFree(a: seq<Option<nat>>) {
    forall i, j :: 0 <= i < j < |a| && a[j].Some? ==> a[i].Some?
  }

  /** The ids before the first empty slot. */
  function Ids(a: seq<Option<nat>>): (r: seq<nat>)
    ensures |r| <= |a| && forall i :: 0 <= i < |r| ==> a[i] == Some(r[i])
    ensures |r| < |a| ==> a[|r|].None?
  {
    if a == [] || a[0].None? then [] else [a[0].value] + Ids(a[1..])
  }

  /** Arrays that agree are read the same way. */
  lemma {:induction false} IdsAre(a: seq<Option<nat>>, ids: seq<nat>)
    requires |ids| <= |a| && (forall i :: 0 <= i < |ids| ==> a[i] == Some(ids[i])) && (|ids| < |a| ==> a[|ids|].None?)
    ensures Ids(a) == ids
  {
    if ids != [] {
      IdsAre(a[1..], ids[1..]);
    }
  }

  class Waiters {
    const slots: array<Option<nat>>

    ghost predicate Valid()
      reads this, slots
    {
      slots.Length == MAX_WAITERS && GapFree(slots[..])
    }

    constructor ()
      ensures Valid() && Ids(slots[..]) == [] && fresh(slots)
    {
      slots := new Option<nat>[MAX_WAITERS](_ => None);
    }

    /** `push_sender` and `push_receiver`: at the back, or refused when full. */
    method Push(tid: nat) returns (ok: bool)
      requires Valid()
      modifies slots
      ensures Valid()
      ensures ok <==> |Ids(old(slots[..]))| < MAX_WAITERS
      ensures Ids(slots[..]) == if ok then Ids(old(slots[..])) + [tid] else Ids(old(slots[..]))
    {
      ghost var before := slots[..];
      for i := 0 to MAX_WAITERS
        invariant slots[..] == before && i <= |Ids(before)|
      {
        if slots[i].None? {
          slots[i] := Some(tid);
          assert |Ids(before)| == i;
          assert forall j :: i < j < MAX_WAITERS ==> before[j].None?;
          IdsAre(slots[..], Ids(before) + [tid]);
          return true;
        }
      }
      return false;
    }

    /** `pop_sender` and `pop_receiver`: from the front, shifting the rest left. */
    method Pop() returns (r: Option<nat>)
      requires Valid()
      modifies slots
      ensures Valid()
      ensures Ids(old(slots[..])) == [] ==> r == None && Ids(slots[..]) == []
      ensures Ids(old(slots[..])) != [] ==>
        r == Some(Ids(old(slots[..]))[0]) && Ids(slots[..]) == Ids(old(slots[..]))[1..]
    {
      ghost var before := slots[..];
      for i := 0 to MAX_WAITERS
        invariant slots[..] == before
        invariant i > 0 ==> before[0].None?
      {
        if slots[i].Some? {
          r := slots[i];
          slots[i] := None;
          for j := i to MAX_WAITERS - 1
            invariant forall m :: i <= m < j ==> slots[m] == before[m + 1]
            invariant forall m :: j < m < MAX_WAITERS ==> slots[m] == before[m]
          {
            slots[j] := slots[j + 1];
          }
          slots[MAX_WAITERS - 1] := None;
          IdsAre(slots[..], Ids(before)[1..]);
          return;
        }
      }
      return None;
    }
  }
}
