/**
 * Capability conservation over all runs (kernel/src/ipc/channel.rs:127-138, 220-240,
 * 263-295; kernel/src/object/handle_table.rs): an object other than a memory object
 * is held in at most one place, keeps its rights when it moves, and vanishes only
 * where the code drops it.
 */
module Capabilities {
  import opened Common
  import opened HandleTables
  import opened IpcRuns
  import opened Kernel
  import opened QuietSteps
  import S = SchedSpec

  /** A handle-table slot or a transfer slot of a thread. */
  datatype Place = InTable(table: nat, index: nat) | InSlot(tid: nat, slot: nat)

  function CapAt(k: State, p: Place): Option<Cap> {
    match p
    case InTable(t, i) =>
      if t in k.tables && i < |k.tables[t]| && k.tables[t][i].Some? then Some(CapOf(k.tables[t][i].value)) else None
    case InSlot(tid, j) =>
      if tid in k.ipc && j < |k.ipc[tid].slots| then k.ipc[tid].slots[j] else None
  }

  predicate Movable(c: Cap) {
    !c.obj.kind.VmoKind?
  }

  ghost predicate Holds(k: State, c: Cap) {
    exists p: Place :: CapAt(k, p) == Some(c)
  }

  /** No two places hold the same object unless it is a memory object. */
  ghost predicate Unique(k: State) {
    forall p: Place, q: Place ::
      (&& CapAt(k, p).Some? && CapAt(k, q).Some? && Movable(CapAt(k, p).value)
       && CapAt(k, p).value.obj.oid == CapAt(k, q).value.obj.oid) ==> p == q
  }

  ghost predicate Numbered(k: State) {
    && (forall p: Place :: CapAt(k, p).Some? ==> CapAt(k, p).value.obj.oid < k.nextOid)
    && (forall t: nat, i: nat :: t in k.tables && i < |k.tables[t]| && k.tables[t][i].Some? ==>
          k.tables[t][i].value.value < k.nextHandle)
  }

  ghost predicate CInv(k: State) {
    Unique(k) && Numbered(k)
  }

  /** The object of `c` is in transit: held nowhere, or a memory object held as such only. */
  ghost predicate Loose(k: State, c: Cap) {
    && c.obj.oid < k.nextOid
    && (forall p: Place :: CapAt(k, p).Some? && CapAt(k, p).value.obj.oid == c.obj.oid ==>
          !Movable(c) && !Movable(CapAt(k, p).value))
  }

  ghost predicate SameCaps(k: State, k': State) {
    forall p: Place :: CapAt(k', p) == CapAt(k, p)
  }

  ghost predicate PutAt(k: State, k': State, p: Place, c: Cap) {
    CapAt(k, p) == None && forall q: Place :: CapAt(k', q) == if q == p then Some(c) else CapAt(k, q)
  }

  ghost predicate TakenAt(k: State, k': State, p: Place) {
    CapAt(k, p).Some? && forall q: Place :: CapAt(k', q) == if q == p then None else CapAt(k, q)
  }

  /** Numbers only grow, and new slots carry numbers already issued. */
  ghost predicate NumbersOk(k: State, k': State) {
    Numbered(k) ==> Numbered(k') && k'.nextOid == k.nextOid && k'.nextHandle >= k.nextHandle
  }

  lemma PutKeeps(k: State, k': State, p: Place, c: Cap)
    requires CInv(k) && PutAt(k, k', p, c) && Loose(k, c) && NumbersOk(k, k')
    ensures CInv(k')
    ensures forall x: Cap :: Holds(k', x) <==> Holds(k, x) || x == c
  {
    forall x: Cap ensures Holds(k', x) <==> Holds(k, x) || x == c {
      if Holds(k, x) {
        var q: Place :| CapAt(k, q) == Some(x);
        assert CapAt(k', q) == Some(x);
      }
      if x == c {
        assert CapAt(k', p) == Some(x);
      }
      if Holds(k', x) {
        var q: Place :| CapAt(k', q) == Some(x);
        assert q != p ==> CapAt(k, q) == Some(x);
      }
    }
  }

  lemma TakeKeeps(k: State, k': State, p: Place)
    requires CInv(k) && TakenAt(k, k', p) && NumbersOk(k, k')
    ensures CInv(k')
    ensures Loose(k', CapAt(k, p).value)
    ensures forall x: Cap :: Movable(x) ==> (Holds(k', x) <==> Holds(k, x) && x != CapAt(k, p).value)
  {
    var c := CapAt(k, p).value;
    forall x: Cap | Movable(x) ensures Holds(k', x) <==> Holds(k, x) && x != c {
      if Holds(k, x) && x != c {
        var q: Place :| CapAt(k, q) == Some(x);
        assert CapAt(k', q) == Some(x);
      }
      if Holds(k', x) {
        var q: Place :| CapAt(k', q) == Some(x);
        assert CapAt(k, q) == Some(x);
      }
    }
  }

  lemma SameKeeps(k: State, k': State)
    requires CInv(k) && SameCaps(k, k') && NumbersOk(k, k')
    ensures CInv(k')
    ensures forall x: Cap :: Holds(k', x) <==> Holds(k, x)
    ensures forall c: Cap :: Loose(k, c) ==> Loose(k', c)
  {
    forall x: Cap ensures Holds(k', x) <==> Holds(k, x) {
      if Holds(k, x) {
        var q: Place :| CapAt(k, q) == Some(x);
        assert CapAt(k', q) == Some(x);
      }
      if Holds(k', x) {
        var q: Place :| CapAt(k', q) == Some(x);
        assert CapAt(k, q) == Some(x);
      }
    }
  }

  // ----- what each primitive does to the places -----

  lemma AddCapPlaces(k: State, t: nat, c: Cap)
    requires t in k.tables
    ensures var k' := AddCap(k, t, c);
      && (HasRoom(k, t) ==> PutAt(k, k', InTable(t, FirstFree(k.tables[t], 0).value), c))
      && (!HasRoom(k, t) ==> SameCaps(k, k'))
  {
  }

  lemma AddCapNumbers(k: State, t: nat, c: Cap)
    requires t in k.tables && c.obj.oid < k.nextOid
    ensures NumbersOk(k, AddCap(k, t, c))
  {
    var k' := AddCap(k, t, c);
    if Numbered(k) {
      AddCapPlaces(k, t, c);
    }
  }

  lemma RemovePlaces(k: State, t: nat, hv: nat)
    requires t in k.tables
    ensures var (k', c) := Remove(k, t, hv); var i := Find(k.tables[t], hv, 0);
      && (i.None? ==> c.None? && SameCaps(k, k'))
      && (i.Some? ==> TakenAt(k, k', InTable(t, i.value)) && c == CapAt(k, InTable(t, i.value)))
      && NumbersOk(k, k') && k'.nextHandle == k.nextHandle
  {
  }

  /** Removing the slot just added restores the table. */
  lemma {:induction false} AddThenRemove(k: State, t: nat, c: Cap)
    requires t in k.tables && Numbered(k) && HasRoom(k, t)
    ensures var k1 := AddCap(k, t, c);
      Remove(k1, t, k.nextHandle) == (k.(nextHandle := k.nextHandle + 1), Some(c))
  {
    var k1 := AddCap(k, t, c);
    var i := FirstFree(k.tables[t], 0).value;
    var f := Find(k1.tables[t], k.nextHandle, 0);
    assert Names(k1.tables[t], i, k.nextHandle);
    assert forall j: nat :: j < |k.tables[t]| && j != i ==> !Names(k1.tables[t], j, k.nextHandle);
    assert f == Some(i);
    assert k1.tables[t][i := None] == k.tables[t];
    assert k1.tables[t := k.tables[t]] == k.tables;
  }

  /**
   * Taking a handle out of a table: a memory object may be copied; anything else
   * leaves its place and is then held nowhere.
   */
  lemma TakeOutMoves(k: State, t: nat, hv: nat)
    requires CInv(k) && t in k.tables
    ensures var (k1, c) := TakeOut(k, t, hv);
      && CInv(k1) && k1.tables.Keys == k.tables.Keys && k1.ipc == k.ipc && k1.nextOid == k.nextOid
      && (c.Some? ==> Loose(k1, c.value) && Holds(k, c.value))
      && (forall x: Cap :: Movable(x) ==> (Holds(k1, x) <==> Holds(k, x) && c != Some(x)))
  {
    var i := Find(k.tables[t], hv, 0);
    RemovePlaces(k, t, hv);
    if i.None? {
    } else {
      var s := k.tables[t][i.value].value;
      assert CapAt(k, InTable(t, i.value)) == Some(CapOf(s));
      if !s.obj.kind.VmoKind? {
        TakeKeeps(k, Remove(k, t, hv).0, InTable(t, i.value));
      } else {
        TakeOutMemory(k, t, hv);
      }
    }
  }

  lemma TakeOutMemory(k: State, t: nat, hv: nat)
    requires CInv(k) && t in k.tables
    requires var i := Find(k.tables[t], hv, 0); i.Some? && k.tables[t][i.value].value.obj.kind.VmoKind?
    ensures var (k1, c) := TakeOut(k, t, hv);
      && CInv(k1) && c.Some? && !Movable(c.value) && Loose(k1, c.value)
      && (forall x: Cap :: Movable(x) ==> (Holds(k1, x) <==> Holds(k, x)))
  {
    var i := Find(k.tables[t], hv, 0).value;
    var c := CapOf(k.tables[t][i].value);
    assert CapAt(k, InTable(t, i)) == Some(c);
    if HasRoom(k, t) {
      AddThenRemove(k, t, c);
      var k1 := k.(nextHandle := k.nextHandle + 1);
      assert SameCaps(k, k1);
      SameKeeps(k, k1);
    } else {
      var k1 := AddCap(k, t, c);
      assert k1.tables == k.tables;
      AddCapPlaces(k, t, c);
      AddCapNumbers(k, t, c);
      SameKeeps(k, k1);
      RemovePlaces(k1, t, hv);
      assert CapAt(k1, InTable(t, i)) == Some(c);
      TakeKeeps(k1, Remove(k1, t, hv).0, InTable(t, i));
    }
  }

  lemma CloseSame(k: State, c: nat)
    ensures var k' := Close(k, c);
      k'.tables == k.tables && k'.ipc == k.ipc && k'.nextOid == k.nextOid && k'.nextHandle == k.nextHandle
  {
    if c in k.chans {
      CloseEndSame(k, c);
      var k1 := CloseEnd(k, c);
      var peer := k.chans[c].peer;
      if peer.Some? && peer.value in k1.chans {
        CloseEndSame(k1, peer.value);
      }
    }
  }

  lemma CloseEndSame(k: State, c: nat)
    requires c in k.chans
    ensures var k' := CloseEnd(k, c);
      k'.tables == k.tables && k'.ipc == k.ipc && k'.nextOid == k.nextOid && k'.nextHandle == k.nextHandle
  {
    WakeAllFrame(k.(chans := k.chans[c := ClosedEnd(k.chans[c])]), Interleave(k.chans[c].send, k.chans[c].recv));
  }

  /** Dropping an object in transit changes no place. */
  lemma DropSame(k: State, o: Obj)
    requires CInv(k)
    ensures CInv(Drop(k, o)) && forall x: Cap :: Holds(Drop(k, o), x) <==> Holds(k, x)
    ensures Drop(k, o).tables == k.tables && Drop(k, o).ipc == k.ipc && Drop(k, o).nextOid == k.nextOid
  {
    if o.kind.ChannelKind? {
      CloseSame(k, o.kind.chan);
    }
    SameKeeps(k, Drop(k, o));
  }

  /** Adding an object in transit succeeds exactly when the table has room; otherwise it is lost. */
  lemma GiveMoves(k: State, t: nat, c: Cap)
    requires CInv(k) && t in k.tables && Loose(k, c)
    ensures var k' := Give(k, t, c);
      && CInv(k') && k'.tables.Keys == k.tables.Keys && k'.ipc == k.ipc && k'.nextOid == k.nextOid
      && (forall x: Cap :: Movable(x) ==> (Holds(k', x) <==> Holds(k, x) || (x == c && HasRoom(k, t))))
  {
    var k1 := AddCap(k, t, c);
    AddCapPlaces(k, t, c);
    AddCapNumbers(k, t, c);
    if HasRoom(k, t) {
      PutKeeps(k, k1, InTable(t, FirstFree(k.tables[t], 0).value), c);
    } else {
      SameKeeps(k, k1);
      DropSame(k1, c.obj);
    }
  }

  // ----- transfers -----

  /** What one transfer loses: an object that leaves the sender for a table without room. */
  function LostInTransfer(k: State, from: nat, to: nat, hv: nat): set<Cap>
    requires from in k.tables && to in k.tables
  {
    var (k1, c) := TakeOut(k, from, hv);
    if c.Some? && Movable(c.value) && !HasRoom(k1, to) then {c.value} else {}
  }

  function LostInTransfers(k: State, from: nat, to: nat, hs: seq<nat>): set<Cap>
    decreases |hs|
  {
    if hs == [] || from !in k.tables || to !in k.tables then {}
    else LostInTransfer(k, from, to, hs[0]) + LostInTransfers(Transfer(k, from, to, hs[0]), from, to, hs[1..])
  }

  /** `k'` holds what `k` holds, with the same rights, except for what was lost. */
  ghost predicate HoldsAllBut(k: State, k': State, lost: set<Cap>) {
    && CInv(k') && k'.nextOid == k.nextOid
    && (forall x: Cap :: Movable(x) ==> (Holds(k', x) <==> Holds(k, x) && x !in lost))
    && (forall x: Cap :: x in lost ==> Holds(k, x))
  }

  lemma HoldsAllButTrans(a: State, b: State, c: State, lost: set<Cap>, more: set<Cap>)
    requires HoldsAllBut(a, b, lost) && HoldsAllBut(b, c, more) && (forall x :: x in more ==> Movable(x))
    ensures HoldsAllBut(a, c, lost + more)
  {
  }

  lemma TransferMoves(k: State, from: nat, to: nat, hv: nat)
    requires CInv(k) && from in k.tables && to in k.tables
    ensures var k' := Transfer(k, from, to, hv);
      && HoldsAllBut(k, k', LostInTransfer(k, from, to, hv)) && k'.tables.Keys == k.tables.Keys && k'.ipc == k.ipc
  {
    TakeOutMoves(k, from, hv);
    var (k1, c) := TakeOut(k, from, hv);
    if c.Some? {
      GiveMoves(k1, to, c.value);
    }
  }

  lemma {:induction false} TransferAllMoves(k: State, from: nat, to: nat, hs: seq<nat>)
    requires CInv(k)
    ensures HoldsAllBut(k, TransferAll(k, from, to, hs), LostInTransfers(k, from, to, hs))
    ensures forall x :: x in LostInTransfers(k, from, to, hs) ==> Movable(x)
    decreases |hs|
  {
    if hs == [] || from !in k.tables || to !in k.tables {
    } else {
      TransferMoves(k, from, to, hs[0]);
      var k1 := Transfer(k, from, to, hs[0]);
      TransferAllMoves(k1, from, to, hs[1..]);
      HoldsAllButTrans(k, k1, TransferAll(k, from, to, hs), LostInTransfer(k, from, to, hs[0]),
        LostInTransfers(k1, from, to, hs[1..]));
    }
  }

  // ----- transfer slots -----

  lemma SetSlotPlaces(k: State, tid: nat, j: nat, c: Option<Cap>)
    requires tid in k.ipc && j < |k.ipc[tid].slots|
    ensures var k' := SetSlot(k, tid, j, c);
      && (forall q: Place :: CapAt(k', q) == if q == InSlot(tid, j) then c else CapAt(k, q))
      && k'.tables == k.tables && k'.nextOid == k.nextOid && k'.nextHandle == k.nextHandle
  {
  }

  lemma EmptySlotKeeps(k: State, tid: nat, j: nat)
    requires CInv(k) && tid in k.ipc && j < |k.ipc[tid].slots| && k.ipc[tid].slots[j].Some?
    ensures var k', c := SetSlot(k, tid, j, None), k.ipc[tid].slots[j].value;
      && CInv(k') && Loose(k', c) && Holds(k, c)
      && (forall x: Cap :: Movable(x) ==> (Holds(k', x) <==> Holds(k, x) && x != c))
  {
    SetSlotPlaces(k, tid, j, None);
    assert CapAt(k, InSlot(tid, j)) == k.ipc[tid].slots[j];
    TakeKeeps(k, SetSlot(k, tid, j, None), InSlot(tid, j));
  }

  function InSlotJ(k: State, tid: nat, j: nat): set<Cap> {
    if tid in k.ipc && j < |k.ipc[tid].slots| && k.ipc[tid].slots[j].Some? && Movable(k.ipc[tid].slots[j].value)
    then {k.ipc[tid].slots[j].value} else {}
  }

  /** Clearing a stale transfer slot loses exactly what it held. */
  lemma ClearSlotLoses(k: State, tid: nat, j: nat)
    requires CInv(k)
    ensures var k' := ClearSlot(k, tid, j);
      && HoldsAllBut(k, k', InSlotJ(k, tid, j)) && k'.tables == k.tables && k'.ipc.Keys == k.ipc.Keys
      && (forall t :: t in k.ipc ==> k'.ipc[t].table == k.ipc[t].table && |k'.ipc[t].slots| == |k.ipc[t].slots|)
      && (forall t, i :: t in k.ipc && 0 <= i < |k.ipc[t].slots| ==>
            k'.ipc[t].slots[i] == if t == tid && i == j then None else k.ipc[t].slots[i])
  {
    if tid in k.ipc && j < |k.ipc[tid].slots| && k.ipc[tid].slots[j].Some? {
      EmptySlotKeeps(k, tid, j);
      DropSame(SetSlot(k, tid, j, None), k.ipc[tid].slots[j].value.obj);
    }
  }

  function StaleSlots(k: State, tid: nat): set<Cap> {
    InSlotJ(k, tid, 0) + InSlotJ(k, tid, 1)
  }

  lemma ClearSlotsLoses(k: State, tid: nat)
    requires CInv(k)
    ensures var k' := ClearSlots(k, tid);
      && HoldsAllBut(k, k', StaleSlots(k, tid)) && k'.tables == k.tables && k'.ipc.Keys == k.ipc.Keys
      && (tid in k.ipc ==> k'.ipc[tid].table == k.ipc[tid].table && |k'.ipc[tid].slots| == |k.ipc[tid].slots|)
      && (tid in k.ipc ==> forall i :: 0 <= i < 2 && i < |k.ipc[tid].slots| ==> k'.ipc[tid].slots[i].None?)
  {
    ClearSlotLoses(k, tid, 0);
    var k1 := ClearSlot(k, tid, 0);
    ClearSlotLoses(k1, tid, 1);
    HoldsAllButTrans(k, k1, ClearSlots(k, tid), InSlotJ(k, tid, 0), InSlotJ(k1, tid, 1));
  }

  /** Stashing into empty transfer slots loses nothing. */
  lemma {:induction false} StashMoves(k: State, tid: nat, t: nat, hs: seq<nat>, j: nat)
    requires CInv(k) && tid in k.ipc && j + |hs| <= |k.ipc[tid].slots|
    requires forall i :: j <= i < |k.ipc[tid].slots| ==> k.ipc[tid].slots[i].None?
    ensures HoldsAllBut(k, Stash(k, tid, t, hs, j), {})
    decreases |hs|
  {
    if hs == [] || t !in k.tables {
    } else {
      TakeOutMoves(k, t, hs[0]);
      var (k1, c) := TakeOut(k, t, hs[0]);
      if c.Some? {
        SetSlotPlaces(k1, tid, j, c);
        var k2 := SetSlot(k1, tid, j, c);
        assert CapAt(k1, InSlot(tid, j)) == None;
        PutKeeps(k1, k2, InSlot(tid, j), c.value);
        StashMoves(k2, tid, t, hs[1..], j + 1);
        HoldsAllButTrans(k, k2, Stash(k, tid, t, hs, j), {}, {});
      } else {
        StashMoves(k1, tid, t, hs[1..], j);
        HoldsAllButTrans(k, k1, Stash(k, tid, t, hs, j), {}, {});
      }
    }
  }

  /** What moving slot `j` of `from` into table `t` loses. */
  function LostInUnstash(k: State, from: nat, t: nat, j: nat): set<Cap> {
    if t in k.tables && !HasRoom(k, t) then InSlotJ(k, from, j) else {}
  }

  lemma UnstashMoves(k: State, from: nat, t: nat, j: nat)
    requires CInv(k)
    ensures HoldsAllBut(k, Unstash(k, from, t, j), LostInUnstash(k, from, t, j))
  {
    if from in k.ipc && j < |k.ipc[from].slots| && k.ipc[from].slots[j].Some? && t in k.tables {
      EmptySlotKeeps(k, from, j);
      GiveMoves(SetSlot(k, from, j, None), t, k.ipc[from].slots[j].value);
    }
  }

  function LostInUnstashAll(k: State, from: nat, t: nat): set<Cap> {
    LostInUnstash(k, from, t, 0) + LostInUnstash(Unstash(k, from, t, 0), from, t, 1)
  }

  lemma UnstashAllMoves(k: State, from: nat, t: nat)
    requires CInv(k)
    ensures HoldsAllBut(k, UnstashAll(k, from, t), LostInUnstashAll(k, from, t))
  {
    UnstashMoves(k, from, t, 0);
    UnstashMoves(Unstash(k, from, t, 0), from, t, 1);
    HoldsAllButTrans(k, Unstash(k, from, t, 0), UnstashAll(k, from, t),
                     LostInUnstash(k, from, t, 0), LostInUnstash(Unstash(k, from, t, 0), from, t, 1));
  }
}
