/** What every kernel step does to the capabilities, and conservation over whole runs. */
module CapRuns {
  import opened Capabilities
  import opened Common
  import opened HandleTables
  import opened IpcRuns
  import opened Kernel
  import S = SchedSpec
  import W = WaiterArray

  /** Tables, slots and counters agree. */
  ghost predicate CapsSame(k: State, k': State) {
    && k'.tables == k.tables && k'.nextOid == k.nextOid && k'.nextHandle == k.nextHandle
    && k'.ipc.Keys == k.ipc.Keys && (forall t :: t in k.ipc ==>
      k'.ipc[t].slots == k.ipc[t].slots && k'.ipc[t].table == k.ipc[t].table)
  }

  lemma CapsSameKeeps(k: State, k': State)
    requires CInv(k) && CapsSame(k, k')
    ensures HoldsAllBut(k, k', {})
  {
    SameKeeps(k, k');
  }

  // ----- the restored write -----

  /** Number of empty slots of a table. */
  ghost function Room(t: Table): nat {
    if t == [] then 0 else (if t[0].None? then 1 else 0) + Room(t[1..])
  }

  lemma {:induction false} RoomOfUpdate(t: Table, i: nat, s: Option<Slot>)
    requires i < |t|
    ensures Room(t[i := s]) == Room(t) - (if t[i].None? then 1 else 0) + (if s.None? then 1 else 0)
  {
    if i > 0 {
      RoomOfUpdate(t[1..], i - 1, s);
      assert t[i := s][1..] == t[1..][i - 1 := s];
    } else {
      assert t[0 := s][1..] == t[1..];
    }
  }

  lemma {:induction false} RoomIff(t: Table, i: nat)
    requires i <= |t|
    ensures Room(t[i..]) > 0 <==> FirstFree(t, i).Some?
    decreases |t| - i
  {
    if i < |t| {
      assert t[i..][1..] == t[i + 1..];
      RoomIff(t, i + 1);
    }
  }

  lemma HasRoomIff(k: State, t: nat)
    requires t in k.tables
    ensures HasRoom(k, t) <==> Room(k.tables[t]) > 0
  {
    assert k.tables[t][0..] == k.tables[t];
    RoomIff(k.tables[t], 0);
  }

  /** Taking a handle out leaves room, one slot more than before if an object left. */
  lemma TakeOutRoom(k: State, t: nat, hv: nat)
    requires Numbered(k) && t in k.tables && TakeOut(k, t, hv).1.Some?
    ensures var (k1, c) := TakeOut(k, t, hv);
      && t in k1.tables && Room(k1.tables[t]) >= 1 && Room(k1.tables[t]) >= Room(k.tables[t])
      && (Movable(c.value) ==> Room(k1.tables[t]) == Room(k.tables[t]) + 1)
      && k1.ipc == k.ipc
  {
    var i := Find(k.tables[t], hv, 0).value;
    var s := k.tables[t][i].value;
    HasRoomIff(k, t);
    RoomOfUpdate(k.tables[t], i, None);
    if s.obj.kind.VmoKind? && HasRoom(k, t) {
      AddThenRemove(k, t, CapOf(s));
    }
  }

  /** Only an unknown handle yields nothing. */
  lemma TakeOutNothing(k: State, t: nat, hv: nat)
    requires Numbered(k) && t in k.tables && TakeOut(k, t, hv).1.None?
    ensures TakeOut(k, t, hv).0 == k
  {
    var f := Find(k.tables[t], hv, 0);
    if f.Some? {
      var s := k.tables[t][f.value].value;
      if s.obj.kind.VmoKind? && HasRoom(k, t) {
        AddThenRemove(k, t, CapOf(s));
      }
    }
  }

  lemma GiveRoom(k: State, t: nat, c: Cap)
    requires t in k.tables
    ensures t in Give(k, t, c).tables && Room(Give(k, t, c).tables[t]) >= Room(k.tables[t]) - 1
  {
    HasRoomIff(k, t);
    if HasRoom(k, t) {
      RoomOfUpdate(k.tables[t], FirstFree(k.tables[t], 0).value, Some(Slot(k.nextHandle, c.rights, c.obj)));
    } else if c.obj.kind.ChannelKind? {
      CloseSame(AddCap(k, t, c), c.obj.kind.chan);
    }
  }

  /** Enough room is left to put every stashed object back, slot 0 first. */
  ghost predicate CanRestore(k: State, tid: nat, t: nat)
    requires tid in k.ipc && t in k.tables
  {
    var s, room := k.ipc[tid].slots, Room(k.tables[t]);
    && (s[0].Some? && Movable(s[0].value) ==> room >= 1)
    && (s[1].Some? && Movable(s[1].value) ==> room >= (if s[0].Some? then 2 else 1))
  }

  lemma StashLeavesRoom(k: State, tid: nat, t: nat, hs: seq<nat>)
    requires CInv(k) && tid in k.ipc && t in k.tables && |hs| <= 2
    requires k.ipc[tid].slots[0].None? && k.ipc[tid].slots[1].None?
    ensures var k' := Stash(k, tid, t, hs, 0);
      && tid in k'.ipc && t in k'.tables && CanRestore(k', tid, t)
  {
    if hs != [] {
      TakeOutMoves(k, t, hs[0]);
      var (k1, c) := TakeOut(k, t, hs[0]);
      if c.Some? {
        TakeOutRoom(k, t, hs[0]);
        var k2 := SetSlot(k1, tid, 0, c);
        SetSlotPlaces(k1, tid, 0, c);
        assert CapAt(k1, InSlot(tid, 0)) == None;
        PutKeeps(k1, k2, InSlot(tid, 0), c.value);
        StashSecond(k2, tid, t, hs[1..], 1);
      } else {
        StashSecond(k1, tid, t, hs[1..], 0);
      }
    }
  }

  /** The second handle goes to slot `j`. */
  lemma StashSecond(k: State, tid: nat, t: nat, hs: seq<nat>, j: nat)
    requires Numbered(k) && tid in k.ipc && t in k.tables && |hs| <= 1 && j <= 1
    requires k.ipc[tid].slots[1].None? && (j == 0 ==> k.ipc[tid].slots[0].None?)
    requires j == 1 ==> k.ipc[tid].slots[0].Some? && Room(k.tables[t]) >= 1
    ensures var k' := Stash(k, tid, t, hs, j);
      && tid in k'.ipc && t in k'.tables && CanRestore(k', tid, t)
  {
    if hs != [] {
      var (k1, c) := TakeOut(k, t, hs[0]);
      if c.Some? {
        TakeOutRoom(k, t, hs[0]);
        assert Stash(SetSlot(k1, tid, j, c), tid, t, hs[1..], j + 1) == SetSlot(k1, tid, j, c);
      } else {
        TakeOutNothing(k, t, hs[0]);
        assert Stash(k1, tid, t, hs[1..], j) == k1;
      }
    }
  }

  /** A write refused for lack of a waiter slot gives every stashed object back. */
  lemma RestoreLosesNothing(k: State, tid: nat, t: nat)
    requires tid in k.ipc && t in k.tables && CanRestore(k, tid, t)
    ensures LostInUnstashAll(k, tid, t) == {}
  {
    HasRoomIff(k, t);
    var k1 := Unstash(k, tid, t, 0);
    if k.ipc[tid].slots[0].Some? {
      var c := k.ipc[tid].slots[0].value;
      var k0 := SetSlot(k, tid, 0, None);
      GiveRoom(k0, t, c);
      GiveFrame(k0, t, c);
      HasRoomIff(k1, t);
    }
  }

  lemma GiveFrame(k: State, t: nat, c: Cap)
    requires t in k.tables
    ensures Give(k, t, c).ipc == k.ipc
  {
    if !HasRoom(k, t) && c.obj.kind.ChannelKind? {
      CloseSame(AddCap(k, t, c), c.obj.kind.chan);
    }
  }

  // ----- whole steps -----

  /** What a write loses: stale transfer slots when it blocks, else objects its receiver has no room for. */
  function LostInWrite(k: State, c: nat, data: Bytes, hs: seq<nat>): set<Cap>
    requires c in k.chans
  {
    var w := CurTid(k);
    if !k.chans[c].open || w.None? || w.value !in k.ipc || k.chans[c].peer.None?
      || k.chans[c].peer.value !in k.chans then {}
    else
      var p := k.chans[c].peer.value;
      if k.chans[p].recv == [] || k.chans[p].recv[0] !in k.ipc then StaleSlots(k, w.value)
      else
        var r, k1 := k.chans[p].recv[0], HandOver(k, c, p, w.value, data);
        if k1.ipc[w.value].table.Some? && k1.ipc[r].table.Some?
        then LostInTransfers(k1, k1.ipc[w.value].table.value, k1.ipc[r].table.value, FirstTwo(hs)) else {}
  }

  lemma WriteBlockingCaps(k: State, c: nat, w: nat, data: Bytes, hs: seq<nat>)
    requires CInv(k) && w in k.ipc
    ensures HoldsAllBut(k, WriteBlocking(k, c, w, data, hs).0, StaleSlots(k, w))
  {
    hide CInv, Stash, ClearSlots, UnstashAll, CanRestore, Numbered, Unique, LostInUnstashAll;
    var k0 := SetCurState(SetIpc(k, w, data, 0), S.Blocked);
    CapsSameKeeps(k, k0);
    ClearSlotsLoses(k0, w);
    var k1 := ClearSlots(k0, w);
    HoldsAllButTrans(k, k0, k1, {}, StaleSlots(k0, w));
    assert {} + StaleSlots(k0, w) == StaleSlots(k, w);
    if k1.ipc[w].table.Some? && k1.ipc[w].table.value in k1.tables {
      StashAndRestore(k, k1, c, w, data, hs);
    } else {
      BlockingWithoutTable(k, k1, c, w, data, hs);
    }
  }

  lemma StashAndRestore(k: State, k1: State, c: nat, w: nat, data: Bytes, hs: seq<nat>)
    requires w in k.ipc && k1 == ClearSlots(SetCurState(SetIpc(k, w, data, 0), S.Blocked), w)
    requires HoldsAllBut(k, k1, StaleSlots(k, w)) && w in k1.ipc
    requires k1.ipc[w].slots[0].None? && k1.ipc[w].slots[1].None?
    requires k1.ipc[w].table.Some? && k1.ipc[w].table.value in k1.tables
    ensures HoldsAllBut(k, WriteBlocking(k, c, w, data, hs).0, StaleSlots(k, w))
  {
    hide CInv, Stash, ClearSlots, UnstashAll, CanRestore, Numbered, Unique, LostInUnstashAll, StaleSlots;
    var t := k1.ipc[w].table.value;
    var k2 := Stash(k1, w, t, FirstTwo(hs), 0);
    StashMoves(k1, w, t, FirstTwo(hs), 0);
    StashLeavesRoom(k1, w, t, FirstTwo(hs));
    StashTable(k1, w, t, FirstTwo(hs), 0);
    HoldsAllButTrans(k, k1, k2, StaleSlots(k, w), {});
    var k' := WriteBlocking(k, c, w, data, hs).0;
    if c in k2.chans && |k2.chans[c].send| < W.MAX_WAITERS {
      CapsSameKeeps(k2, k');
      HoldsAllButTrans(k, k2, k', StaleSlots(k, w), {});
    } else {
      var k3 := UnstashAll(k2, w, t);
      UnstashAllMoves(k2, w, t);
      RestoreLosesNothing(k2, w, t);
      HoldsAllButTrans(k, k2, k3, StaleSlots(k, w), {});
      CapsSameKeeps(k3, k');
      HoldsAllButTrans(k, k3, k', StaleSlots(k, w), {});
    }
    assert StaleSlots(k, w) + {} == StaleSlots(k, w);
  }

  lemma {:induction false} StashTable(k: State, tid: nat, t: nat, hs: seq<nat>, j: nat)
    ensures var k' := Stash(k, tid, t, hs, j);
      tid in k.ipc ==> tid in k'.ipc && k'.ipc[tid].table == k.ipc[tid].table
    decreases |hs|
  {
    QuietSteps.StashCapsOnly(k, tid, t, hs, j);
  }

  lemma BlockingWithoutTable(k: State, k1: State, c: nat, w: nat, data: Bytes, hs: seq<nat>)
    requires w in k.ipc && k1 == ClearSlots(SetCurState(SetIpc(k, w, data, 0), S.Blocked), w)
    requires HoldsAllBut(k, k1, StaleSlots(k, w)) && w in k1.ipc
    requires k1.ipc[w].table.None? || k1.ipc[w].table.value !in k1.tables
    ensures HoldsAllBut(k, WriteBlocking(k, c, w, data, hs).0, StaleSlots(k, w))
  {
    hide CInv, ClearSlots, Numbered, Unique, StaleSlots;
    var k' := WriteBlocking(k, c, w, data, hs).0;
    CapsSameKeeps(k1, k');
    HoldsAllButTrans(k, k1, k', StaleSlots(k, w), {});
    assert StaleSlots(k, w) + {} == StaleSlots(k, w);
  }

  /** A write keeps every capability it does not lose where the source drops it. */
  lemma WriteCaps(k: State, c: nat, data: Bytes, hs: seq<nat>)
    requires CInv(k) && c in k.chans
    ensures HoldsAllBut(k, Write(k, c, data, hs).0, LostInWrite(k, c, data, hs))
  {
    hide CInv, WriteBlocking, TransferAll, LostInTransfers, Numbered, Unique;
    var w := CurTid(k);
    if !k.chans[c].open || w.None? || w.value !in k.ipc || k.chans[c].peer.None? || k.chans[c].peer.value !in k.chans {
      CapsSameKeeps(k, k);
    } else {
      var p := k.chans[c].peer.value;
      if k.chans[p].recv == [] {
        WriteBlockingCaps(k, c, w.value, data, hs);
      } else if k.chans[p].recv[0] !in k.ipc {
        var k0 := SetChan(k, p, k.chans[p].(recv := k.chans[p].recv[1..]));
        CapsSameKeeps(k, k0);
        WriteBlockingCaps(k0, c, w.value, data, hs);
        HoldsAllButTrans(k, k0, WriteBlocking(k0, c, w.value, data, hs).0, {}, StaleSlots(k0, w.value));
        assert {} + StaleSlots(k0, w.value) == StaleSlots(k, w.value);
      } else {
        WriteDirectCaps(k, c, p, w.value, data, hs);
      }
    }
  }

  lemma WriteDirectCaps(k: State, c: nat, p: nat, w: nat, data: Bytes, hs: seq<nat>)
    requires CInv(k) && c in k.chans && p in k.chans && k.chans[p].recv != [] && k.chans[p].recv[0] in k.ipc
      && w in k.ipc
    ensures var r, k1 := k.chans[p].recv[0], HandOver(k, c, p, w, data);
      var lost := if k1.ipc[w].table.Some? && k1.ipc[r].table.Some?
        then LostInTransfers(k1, k1.ipc[w].table.value, k1.ipc[r].table.value, FirstTwo(hs)) else {};
      HoldsAllBut(k, Wake(DeliverHandles(k1, w, r, hs), r), lost)
  {
    hide CInv, TransferAll, LostInTransfers, Numbered, Unique;
    var r, k1 := k.chans[p].recv[0], HandOver(k, c, p, w, data);
    CapsSameKeeps(k, k1);
    var lost := if k1.ipc[w].table.Some? && k1.ipc[r].table.Some?
      then LostInTransfers(k1, k1.ipc[w].table.value, k1.ipc[r].table.value, FirstTwo(hs)) else {};
    var k2 := DeliverHandles(k1, w, r, hs);
    if k1.ipc[w].table.Some? && k1.ipc[r].table.Some? {
      TransferAllMoves(k1, k1.ipc[w].table.value, k1.ipc[r].table.value, FirstTwo(hs));
    } else {
      CapsSameKeeps(k1, k2);
    }
    HoldsAllButTrans(k, k1, k2, {}, lost);
    CapsSameKeeps(k2, Wake(k2, r));
    HoldsAllButTrans(k, k2, Wake(k2, r), {} + lost, {});
    assert {} + lost + {} == lost;
  }

  function LostInRead(k: State, c: nat, buf: Bytes): set<Cap>
    requires c in k.chans
  {
    var r := CurTid(k);
    if !k.chans[c].open || r.None? || r.value !in k.ipc || k.chans[c].peer.None?
      || k.chans[c].peer.value !in k.chans then {}
    else
      var p := k.chans[c].peer.value;
      if k.chans[p].send == [] || k.chans[p].send[0] !in k.ipc then {}
      else
        var s, k1 := k.chans[p].send[0], PickUp(k, c, p, r.value, |buf|);
        if k1.ipc[r.value].table.Some? then LostInUnstashAll(k1, s, k1.ipc[r.value].table.value) else {}
  }

  /** A read keeps every capability the reader's table has room for. */
  lemma ReadCaps(k: State, c: nat, buf: Bytes)
    requires CInv(k) && c in k.chans
    ensures HoldsAllBut(k, Read(k, c, buf).0, LostInRead(k, c, buf))
  {
    hide CInv, UnstashAll, LostInUnstashAll, Numbered, Unique;
    var r := CurTid(k);
    if !k.chans[c].open || r.None? || r.value !in k.ipc || k.chans[c].peer.None? || k.chans[c].peer.value !in k.chans {
      CapsSameKeeps(k, k);
    } else {
      var p := k.chans[c].peer.value;
      if k.chans[p].send == [] || k.chans[p].send[0] !in k.ipc {
        CapsSameKeeps(k, Read(k, c, buf).0);
      } else {
        var s, k1 := k.chans[p].send[0], PickUp(k, c, p, r.value, |buf|);
        CapsSameKeeps(k, k1);
        var k2 := CollectHandles(k1, r.value, s);
        if k1.ipc[r.value].table.Some? {
          UnstashAllMoves(k1, s, k1.ipc[r.value].table.value);
        } else {
          CapsSameKeeps(k1, k2);
        }
        var lost := LostInRead(k, c, buf);
        LostAreMovable(k1, s, if k1.ipc[r.value].table.Some? then k1.ipc[r.value].table.value else 0);
        HoldsAllButTrans(k, k1, k2, {}, lost);
        CapsSameKeeps(k2, Wake(k2, s));
        HoldsAllButTrans(k, k2, Wake(k2, s), {} + lost, {});
        assert {} + lost + {} == lost;
      }
    }
  }

  lemma LostAreMovable(k: State, from: nat, t: nat)
    ensures forall x :: x in LostInUnstashAll(k, from, t) ==> Movable(x)
  {
  }

  /** Closing a handle removes exactly the object it names. */
  lemma CloseHandleCaps(k: State, t: nat, hv: nat)
    requires CInv(k) && t in k.tables
    ensures var c := Remove(k, t, hv).1;
      CInv(CloseHandle(k, t, hv))
      && forall x: Cap :: Movable(x) ==> (Holds(CloseHandle(k, t, hv), x) <==> Holds(k, x) && c != Some(x))
  {
    RemovePlaces(k, t, hv);
    var (k1, c) := Remove(k, t, hv);
    var i := Find(k.tables[t], hv, 0);
    if i.Some? {
      TakeKeeps(k, k1, InTable(t, i.value));
      DropSame(k1, c.value.obj);
    }
  }

  /** One transfer takes at most one empty slot of the receiving table. */
  lemma TransferRoom(k: State, from: nat, to: nat, hv: nat)
    requires CInv(k) && from in k.tables && to in k.tables
    ensures var k' := Transfer(k, from, to, hv);
      && to in k'.tables && Room(k'.tables[to]) >= Room(k.tables[to]) - 1
      && (LostInTransfer(k, from, to, hv) != {} ==> Room(k.tables[to]) == 0)
  {
    TakeOutMoves(k, from, hv);
    var (k1, c) := TakeOut(k, from, hv);
    if c.Some? {
      TakeOutRoom(k, from, hv);
      if to != from {
        TakeOutOther(k, from, to, hv);
      }
      GiveRoom(k1, to, c.value);
      HasRoomIff(k1, to);
    } else {
      TakeOutNothing(k, from, hv);
    }
  }

  lemma TakeOutOther(k: State, from: nat, to: nat, hv: nat)
    requires from in k.tables && to in k.tables && to != from
    ensures to in TakeOut(k, from, hv).0.tables && TakeOut(k, from, hv).0.tables[to] == k.tables[to]
  {
  }

  /** A transfer loses something only if the receiving table has fewer empty slots than handles are sent. */
  lemma {:induction false} LostOnlyWhenFull(k: State, from: nat, to: nat, hs: seq<nat>)
    requires CInv(k) && from in k.tables && to in k.tables && LostInTransfers(k, from, to, hs) != {}
    ensures Room(k.tables[to]) < |hs|
    decreases |hs|
  {
    TransferRoom(k, from, to, hs[0]);
    TransferMoves(k, from, to, hs[0]);
    var k1 := Transfer(k, from, to, hs[0]);
    if LostInTransfer(k, from, to, hs[0]) == {} {
      LostOnlyWhenFull(k1, from, to, hs[1..]);
    }
  }

  // ----- runs -----

  /** What a step loses. */
  function LostBy(k: State, e: Step): set<Cap>
    requires Enabled(k, e)
  {
    match e
    case WriteStep(c, data, hs) => LostInWrite(k, c, data, hs)
    case ReadStep(c, buf) => LostInRead(k, c, buf)
    case CloseStep(t, hv) =>
      var c := Remove(k, t, hv).1;
      if c.Some? && Movable(c.value) then {c.value} else {}
    case CreateStep(_, _, _, _) => {}
    case CreateObjectStep(_, _, _) => {}
    case AddThreadStep(_, _) => {}
    case YieldStep => {}
    case ExitStep => {}
  }

  lemma FreshObject(k: State, t: nat, kind: Kind, rights: nat)
    requires CInv(k) && t in k.tables
    ensures var k' := AddCap(k.(nextOid := k.nextOid + 1), t, Cap(Obj(k.nextOid, kind), rights));
      CInv(k') && k'.tables.Keys == k.tables.Keys && forall x: Cap :: Holds(k, x) ==> Holds(k', x)
  {
    var c := Cap(Obj(k.nextOid, kind), rights);
    var k1 := k.(nextOid := k.nextOid + 1);
    SameCapsOf(k, k1);
    assert Loose(k1, c) by {
      forall p: Place | CapAt(k1, p).Some? ensures CapAt(k1, p).value.obj.oid != c.obj.oid {
        assert CapAt(k, p).Some?;
      }
    }
    AddCapPlaces(k1, t, c);
    AddCapNumbers(k1, t, c);
    if HasRoom(k1, t) {
      PutKeeps(k1, AddCap(k1, t, c), InTable(t, FirstFree(k1.tables[t], 0).value), c);
    } else {
      SameKeeps(k1, AddCap(k1, t, c));
    }
  }

  /** Issuing an object number, or changing only channels, touches no place. */
  lemma SameCapsOf(k: State, k1: State)
    requires CInv(k) && k1.tables == k.tables && k1.ipc == k.ipc && k1.nextHandle >= k.nextHandle
      && k1.nextOid >= k.nextOid
    ensures CInv(k1) && forall x: Cap :: Holds(k1, x) <==> Holds(k, x)
  {
    assert SameCaps(k, k1);
    forall x: Cap ensures Holds(k1, x) <==> Holds(k, x) {
      if Holds(k, x) {
        var q: Place :| CapAt(k, q) == Some(x);
        assert CapAt(k1, q) == Some(x);
      }
      if Holds(k1, x) {
        var q: Place :| CapAt(k1, q) == Some(x);
        assert CapAt(k, q) == Some(x);
      }
    }
  }

  lemma CreateChannelCaps(k: State, t: nat, c: nat, d: nat, rights: nat)
    requires CInv(k) && t in k.tables && c != d
    ensures var k' := CreateChannel(k, t, c, d, rights);
      CInv(k') && forall x: Cap :: Holds(k, x) ==> Holds(k', x)
  {
    hide CInv, AddCap, HasRoom, Holds;
    if !HasRoom(k, t) {
      SameCapsOf(k, CreateChannel(k, t, c, d, rights));
    } else {
      var k0 := k.(chans := k.chans[c := FRESH_CHAN]);
      SameCapsOf(k, k0);
      FreshObject(k0, t, ChannelKind(c), rights);
      var k1 := AddCap(k0.(nextOid := k0.nextOid + 1), t, Cap(Obj(k0.nextOid, ChannelKind(c)), rights));
      if !HasRoom(k1, t) {
        SameCapsOf(k1, CreateChannel(k, t, c, d, rights));
      } else {
        var k2 := k1.(chans := k1.chans[c := FRESH_CHAN.(peer := Some(d))][d := FRESH_CHAN.(peer := Some(c))]);
        SameCapsOf(k1, k2);
        FreshObject(k2, t, ChannelKind(d), rights);
      }
    }
  }

  /** A new thread holds nothing, and neither does a new table. */
  lemma AddThreadCaps(k: State, t: S.Thread, own: Option<nat>)
    requires CInv(k) && S.EmptySlot(k.sched.threads, 0).Some? && t.id !in k.ipc
    ensures CInv(AddThread(k, t, own)) && forall x: Cap :: Holds(k, x) ==> Holds(AddThread(k, t, own), x)
  {
    hide S.Add;
    var k' := AddThread(k, t, own);
    forall p: Place ensures CapAt(k', p) == CapAt(k, p) {
    }
    SameKeeps(k, k');
    forall x: Cap | Holds(k, x) ensures Holds(k', x) {
      var q: Place :| CapAt(k, q) == Some(x);
      assert CapAt(k', q) == Some(x);
    }
  }

  /** Every step keeps single ownership, and whatever it does not lose is held afterwards with the same rights. */
  lemma StepConserves(k: State, e: Step)
    requires CInv(k) && Enabled(k, e)
    ensures CInv(Next(k, e))
    ensures forall x: Cap :: Movable(x) && Holds(k, x) && x !in LostBy(k, e) ==> Holds(Next(k, e), x)
    ensures forall x: Cap :: Movable(x) && x in LostBy(k, e) && !e.CreateStep? && !e.CreateObjectStep? ==>
      !Holds(Next(k, e), x)
  {
    hide CInv, Write, Read, CloseHandle, CreateChannel, AddCap, AddThread, S.Schedule, Holds, LostInWrite, LostInRead;
    match e
    case WriteStep(c, data, hs) => WriteCaps(k, c, data, hs);
    case ReadStep(c, buf) => ReadCaps(k, c, buf);
    case CloseStep(t, hv) => CloseHandleCaps(k, t, hv);
    case CreateStep(t, c, d, rights) => CreateChannelCaps(k, t, c, d, rights);
    case CreateObjectStep(t, kind, rights) => FreshObject(k, t, kind, rights);
    case AddThreadStep(t, own) => AddThreadCaps(k, t, own);
    case YieldStep => CapsSameKeeps(k, Next(k, e));
    case ExitStep => CapsSameKeeps(k, Next(k, e));
  }

  /** Single ownership in every state of every run. */
  lemma {:induction false} CapsOverRuns(states: seq<State>, steps: seq<Step>, n: nat)
    requires IsRun(states, steps) && CInv(states[0]) && n < |states|
    ensures CInv(states[n])
  {
    if n > 0 {
      CapsOverRuns(states, steps, n - 1);
      StepConserves(states[n - 1], steps[n - 1]);
    }
  }

  /** A capability held now and lost at no step of the run is held at its end. */
  lemma {:induction false} KeptOverRuns(states: seq<State>, steps: seq<Step>, n: nat, x: Cap)
    requires IsRun(states, steps) && CInv(states[0]) && Movable(x) && Holds(states[0], x) && n < |states|
    requires forall i :: 0 <= i < |steps| ==> x !in LostBy(states[i], steps[i])
    ensures Holds(states[n], x)
  {
    hide CInv, Holds, Next, LostBy, Enabled;
    if n > 0 {
      KeptOverRuns(states, steps, n - 1, x);
      CapsOverRuns(states, steps, n - 1);
      StepConserves(states[n - 1], steps[n - 1]);
    }
  }
}
