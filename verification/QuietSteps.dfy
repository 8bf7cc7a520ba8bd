/** Waking, closing and moving capabilities leave the waiters of linked ends alone. */
module QuietSteps {
  import opened Common
  import opened HandleTables
  import opened Kernel
  import opened Rendezvous
  import S = SchedSpec

  /** Steps that touch handle tables and transfer slots only. */
  ghost predicate CapsOnly(k: State, k': State) {
    && k'.sched == k.sched && k'.chans == k.chans && k'.ipc.Keys == k.ipc.Keys
    && (forall tid :: tid in k.ipc ==> k'.ipc[tid].buf == k.ipc[tid].buf && k'.ipc[tid].table == k.ipc[tid].table)
  }

  lemma CapsOnlyQuiet(k: State, k': State)
    requires S.Inv(k.sched) && CapsOnly(k, k')
    ensures Quiet(k, k')
  {
  }

  /** Waking a thread that waits on no channel is quiet. */
  lemma WakeQuiet(k: State, tid: nat)
    requires S.Inv(k.sched) && !Waits(k, tid) && CurTid(k) != Some(tid)
    ensures Quiet(k, Wake(k, tid))
  {
    assert S.Enabled(k.sched, S.WakeThread(tid));
    S.WakeKeeps(k.sched, tid);
    var k' := Wake(k, tid);
    WaitsSame(k, k', tid);
    var r := S.FindWakeable(k.sched.threads, 0, tid);
    if r.Some? {
      assert k.sched.current != Some(r.value);
      forall i: nat | i < |k.sched.threads| ensures SlotQuiet(k, k', i) {
      }
    }
  }

  lemma WaitsSame(k: State, k': State, tid: nat)
    requires k'.chans == k.chans
    ensures Waits(k', tid) <==> Waits(k, tid)
  {
    if Waits(k', tid) {
      var c: nat, b: bool, i: nat :| At(k', c, b, i, tid);
      assert At(k, c, b, i, tid);
    }
    if Waits(k, tid) {
      var c: nat, b: bool, i: nat :| At(k, c, b, i, tid);
      assert At(k', c, b, i, tid);
    }
  }

  lemma {:induction false} WakeAllQuiet(k: State, tids: seq<nat>)
    requires S.Inv(k.sched)
    requires forall t :: t in tids ==> !Waits(k, t) && CurTid(k) != Some(t)
    ensures Quiet(k, WakeAll(k, tids))
    decreases |tids|
  {
    if tids == [] {
      QuietRefl(k);
    } else {
      var k1 := Wake(k, tids[0]);
      WakeQuiet(k, tids[0]);
      QuietCur(k, k1);
      forall t | t in tids[1..] ensures !Waits(k1, t) && CurTid(k1) != Some(t) {
        WaitsSame(k, k1, t);
      }
      WakeAllQuiet(k1, tids[1..]);
      QuietTrans(k, k1, WakeAll(k, tids));
    }
  }

  lemma {:induction false} WakeAllConcat(k: State, a: seq<nat>, b: seq<nat>)
    ensures WakeAll(k, a + b) == WakeAll(WakeAll(k, a), b)
    decreases |a|
  {
    if a == [] {
      assert a + b == b;
    } else {
      assert (a + b)[1..] == a[1..] + b;
      WakeAllConcat(Wake(k, a[0]), a[1..], b);
    }
  }

  /** Waking commutes with what happens to the channel ends. */
  lemma {:induction false} WakeAllChans(k: State, tids: seq<nat>, chans: map<nat, Chan>)
    ensures WakeAll(k.(chans := chans), tids) == WakeAll(k, tids).(chans := chans)
    ensures WakeAll(k, tids).chans == k.chans
    decreases |tids|
  {
    if tids != [] {
      WakeAllChans(Wake(k, tids[0]), tids[1..], chans);
    }
  }

  /** Both ends closed, nobody woken yet. */
  function BothClosed(k: State, c: nat): State
    requires c in k.chans
  {
    var k1 := k.(chans := k.chans[c := ClosedEnd(k.chans[c])]);
    var p := k.chans[c].peer;
    if p.Some? && p.value in k1.chans then k1.(chans := k1.chans[p.value := ClosedEnd(k1.chans[p.value])]) else k1
  }

  /** Everyone `close` wakes, in order. */
  function Woken(k: State, c: nat): seq<nat>
    requires c in k.chans
  {
    var p := k.chans[c].peer;
    Interleave(k.chans[c].send, k.chans[c].recv)
    + if p.Some? && p.value in k.chans && p.value != c then Interleave(k.chans[p.value].send, k.chans[p.value].recv)
      else []
  }

  lemma CloseForm(k: State, c: nat)
    requires c in k.chans && (k.chans[c].peer.Some? ==> k.chans[c].peer.value in k.chans && k.chans[c].peer.value != c)
    ensures Close(k, c) == WakeAll(BothClosed(k, c), Woken(k, c))
  {
    var peer := k.chans[c].peer;
    var a := Interleave(k.chans[c].send, k.chans[c].recv);
    var kc := k.(chans := k.chans[c := ClosedEnd(k.chans[c])]);
    var k1 := CloseEnd(k, c);
    WakeAllChans(kc, a, kc.chans);
    if peer.Some? {
      var p := peer.value;
      var b := Interleave(k.chans[p].send, k.chans[p].recv);
      assert k1.chans == kc.chans && k1.chans[p] == k.chans[p];
      var both := kc.chans[p := ClosedEnd(k.chans[p])];
      assert k1.chans[p := ClosedEnd(k1.chans[p])] == both;
      WakeAllChans(kc, a, both);
      WakeAllConcat(kc.(chans := both), a, b);
      assert BothClosed(k, c) == kc.(chans := both);
    } else {
      assert a + [] == a;
    }
  }

  lemma BothClosedQuiet(k: State, c: nat)
    requires KInv(k) && c in k.chans
    ensures Quiet(k, BothClosed(k, c))
  {
    hide WaitersOk, AllMatched;
    var k' := BothClosed(k, c);
    forall d: nat, q: nat | Linked(k', d, q) ensures k'.chans[d] == k.chans[d] && k'.chans[q] == k.chans[q] {
      assert Linked(k, d, q);
      assert Linked(k, q, d);
    }
  }

  lemma WokenFree(k: State, c: nat, tid: nat)
    requires KInv(k) && c in k.chans && tid in Woken(k, c)
    ensures !Waits(BothClosed(k, c), tid) && CurTid(k) != Some(tid)
  {
    var p := k.chans[c].peer;
    var d := if tid in k.chans[c].send || tid in k.chans[c].recv then c else p.value;
    var b := tid in k.chans[d].send;
    var i :| 0 <= i < |Line(k, d, b)| && Line(k, d, b)[i] == tid;
    assert At(k, d, b, i, tid);
    assert Waits(k, tid);
    var k' := BothClosed(k, c);
    if Waits(k', tid) {
      StillWaitsElsewhere(k, c, d, b, i, tid);
    }
  }

  lemma StillWaitsElsewhere(k: State, c: nat, d: nat, b: bool, i: nat, tid: nat)
    requires WaitersOk(k) && c in k.chans && At(k, d, b, i, tid)
    requires d == c || k.chans[c].peer == Some(d)
    ensures !Waits(BothClosed(k, c), tid)
  {
    var k' := BothClosed(k, c);
    assert Line(k', d, true) == [] && Line(k', d, false) == [];
    if Waits(k', tid) {
      var e: nat, f: bool, j: nat :| At(k', e, f, j, tid);
      assert At(k, e, f, j, tid);
    }
  }

  /** `close` is quiet. */
  lemma CloseQuiet(k: State, c: nat)
    requires KInv(k)
    ensures Quiet(k, Close(k, c)) && Close(k, c).ipc == k.ipc && Close(k, c).tables == k.tables
  {
    if c in k.chans {
      assert LinksOk(k);
      CloseForm(k, c);
      BothClosedQuiet(k, c);
      var k1 := BothClosed(k, c);
      QuietCur(k, k1);
      forall t | t in Woken(k, c) ensures !Waits(k1, t) && CurTid(k1) != Some(t) {
        WokenFree(k, c, t);
      }
      WakeAllQuiet(k1, Woken(k, c));
      WakeAllFrame(k1, Woken(k, c));
      QuietTrans(k, k1, Close(k, c));
    } else {
      QuietRefl(k);
    }
  }

  lemma {:induction false} WakeAllFrame(k: State, tids: seq<nat>)
    ensures WakeAll(k, tids).ipc == k.ipc && WakeAll(k, tids).tables == k.tables
    ensures WakeAll(k, tids).nextHandle == k.nextHandle && WakeAll(k, tids).nextOid == k.nextOid
    decreases |tids|
  {
    if tids != [] {
      WakeAllFrame(Wake(k, tids[0]), tids[1..]);
    }
  }

  lemma DropQuiet(k: State, o: Obj)
    requires KInv(k)
    ensures Quiet(k, Drop(k, o)) && Drop(k, o).ipc == k.ipc && Drop(k, o).tables == k.tables
  {
    if o.kind.ChannelKind? {
      CloseQuiet(k, o.kind.chan);
    } else {
      QuietRefl(k);
    }
  }

  /** A capability step followed by a quiet one. */
  lemma ThenQuiet(k: State, k1: State, k2: State)
    requires KInv(k) && CapsOnly(k, k1)
    requires KInv(k1) ==> Quiet(k1, k2)
    ensures Quiet(k, k1) && KInv(k1) && Quiet(k, k2) && KInv(k2)
  {
    CapsOnlyQuiet(k, k1);
    QuietKeeps(k, k1);
    QuietTrans(k, k1, k2);
    QuietKeeps(k, k2);
  }

  lemma GiveQuiet(k: State, t: nat, c: Cap)
    requires KInv(k) && t in k.tables
    ensures Quiet(k, Give(k, t, c)) && KInv(Give(k, t, c))
    ensures Give(k, t, c).ipc == k.ipc && Give(k, t, c).tables.Keys == k.tables.Keys
  {
    var k1 := AddCap(k, t, c);
    CapsOnlyQuiet(k, k1);
    QuietKeeps(k, k1);
    DropQuiet(k1, c.obj);
    QuietRefl(k1);
    ThenQuiet(k, k1, Give(k, t, c));
  }

  lemma TakeOutCapsOnly(k: State, t: nat, hv: nat)
    requires t in k.tables
    ensures var k' := TakeOut(k, t, hv).0; CapsOnly(k, k') && k'.ipc == k.ipc && k'.tables.Keys == k.tables.Keys
  {
  }

  lemma TransferQuiet(k: State, from: nat, to: nat, hv: nat)
    requires KInv(k) && from in k.tables && to in k.tables
    ensures Quiet(k, Transfer(k, from, to, hv)) && KInv(Transfer(k, from, to, hv))
    ensures Transfer(k, from, to, hv).tables.Keys == k.tables.Keys
  {
    TakeOutCapsOnly(k, from, hv);
    var (k1, c) := TakeOut(k, from, hv);
    CapsOnlyQuiet(k, k1);
    QuietKeeps(k, k1);
    if c.Some? {
      GiveQuiet(k1, to, c.value);
    } else {
      QuietRefl(k1);
    }
    ThenQuiet(k, k1, Transfer(k, from, to, hv));
  }

  lemma {:induction false} TransferAllQuiet(k: State, from: nat, to: nat, hs: seq<nat>)
    requires KInv(k)
    ensures Quiet(k, TransferAll(k, from, to, hs)) && KInv(TransferAll(k, from, to, hs))
    decreases |hs|
  {
    if hs == [] || from !in k.tables || to !in k.tables {
      QuietRefl(k);
    } else {
      TransferQuiet(k, from, to, hs[0]);
      var k1 := Transfer(k, from, to, hs[0]);
      TransferAllQuiet(k1, from, to, hs[1..]);
      QuietTrans(k, k1, TransferAll(k, from, to, hs));
    }
  }

  lemma ClearSlotQuiet(k: State, tid: nat, j: nat)
    requires KInv(k)
    ensures Quiet(k, ClearSlot(k, tid, j)) && KInv(ClearSlot(k, tid, j))
  {
    if tid !in k.ipc || j >= |k.ipc[tid].slots| || k.ipc[tid].slots[j].None? {
      QuietRefl(k);
    } else {
      var k1 := SetSlot(k, tid, j, None);
      CapsOnlyQuiet(k, k1);
      QuietKeeps(k, k1);
      DropQuiet(k1, k.ipc[tid].slots[j].value.obj);
      ThenQuiet(k, k1, ClearSlot(k, tid, j));
    }
  }

  lemma ClearSlotsQuiet(k: State, tid: nat)
    requires KInv(k)
    ensures Quiet(k, ClearSlots(k, tid)) && KInv(ClearSlots(k, tid))
  {
    ClearSlotQuiet(k, tid, 0);
    ClearSlotQuiet(ClearSlot(k, tid, 0), tid, 1);
    QuietTrans(k, ClearSlot(k, tid, 0), ClearSlots(k, tid));
  }

  lemma {:induction false} StashCapsOnly(k: State, tid: nat, t: nat, hs: seq<nat>, j: nat)
    ensures CapsOnly(k, Stash(k, tid, t, hs, j))
    decreases |hs|
  {
    if hs == [] || t !in k.tables || tid !in k.ipc || j >= |k.ipc[tid].slots| {
    } else {
      TakeOutCapsOnly(k, t, hs[0]);
      var (k1, c) := TakeOut(k, t, hs[0]);
      if c.Some? && tid in k1.ipc && j < |k1.ipc[tid].slots| {
        StashCapsOnly(SetSlot(k1, tid, j, c), tid, t, hs[1..], j + 1);
      } else {
        StashCapsOnly(k1, tid, t, hs[1..], j);
      }
    }
  }

  lemma UnstashQuiet(k: State, from: nat, t: nat, j: nat)
    requires KInv(k)
    ensures Quiet(k, Unstash(k, from, t, j)) && KInv(Unstash(k, from, t, j))
  {
    if from !in k.ipc || j >= |k.ipc[from].slots| || k.ipc[from].slots[j].None? || t !in k.tables {
      QuietRefl(k);
    } else {
      var k1 := SetSlot(k, from, j, None);
      CapsOnlyQuiet(k, k1);
      QuietKeeps(k, k1);
      GiveQuiet(k1, t, k.ipc[from].slots[j].value);
      ThenQuiet(k, k1, Unstash(k, from, t, j));
    }
  }

  lemma UnstashAllQuiet(k: State, from: nat, t: nat)
    requires KInv(k)
    ensures Quiet(k, UnstashAll(k, from, t)) && KInv(UnstashAll(k, from, t))
  {
    UnstashQuiet(k, from, t, 0);
    UnstashQuiet(Unstash(k, from, t, 0), from, t, 1);
    QuietTrans(k, Unstash(k, from, t, 0), UnstashAll(k, from, t));
  }
}
