/**
 * Whole runs of the system calls on the kernel's arrays: every call takes the step of the
 * specification, keeps the rendezvous invariant, and so no array of waiting senders ever faces an
 * array of waiting receivers across a link (kernel/src/ipc/channel.rs).
 */
module ChannelRuns {
  import opened Common
  import opened HandleTables
  import opened ChannelCreation
  import opened Channels
  import opened Rendezvous
  import C = CapRuns
  import Capabilities
  import K = Kernel
  import O = ChannelOutcomes
  import Q = QuietSteps
  import R = IpcRuns
  import S = SchedSpec
  import Scheduler

  // ----- what the invariant gives the code -----

  /** The invariant supplies what the array operations ask of their caller. */
  lemma SafeOfInv(k: K.State)
    requires KInv(k)
    ensures Safe(k) && forall c: nat :: c in k.chans ==> k.chans[c].peer != Some(c)
  {
    hide S.Inv, AllMatched;
    forall c | c in k.chans
      ensures NotIn(K.CurTid(k), k.chans[c].send) && NotIn(K.CurTid(k), k.chans[c].recv)
    {
      if K.CurTid(k).Some? {
        var tid := K.CurTid(k).value;
        R.CurNotWaiting(k, tid);
        WaitersKnown(k, c);
      }
    }
  }

  lemma UnstashIpc(k: K.State, from: nat, t: nat, j: nat)
    ensures SameTables(k.ipc, K.Unstash(k, from, t, j).ipc)
  {
    O.UnstashIpc(k, from, t, j);
  }

  lemma DropIpc(k: K.State, o: Obj)
    ensures K.Drop(k, o).ipc == k.ipc
  {
    hide K.Close;
    if o.kind.ChannelKind? {
      Capabilities.CloseSame(k, o.kind.chan);
    }
  }

  lemma ClearSlotIpc(k: K.State, tid: nat, j: nat)
    ensures SameTables(k.ipc, K.ClearSlot(k, tid, j).ipc)
  {
    hide K.Drop;
    if tid in k.ipc && j < K.TRANSFER_SLOTS && k.ipc[tid].slots[j].Some? {
      DropIpc(K.SetSlot(k, tid, j, None), k.ipc[tid].slots[j].value.obj);
    }
  }

  lemma UnstashAllIpc(k: K.State, from: nat, t: nat)
    ensures SameTables(k.ipc, K.UnstashAll(k, from, t).ipc)
  {
    hide K.Unstash;
    UnstashIpc(k, from, t, 0);
    UnstashIpc(K.Unstash(k, from, t, 0), from, t, 1);
  }

  lemma ClearSlotsIpc(k: K.State, tid: nat)
    ensures SameTables(k.ipc, K.ClearSlots(k, tid).ipc)
  {
    hide K.ClearSlot;
    ClearSlotIpc(k, tid, 0);
    ClearSlotIpc(K.ClearSlot(k, tid, 0), tid, 1);
  }

  lemma StashIpc(k: K.State, tid: nat, t: nat, hs: seq<nat>)
    ensures SameTables(k.ipc, K.Stash(k, tid, t, hs, 0).ipc)
  {
    Q.StashCapsOnly(k, tid, t, hs, 0);
  }

  lemma RegisterIpc(k: K.State, w: nat, data: K.Bytes)
    requires w in k.ipc
    ensures SameTables(k.ipc, K.SetIpc(k, w, data, 0).ipc) && SameTables(k.ipc, k.ipc)
  {
  }

  /** No call moves a thread to another handle table. */
  lemma WriteBlockingIpc(k: K.State, c: nat, w: nat, data: K.Bytes, hs: seq<nat>)
    requires w in k.ipc
    ensures SameTables(k.ipc, K.WriteBlocking(k, c, w, data, hs).0.ipc)
  {
    hide SameTables, K.ClearSlots, K.Stash, K.UnstashAll, S.Schedule, S.BlockCurrent;
    var k0 := K.SetCurState(K.SetIpc(k, w, data, 0), S.Blocked);
    RegisterIpc(k, w, data);
    var k1 := K.ClearSlots(k0, w);
    ClearSlotsIpc(k0, w);
    SameTablesTrans(k.ipc, k0.ipc, k1.ipc);
    if w in k1.ipc && k1.ipc[w].table.Some? {
      var t := k1.ipc[w].table.value;
      var k2 := K.Stash(k1, w, t, K.FirstTwo(hs), 0);
      StashIpc(k1, w, t, K.FirstTwo(hs));
      SameTablesTrans(k.ipc, k1.ipc, k2.ipc);
      if w in k2.ipc && k2.ipc[w].table.Some? {
        UnstashAllIpc(k2, w, k2.ipc[w].table.value);
        SameTablesTrans(k.ipc, k2.ipc, K.UnstashAll(k2, w, k2.ipc[w].table.value).ipc);
      }
    }
  }

  lemma WriteIpc(k: K.State, c: nat, data: K.Bytes, hs: seq<nat>)
    requires c in k.chans
    ensures SameTables(k.ipc, K.Write(k, c, data, hs).0.ipc)
  {
    hide K.TransferAll, K.WriteBlocking, S.Wake;
    var w := K.CurTid(k);
    if k.chans[c].open && w.Some? && w.value in k.ipc && k.chans[c].peer.Some? && k.chans[c].peer.value in k.chans {
      var p := k.chans[c].peer.value;
      if k.chans[p].recv == [] {
        WriteBlockingIpc(k, c, w.value, data, hs);
      } else if k.chans[p].recv[0] !in k.ipc {
        WriteBlockingIpc(K.SetChan(k, p, k.chans[p].(recv := k.chans[p].recv[1..])), c, w.value, data, hs);
      } else {
        var r, k1 := k.chans[p].recv[0], K.HandOver(k, c, p, w.value, data);
        if k1.ipc[w.value].table.Some? && k1.ipc[r].table.Some? {
          O.TransferAllIpc(k1, k1.ipc[w.value].table.value, k1.ipc[r].table.value, K.FirstTwo(hs));
        }
      }
    }
  }

  lemma ReadIpc(k: K.State, c: nat, buf: K.Bytes)
    requires c in k.chans
    ensures SameTables(k.ipc, K.Read(k, c, buf).0.ipc)
  {
    hide K.UnstashAll, S.Wake, S.Schedule, S.BlockCurrent;
    var r := K.CurTid(k);
    if k.chans[c].open && r.Some? && r.value in k.ipc && k.chans[c].peer.Some? && k.chans[c].peer.value in k.chans {
      var p := k.chans[c].peer.value;
      if k.chans[p].send != [] && k.chans[p].send[0] in k.ipc {
        var s, k1 := k.chans[p].send[0], K.PickUp(k, c, p, r.value, |buf|);
        if k1.ipc[r.value].table.Some? {
          var t := k1.ipc[r.value].table.value;
          UnstashAllIpc(k1, s, t);
        }
      }
    }
  }

  // ----- calls and runs -----

  /** The arrays are sound and stand for a state that satisfies the invariant. */
  ghost predicate Sound(sys: System)
    reads sys, sys.parts
  {
    sys.Valid() && KInv(sys.View()) && sys.TablesKnown(sys.ipc)
  }

  /** The calls that make nothing new. */
  predicate Plain(e: R.Step) {
    e.WriteStep? || e.ReadStep? || e.CloseStep? || e.YieldStep? || e.ExitStep? || e.CreateObjectStep?
  }

  /** Such a call on the arrays takes one step of the specification. */
  method PerformPlain(sys: System, e: R.Step)
    requires Sound(sys) && R.Enabled(sys.View(), e) && Plain(e)
    modifies sys, sys.parts
    ensures Sound(sys) && sys.View() == R.Next(old(sys.View()), e)
  {
    hide System.Apart, Scheduler.Scheduler.Valid, Scheduler.Scheduler.Objects, Base, Safe;
    hide K.Write, K.Read, K.CloseHandle, K.AddCap, S.Schedule, S.BlockCurrent, S.Inv;
    ghost var k := sys.View();
    sys.Keys();
    sys.Inside();
    sys.TablesInside();
    SafeOfInv(k);
    SafeInv(k);
    R.StepKeeps(k, e);
    match e
    case WriteStep(c, data, hs) =>
      WriteIpc(k, c, data, hs);
      var out := sys.Write(c, data, hs);
    case ReadStep(c, buf) =>
      ReadIpc(k, c, buf);
      var out := sys.Read(c, buf);
    case CloseStep(t, hv) =>
      sys.CloseHandle(t, hv);
    case YieldStep =>
      sys.Reschedule();
    case ExitStep =>
      sys.SetCurrentState(S.Dead);
      sys.Reschedule();
    case CreateObjectStep(t, kind, rights) =>
      ObjectIs(k, t, kind, rights);
      var ok := sys.AddObject(t, kind, rights);
  }

  lemma ObjectIs(k: K.State, t: nat, kind: Kind, rights: nat)
    requires t in k.tables && !kind.ChannelKind?
    ensures var k1 := K.AddCap(k, t, K.Cap(Obj(k.nextOid, kind), rights));
      K.CreateObject(k, t, kind, rights) == k1.(nextOid := k1.nextOid + 1)
  {
  }

  /** One system call on the arrays takes one step of the specification; a call that makes something lists it too. */
  method Perform(sys: System, e: R.Step) returns (next: System)
    requires Sound(sys) && R.Enabled(sys.View(), e)
    modifies sys, sys.parts
    ensures fresh(next.parts - sys.parts) && (next == sys || fresh(next))
    ensures Sound(next) && next.View() == R.Next(old(sys.View()), e)
  {
    hide System.Apart, System.EndsView, System.TablesView, Scheduler.Scheduler.Valid, Scheduler.Scheduler.Objects, Base;
    hide Safe;
    hide K.CreateChannel, S.Inv, S.Add;
    ghost var k := sys.View();
    sys.Keys();
    SafeOfInv(k);
    SafeInv(k);
    R.StepKeeps(k, e);
    if Plain(e) {
      PerformPlain(sys, e);
      next := sys;
    } else if e.CreateStep? {
      next := CreateChannel(sys, e.table, e.first, e.second, e.rights);
    } else {
      next := AddThread(sys, e.thread, e.own);
    }
  }

  /** Every run of the specification is what the arrays go through, whatever is made on the way. */
  method PerformAll(sys: System, steps: seq<R.Step>, ghost states: seq<K.State>) returns (last: System)
    requires Sound(sys) && R.IsRun(states, steps) && states[0] == sys.View()
    modifies sys, sys.parts
    ensures fresh(last.parts - sys.parts) && (last == sys || fresh(last))
    ensures Sound(last) && last.View() == states[|steps|]
  {
    hide System.Apart, System.EndsView, System.TablesView, Scheduler.Scheduler.Valid, Scheduler.Scheduler.Objects;
    hide KInv, R.Next, R.Enabled;
    last := sys;
    for i := 0 to |steps|
      invariant Sound(last) && last.View() == states[i]
      invariant fresh(last.parts - sys.parts) && (last == sys || fresh(last))
    {
      last := Perform(last, steps[i]);
    }
  }

  /** Across a link the first slot of the senders' array or that of the receivers' array is empty. */
  lemma NoArraysFacing(sys: System, c: nat, p: nat)
    requires Sound(sys) && Linked(sys.View(), c, p)
    ensures sys.ends[c].send.slots[0].None? || sys.ends[p].recv.slots[0].None?
  {
    hide System.Apart, Scheduler.Scheduler.Valid, Scheduler.Scheduler.Objects;
    NoMissedRendezvous(sys.View(), c, p);
    SlotIs(sys.ends[c].send.slots[..], 0);
    SlotIs(sys.ends[p].recv.slots[..], 0);
  }

  // ----- a system to start from -----

  lemma SchedAllocated(sched: Scheduler.Scheduler)
    ensures forall o :: o in sched.Objects() ==> allocated(o)
  {
  }

  twostate lemma SchedSame(sched: Scheduler.Scheduler)
    requires old(sched.Valid()) && forall o :: o in sched.Objects() ==> unchanged(o)
    ensures sched.Valid() && sched.View() == old(sched.View())
  {
    hide Scheduler.Scheduler.Valid, Scheduler.Scheduler.Objects;
  }

  /** No channel and no handle table yet, beside a sound scheduler whose threads have IPC fields without tables. */
  method Boot(sched: Scheduler.Scheduler, ipc: map<nat, K.ThreadIpc>) returns (sys: System)
    requires sched.Valid() && S.Inv(sched.View())
    requires forall i :: 0 <= i < |sched.View().threads| && sched.View().threads[i].Some? ==>
      sched.View().threads[i].value.id in ipc
    requires forall t :: t in ipc ==> ipc[t].table.None?
    ensures Sound(sys) && fresh(sys) && sys.parts == sched.Objects() && sys.sched == sched
    ensures sys.View() == K.State(old(sched.View()), ipc, map[], map[], 1, 0)
  {
    hide S.Inv, KInv, Scheduler.Scheduler.Valid, Scheduler.Scheduler.Objects;
    SchedAllocated(sched);
    sys := new System(sched, map[], map[], ipc, 1, 0, sched.Objects());
    SchedSame(sched);
    R.InitialInv(sys.View());
  }
}
