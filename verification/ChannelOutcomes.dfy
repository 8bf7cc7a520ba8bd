/**
 * What the channel calls return, whom they wake and what they leave behind, in the terms of their callers
 * (kernel/src/ipc/channel.rs).
 */
module ChannelOutcomes {
  import opened Common
  import opened HandleTables
  import opened Kernel
  import opened QuietSteps
  import Capabilities
  import opened Rendezvous
  import R = IpcRuns
  import S = SchedSpec
  import E = SchedEffects
  import W = WaiterArray

  // ----- waking -----

  /** The record of slot `i` after a wake: ready if it slept under that identifier, else as it was. */
  lemma WakeRecord(s: S.Sched, id: nat, i: nat)
    requires S.Inv(s) && i < |s.threads| && s.threads[i].Some?
    ensures var t := s.threads[i].value;
      |S.Wake(s, id).threads| == |s.threads|
      && S.Wake(s, id).threads[i] == Some(if E.Asleep(t) && t.id == id then t.(state := S.Ready) else t)
  {
    if j :| 0 <= j < |s.threads| && s.threads[j].Some? && s.threads[j].value.id == id && E.Asleep(s.threads[j].value) {
      E.WakeWakes(s, j);
    } else {
      E.WakeNobody(s, id);
    }
  }

  /** The record of slot `i` after a series of wakes. */
  lemma {:induction false} WakeAllRecord(k: State, tids: seq<nat>, i: nat)
    requires S.Inv(k.sched) && (forall t :: t in tids ==> CurTid(k) != Some(t))
    requires i < |k.sched.threads| && k.sched.threads[i].Some?
    ensures var t := k.sched.threads[i].value; var ts := WakeAll(k, tids).sched.threads;
      |ts| == |k.sched.threads| && S.Inv(WakeAll(k, tids).sched)
      && ts[i] == Some(if E.Asleep(t) && t.id in tids then t.(state := S.Ready) else t)
    decreases |tids|
  {
    hide S.Inv, S.Wake;
    if tids != [] {
      assert S.Enabled(k.sched, S.WakeThread(tids[0]));
      S.WakeKeeps(k.sched, tids[0]);
      WakeRecord(k.sched, tids[0], i);
      WakeCur(k, tids[0]);
      WakeAllRecord(Wake(k, tids[0]), tids[1..], i);
    }
  }

  lemma WakeCur(k: State, tid: nat)
    ensures CurTid(Wake(k, tid)) == CurTid(k)
  {
  }

  /**
   * Closing an end makes ready every thread that slept in one of the four lines, and no other: whoever
   * waits on the end or on its peer is woken.
   */
  lemma CloseWakes(k: State, c: nat, i: nat)
    requires KInv(k) && c in k.chans && i < |k.sched.threads| && k.sched.threads[i].Some?
    ensures var t, ts, p := k.sched.threads[i].value, Close(k, c).sched.threads, k.chans[c].peer;
      var waited := || t.id in k.chans[c].send || t.id in k.chans[c].recv
                    || (p.Some? && p.value in k.chans && (t.id in k.chans[p.value].send
                      || t.id in k.chans[p.value].recv));
      |ts| == |k.sched.threads| && ts[i] == Some(if E.Asleep(t) && waited then t.(state := S.Ready) else t)
  {
    hide S.Inv, WaitersOk, AllMatched, Waits, WakeAll;
    InvOf(k);
    assert LinksOk(k);
    CloseForm(k, c);
    forall t | t in Woken(k, c) ensures CurTid(BothClosed(k, c)) != Some(t) {
      WokenFree(k, c, t);
    }
    WakeAllRecord(BothClosed(k, c), Woken(k, c), i);
  }

  lemma InvOf(k: State)
    requires KInv(k)
    ensures S.Inv(k.sched) && LinksOk(k)
  {
  }

  /** Both ends are closed, unlinked and waited on by nobody; later calls on them are refused. */
  lemma CloseRefuses(k: State, c: nat, e: nat, data: Bytes, hs: seq<nat>)
    requires KInv(k) && c in k.chans && e in k.chans && (e == c || k.chans[c].peer == Some(e))
    ensures var k' := Close(k, c);
      && e in k'.chans
      && k'.chans[e] == Chan(false, None, [], [], k.chans[e].wlog, k.chans[e].rlog, k.chans[e].done)
      && Write(k', e, data, hs) == (k', Fail(PeerClosed)) && Read(k', e, data) == (k', Fail(PeerClosed))
    ensures forall d :: d in k.chans && d != c && k.chans[c].peer != Some(d) ==>
      d in Close(k, c).chans && Close(k, c).chans[d] == k.chans[d]
  {
    hide S.Inv, WaitersOk, AllMatched, WakeAll;
    InvOf(k);
    CloseForm(k, c);
    var both := BothClosed(k, c);
    WakeAllChans(both, Woken(k, c), both.chans);
  }

  // ----- closing handles -----

  /** The thread waits in a line of the end or of its peer. */
  predicate WaitsAround(k: State, c: nat, tid: nat)
    requires c in k.chans
  {
    var p := k.chans[c].peer;
    || tid in k.chans[c].send || tid in k.chans[c].recv
    || (p.Some? && p.value in k.chans && (tid in k.chans[p.value].send || tid in k.chans[p.value].recv))
  }

  /** In slot `i`, a thread that slept on the end or on its peer is ready; any other is as it was. */
  predicate RecordAfterClose(k: State, k': State, c: nat, i: nat)
    requires c in k.chans && i < |k.sched.threads| == |k'.sched.threads|
  {
    match k.sched.threads[i]
    case None => k'.sched.threads[i].None?
    case Some(t) =>
      k'.sched.threads[i] == Some(if E.Asleep(t) && WaitsAround(k, c, t.id) then t.(state := S.Ready) else t)
  }

  /** The end and its peer are closed, their lines empty, and those who slept there are ready. */
  ghost predicate ClosedDown(k: State, k': State, c: nat)
    requires c in k.chans
  {
    && (forall e :: e in k.chans && (e == c || k.chans[c].peer == Some(e)) ==>
          e in k'.chans && !k'.chans[e].open && k'.chans[e].peer.None?
          && k'.chans[e].send == [] == k'.chans[e].recv)
    && |k'.sched.threads| == |k.sched.threads|
    && (forall i :: 0 <= i < |k.sched.threads| ==> RecordAfterClose(k, k', c, i))
  }

  lemma CloseClosesDown(k: State, c: nat)
    requires KInv(k) && c in k.chans
    ensures ClosedDown(k, Close(k, c), c) && Close(k, c).tables == k.tables
  {
    hide S.Inv, WaitersOk, AllMatched, Waits, WakeAll, Close, KInv;
    var k' := Close(k, c);
    CloseSlots(k, c);
    forall e | e in k.chans && (e == c || k.chans[c].peer == Some(e))
      ensures e in k'.chans && !k'.chans[e].open && k'.chans[e].peer.None?
        && k'.chans[e].send == [] == k'.chans[e].recv
    {
      CloseRefuses(k, c, e, [], []);
    }
    forall i | 0 <= i < |k.sched.threads| ensures RecordAfterClose(k, k', c, i) {
      if k.sched.threads[i].Some? {
        CloseWakes(k, c, i);
      }
    }
  }

  /** Waking fills no slot and moves no handle. */
  lemma CloseSlots(k: State, c: nat)
    requires KInv(k) && c in k.chans
    ensures |Close(k, c).sched.threads| == |k.sched.threads| && Close(k, c).tables == k.tables
    ensures forall i :: 0 <= i < |k.sched.threads| && k.sched.threads[i].None? ==> Close(k, c).sched.threads[i].None?
  {
    hide S.Inv, WaitersOk, AllMatched, WakeAll;
    InvOf(k);
    CloseForm(k, c);
    WakeAllSlots(BothClosed(k, c), Woken(k, c));
  }

  lemma {:induction false} WakeAllSlots(k: State, tids: seq<nat>)
    ensures |WakeAll(k, tids).sched.threads| == |k.sched.threads| && WakeAll(k, tids).tables == k.tables
    ensures forall i :: 0 <= i < |k.sched.threads| && k.sched.threads[i].None? ==>
      WakeAll(k, tids).sched.threads[i].None?
    decreases |tids|
  {
    if tids != [] {
      WakeAllSlots(Wake(k, tids[0]), tids[1..]);
    }
  }

  /** Slot `i` is the first that holds the handle, and names an end of a channel. */
  predicate NamesEnd(k: State, t: nat, hv: nat, i: nat, c: nat) {
    && t in k.tables && i < |k.tables[t]| && Names(k.tables[t], i, hv)
      && (forall j :: 0 <= j < i ==> !Names(k.tables[t], j, hv))
    && k.tables[t][i].value.obj.kind == ChannelKind(c) && c in k.chans
  }

  /** Closing a handle to a channel end empties its slot, and no other, and closes the end. */
  lemma CloseHandleCloses(k: State, t: nat, hv: nat, i: nat, c: nat)
    requires KInv(k) && NamesEnd(k, t, hv, i, c)
    ensures CloseHandle(k, t, hv).tables == k.tables[t := k.tables[t][i := None]]
    ensures ClosedDown(k, CloseHandle(k, t, hv), c)
  {
    hide S.Inv, Close, ClosedDown, KInv;
    assert Find(k.tables[t], hv, 0) == Some(i);
    TablesOnlyClose(k, k.(tables := k.tables[t := k.tables[t][i := None]]), c);
  }

  /** Closing another handle leaves the channels and threads alone. */
  lemma CloseHandleElse(k: State, t: nat, hv: nat)
    requires t in k.tables
    requires forall i :: 0 <= i < |k.tables[t]| && Names(k.tables[t], i, hv) ==>
      !k.tables[t][i].value.obj.kind.ChannelKind?
    ensures CloseHandle(k, t, hv).chans == k.chans && CloseHandle(k, t, hv).sched == k.sched
  {
  }

  lemma TablesOnlyClose(k: State, k1: State, c: nat)
    requires KInv(k) && c in k.chans && k1 == k.(tables := k1.tables, nextHandle := k1.nextHandle)
    ensures ClosedDown(k, Close(k1, c), c) && Close(k1, c).tables == k1.tables
  {
    hide Close, WaitersOk, LinksOk, AllMatched;
    CapsOnlyQuiet(k, k1);
    QuietKeeps(k, k1);
    CloseClosesDown(k1, c);
    var k' := Close(k1, c);
    forall i | 0 <= i < |k.sched.threads| ensures RecordAfterClose(k, k', c, i) {
      assert RecordAfterClose(k1, k', c, i);
    }
  }

  /** A channel end on its way to a full table is closed, as the last reference to it is gone. */
  lemma FullTableCloses(k: State, t: nat, cap: Cap, c: nat)
    requires KInv(k) && t in k.tables && (forall i :: 0 <= i < |k.tables[t]| ==> k.tables[t][i].Some?)
    requires cap.obj.kind == ChannelKind(c) && c in k.chans
    ensures ClosedDown(k, Give(k, t, cap), c) && Give(k, t, cap).tables == k.tables
  {
    hide S.Inv, Close, ClosedDown, KInv;
    assert FirstFree(k.tables[t], 0).None?;
    assert k.tables[t := k.tables[t]] == k.tables;
    TablesOnlyClose(k, k.(nextHandle := k.nextHandle + 1), c);
  }

  /** Slot `i` holds the blocked thread `tid`. */
  predicate Sleeps(k: State, i: nat, tid: nat) {
    && i < |k.sched.threads| && k.sched.threads[i].Some?
    && k.sched.threads[i].value.id == tid && k.sched.threads[i].value.state == S.Blocked
  }

  // ----- a write that finds a receiver -----

  /** The call is a write on an open, linked end while somebody waits to receive. */
  predicate FindsReceiver(k: State, c: nat, w: nat, p: nat, r: nat) {
    && c in k.chans && k.chans[c].open && CurTid(k) == Some(w) && w in k.ipc
    && k.chans[c].peer == Some(p) && p in k.chans && k.chans[p].recv != [] && k.chans[p].recv[0] == r
  }

  /**
   * The message of a direct delivery: the caller is told what was delivered, the longest waiting receiver
   * has it at the front of its buffer with its length, the delivery is on record, and the receiver, if it
   * slept, is ready.
   */
  lemma WriteDelivers(k: State, c: nat, w: nat, p: nat, r: nat, data: Bytes, hs: seq<nat>)
    requires KInv(k) && FindsReceiver(k, c, w, p, r)
    ensures r in k.ipc
    ensures var d := data[..Min(|data|, |k.ipc[r].buf|)]; var (k', out) := Write(k, c, data, hs);
      && out == Done(d)
      && r in k'.ipc && k'.ipc[r].actual == |d| && k'.ipc[r].buf == d + k.ipc[r].buf[|d|..]
      && c in k'.chans && k'.chans[c].done == k.chans[c].done + [Delivery(w, r, d)]
      && k'.chans[c].wlog == k.chans[c].wlog + [WriteReq(w, data)]
      && |k'.sched.threads| == |k.sched.threads|
      && (forall i: nat :: Sleeps(k, i, r) ==>
            k'.sched.threads[i] == Some(k.sched.threads[i].value.(state := S.Ready)))
  {
    hide S.Inv, S.Wake, WaitersOk, AllMatched, LinksOk, Waits, TransferAll;
    R.HeadKnown(k, p, false);
    R.LinkedPeer(k, c);
    R.HandOverKeeps(k, c, p, w, data);
    var k1 := HandOver(k, c, p, w, data);
    var k2 := DeliverHandles(k1, w, r, hs);
    R.DeliverHandlesQuiet(k1, w, r, hs);
    InvOf(k2);
    DeliverIpc(k1, w, r, hs);
    WokenAfter(k1, k2, r);
  }

  /** Waking the partner after quiet steps: it is ready, whether or not a close on the way woke it first. */
  lemma WokenAfter(k1: State, k2: State, r: nat)
    requires S.Inv(k2.sched) && Quiet(k1, k2)
    ensures |Wake(k2, r).sched.threads| == |k1.sched.threads|
    ensures forall i: nat :: Sleeps(k1, i, r) ==>
      Wake(k2, r).sched.threads[i] == Some(k1.sched.threads[i].value.(state := S.Ready))
  {
    hide S.Inv, S.Wake;
    WakeSize(k2.sched, r);
    forall i: nat | Sleeps(k1, i, r)
      ensures Wake(k2, r).sched.threads[i] == Some(k1.sched.threads[i].value.(state := S.Ready))
    {
      assert SlotQuiet(k1, k2, i);
      WakeRecord(k2.sched, r, i);
    }
  }

  lemma WakeSize(s: S.Sched, id: nat)
    ensures |S.Wake(s, id).threads| == |s.threads|
  {
  }

  lemma DeliverIpc(k: State, w: nat, r: nat, hs: seq<nat>)
    ensures DeliverHandles(k, w, r, hs).ipc == k.ipc
  {
    if w in k.ipc && r in k.ipc && k.ipc[w].table.Some? && k.ipc[r].table.Some? {
      TransferAllIpc(k, k.ipc[w].table.value, k.ipc[r].table.value, FirstTwo(hs));
    }
  }

  lemma {:induction false} TransferAllIpc(k: State, from: nat, to: nat, hs: seq<nat>)
    ensures TransferAll(k, from, to, hs).ipc == k.ipc
    decreases |hs|
  {
    if hs != [] && from in k.tables && to in k.tables {
      TakeOutCapsOnly(k, from, hs[0]);
      var (k1, c) := TakeOut(k, from, hs[0]);
      if c.Some? {
        GiveIpc(k1, to, c.value);
      }
      TransferAllIpc(Transfer(k, from, to, hs[0]), from, to, hs[1..]);
    }
  }

  lemma GiveIpc(k: State, t: nat, c: Cap)
    requires t in k.tables
    ensures Give(k, t, c).ipc == k.ipc
  {
    if !HasRoom(k, t) && c.obj.kind.ChannelKind? {
      Capabilities.CloseSame(AddCap(k, t, c), c.obj.kind.chan);
    }
  }

  /** The read it completes is the oldest one not yet answered on the other end, and asked for that many bytes. */
  lemma DeliveredReadIs(k: State, c: nat, w: nat, p: nat, r: nat)
    requires KInv(k) && FindsReceiver(k, c, w, p, r)
    ensures var n := |k.chans[c].done|;
      && n == |k.chans[c].wlog| && n < |k.chans[p].rlog|
      && r in k.ipc && k.chans[p].rlog[n] == ReadReq(r, |k.ipc[r].buf|)
  {
    hide S.Inv, WaitersOk;
    R.LinkedPeer(k, c);
    assert Matched(k, c, p);
    assert ReceiverOk(k.chans[p].rlog, |k.chans[c].done|, k.chans[p].recv, k.ipc, 0);
  }

  // ----- a read that finds a sender -----

  predicate FindsSender(k: State, c: nat, r: nat, p: nat, s: nat) {
    && c in k.chans && k.chans[c].open && CurTid(k) == Some(r) && r in k.ipc
    && k.chans[c].peer == Some(p) && p in k.chans && k.chans[p].send != [] && k.chans[p].send[0] == s
  }

  /**
   * The bytes a read returns: the message the longest waiting sender has registered, as far as it fits.
   * The sender is told how much was taken, the delivery is on record, and the sender, if it slept, is ready.
   */
  lemma ReadPicksUp(k: State, c: nat, r: nat, p: nat, s: nat, buf: Bytes)
    requires KInv(k) && FindsSender(k, c, r, p, s)
    ensures s in k.ipc
    ensures var d := k.ipc[s].buf[..Min(|k.ipc[s].buf|, |buf|)]; var (k', out) := Read(k, c, buf);
      && out == Done(d)
      && s in k'.ipc && k'.ipc[s].actual == |d| && k'.ipc[s].buf == k.ipc[s].buf
      && p in k'.chans && k'.chans[p].done == k.chans[p].done + [Delivery(s, r, d)]
      && c in k'.chans && k'.chans[c].rlog == k.chans[c].rlog + [ReadReq(r, |buf|)]
      && |k'.sched.threads| == |k.sched.threads|
      && (forall i: nat :: Sleeps(k, i, s) ==>
            k'.sched.threads[i] == Some(k.sched.threads[i].value.(state := S.Ready)))
  {
    hide S.Inv, S.Wake, WaitersOk, AllMatched, LinksOk, Waits, UnstashAll;
    R.HeadKnown(k, p, true);
    R.LinkedPeer(k, c);
    LinkedApart(k, c, p);
    R.PickUpKeeps(k, c, p, r, |buf|);
    var k1 := PickUp(k, c, p, r, |buf|);
    var k2 := CollectHandles(k1, r, s);
    R.CollectHandlesQuiet(k1, r, s);
    InvOf(k2);
    CollectIpc(k1, r, s);
    WokenAfter(k1, k2, s);
  }

  lemma LinkedApart(k: State, c: nat, p: nat)
    requires KInv(k) && c in k.chans && k.chans[c].peer == Some(p)
    ensures c != p
  {
  }

  lemma CollectIpc(k: State, r: nat, s: nat)
    ensures var k' := CollectHandles(k, r, s);
      k'.ipc.Keys == k.ipc.Keys && forall t :: t in k.ipc ==>
        k'.ipc[t].buf == k.ipc[t].buf && k'.ipc[t].actual == k.ipc[t].actual
  {
    if r in k.ipc && k.ipc[r].table.Some? {
      UnstashIpc(k, s, k.ipc[r].table.value, 0);
      UnstashIpc(Unstash(k, s, k.ipc[r].table.value, 0), s, k.ipc[r].table.value, 1);
    }
  }

  lemma UnstashIpc(k: State, from: nat, t: nat, j: nat)
    ensures var k' := Unstash(k, from, t, j);
      k'.ipc.Keys == k.ipc.Keys && forall x :: x in k.ipc ==>
        k'.ipc[x].buf == k.ipc[x].buf && k'.ipc[x].actual == k.ipc[x].actual && k'.ipc[x].table == k.ipc[x].table
  {
    hide Give;
    if from in k.ipc && j < |k.ipc[from].slots| && k.ipc[from].slots[j].Some? && t in k.tables {
      GiveIpc(SetSlot(k, from, j, None), t, k.ipc[from].slots[j].value);
    }
  }

  /** What it returns is what the oldest write not yet answered on the other end sent. */
  lemma PickedUpWriteIs(k: State, c: nat, r: nat, p: nat, s: nat)
    requires KInv(k) && FindsSender(k, c, r, p, s)
    ensures var n := |k.chans[p].done|;
      && n == |k.chans[c].rlog| && n < |k.chans[p].wlog|
      && s in k.ipc && k.chans[p].wlog[n] == WriteReq(s, k.ipc[s].buf)
  {
    hide S.Inv, WaitersOk;
    R.LinkedPeer(k, c);
    assert Linked(k, p, c) && Matched(k, p, c);
    assert SenderOk(k.chans[p].wlog, |k.chans[p].done|, k.chans[p].send, k.ipc, 0);
  }

  // ----- which outcome -----

  /** The current thread may write or read on `c`: the end is open and linked. */
  predicate MayCall(k: State, c: nat) {
    c in k.chans && k.chans[c].open && CurTid(k).Some? && CurTid(k).value in k.ipc && k.chans[c].peer.Some?
  }

  /** A refused call leaves the state alone and says why. */
  lemma CallRefused(k: State, c: nat, data: Bytes, hs: seq<nat>)
    requires c in k.chans && !MayCall(k, c)
    ensures var e := if k.chans[c].open && (CurTid(k).None? || CurTid(k).value !in k.ipc) then ThreadNotFound
      else PeerClosed;
      Write(k, c, data, hs) == (k, Fail(e)) && Read(k, c, data) == (k, Fail(e))
  {
  }

  /** A write is done at once exactly when somebody waits to receive; else it blocks, or eight others wait already. */
  lemma WriteOutcomes(k: State, c: nat, data: Bytes, hs: seq<nat>)
    requires KInv(k) && MayCall(k, c)
    ensures k.chans[c].peer.value in k.chans
    ensures var out := Write(k, c, data, hs).1; var line := k.chans[k.chans[c].peer.value].recv;
      && (out.Done? <==> line != [])
      && (line == [] ==> out == Blocks || out == Fail(NoMemory))
      && (line == [] && |k.chans[c].send| < 8 ==> out == Blocks)
      && (line == [] && |k.chans[c].send| == 8 && NothingStale(k) ==> out == Fail(NoMemory))
  {
    hide S.Inv, WaitersOk, AllMatched, LinksOk, Waits, TransferAll, WriteBlocking, HandOver;
    R.LinkedPeer(k, c);
    var p, w := k.chans[c].peer.value, CurTid(k).value;
    if k.chans[p].recv == [] {
      BlockingWriteOutcome(k, c, w, data, hs);
    } else {
      R.HeadKnown(k, p, false);
    }
  }

  /** The current thread's transfer slots are empty. */
  predicate NothingStale(k: State) {
    CurTid(k).Some? && CurTid(k).value in k.ipc
    && k.ipc[CurTid(k).value].slots[0].None? && k.ipc[CurTid(k).value].slots[1].None?
  }

  lemma BlockingWriteOutcome(k: State, c: nat, w: nat, data: Bytes, hs: seq<nat>)
    requires KInv(k) && c in k.chans && w in k.ipc && CurTid(k) == Some(w)
    ensures var out := WriteBlocking(k, c, w, data, hs).1;
      && (out == Blocks || out == Fail(NoMemory))
      && (|k.chans[c].send| < 8 ==> out == Blocks)
      && (|k.chans[c].send| == 8 && NothingStale(k) ==> out == Fail(NoMemory))
  {
    hide S.Inv, S.BlockCurrent, S.Schedule, WaitersOk, AllMatched, LinksOk, Waits, Stash, UnstashAll;
    var k0 := SetCurState(SetIpc(k, w, data, 0), S.Blocked);
    R.PrepareKeeps(k, w, data, S.Blocked);
    ClearSlotsQuiet(k0, w);
    var k1 := ClearSlots(k0, w);
    StashCapsOnly(k1, w, if k1.ipc[w].table.Some? then k1.ipc[w].table.value else 0, FirstTwo(hs), 0);
    if NothingStale(k) {
      assert ClearSlot(k0, w, 0) == k0;
      assert k1 == k0;
    }
  }

  /** A read is done at once exactly when somebody waits to send; else it blocks, or is refused behind eight others. */
  lemma ReadOutcomes(k: State, c: nat, buf: Bytes)
    requires KInv(k) && MayCall(k, c)
    ensures k.chans[c].peer.value in k.chans
    ensures var out := Read(k, c, buf).1; var line := k.chans[k.chans[c].peer.value].send;
      && (out.Done? <==> line != [])
      && (out == Blocks <==> line == [] && |k.chans[c].recv| < 8)
      && (out == Fail(NoMemory) <==> line == [] && |k.chans[c].recv| >= 8)
  {
    hide S.Inv, S.BlockCurrent, S.Schedule, WaitersOk, AllMatched, LinksOk, Waits, UnstashAll, PickUp;
    R.LinkedPeer(k, c);
    var p := k.chans[c].peer.value;
    if k.chans[p].send != [] {
      R.HeadKnown(k, p, true);
    }
  }

  /**
   * A write that blocks: the message is on record, the writer is last among the senders of its end with the
   * message in its buffer, and sleeps.
   */
  lemma WriteJoins(k: State, c: nat, data: Bytes, hs: seq<nat>, i: nat)
    requires KInv(k) && R.Executing(k) && S.OtherReady(k.sched) && MayCall(k, c) && NothingStale(k)
    requires Write(k, c, data, hs).1 == Blocks && k.sched.current == Some(i)
    ensures var w, k' := CurTid(k).value, Write(k, c, data, hs).0;
      && k'.chans == k.chans[c := k.chans[c].(send := k.chans[c].send + [w],
                                              wlog := k.chans[c].wlog + [WriteReq(w, data)])]
      && w in k'.ipc && k'.ipc[w].buf == data && k'.ipc[w].actual == 0 && Sleeps(k', i, w)
  {
    hide S.Inv, S.Schedule, WaitersOk, AllMatched, LinksOk, Waits, Stash, TransferAll, UnstashAll;
    var w := CurTid(k).value;
    R.LinkedPeer(k, c);
    WriteOutcomes(k, c, data, hs);
    var k0 := SetCurState(SetIpc(k, w, data, 0), S.Blocked);
    R.PrepareKeeps(k, w, data, S.Blocked);
    assert ClearSlots(k0, w) == k0;
    StashCapsOnly(k0, w, if k0.ipc[w].table.Some? then k0.ipc[w].table.value else 0, FirstTwo(hs), 0);
    StashActual(k0, w, if k0.ipc[w].table.Some? then k0.ipc[w].table.value else 0, FirstTwo(hs), 0);
    SleepsOn(k, i, w);
  }

  lemma {:induction false} StashActual(k: State, tid: nat, t: nat, hs: seq<nat>, j: nat)
    requires tid in k.ipc
    ensures var k' := Stash(k, tid, t, hs, j); tid in k'.ipc && k'.ipc[tid].actual == k.ipc[tid].actual
    decreases |hs|
  {
    if hs != [] && t in k.tables && j < |k.ipc[tid].slots| {
      TakeOutCapsOnly(k, t, hs[0]);
      var (k1, c) := TakeOut(k, t, hs[0]);
      if c.Some? {
        StashActual(SetSlot(k1, tid, j, c), tid, t, hs[1..], j + 1);
      } else {
        StashActual(k1, tid, t, hs[1..], j);
      }
    }
  }

  /** A read that blocks: the reader is last among the receivers of its end with its buffer registered, and sleeps. */
  lemma ReadJoins(k: State, c: nat, buf: Bytes, i: nat)
    requires KInv(k) && R.Executing(k) && S.OtherReady(k.sched) && MayCall(k, c)
    requires Read(k, c, buf).1 == Blocks && k.sched.current == Some(i)
    ensures var r, k' := CurTid(k).value, Read(k, c, buf).0;
      && k'.chans == k.chans[c := k.chans[c].(recv := k.chans[c].recv + [r],
                                              rlog := k.chans[c].rlog + [ReadReq(r, |buf|)])]
      && r in k'.ipc && k'.ipc[r].buf == buf && k'.ipc[r].actual == 0 && Sleeps(k', i, r)
  {
    hide S.Inv, S.Schedule, WaitersOk, AllMatched, LinksOk, Waits, UnstashAll, PickUp;
    R.LinkedPeer(k, c);
    ReadOutcomes(k, c, buf);
    SleepsOn(k, i, CurTid(k).value);
  }

  /** The thread that blocks itself still sleeps when another one has been dispatched. */
  lemma SleepsOn(k: State, i: nat, tid: nat)
    requires KInv(k) && R.Executing(k) && S.OtherReady(k.sched) && k.sched.current == Some(i) && CurTid(k) == Some(tid)
    ensures Sleeps(k.(sched := S.Schedule(S.BlockCurrent(k.sched, S.Blocked))), i, tid)
  {
    hide S.Schedule, S.Inv, WaitersOk, AllMatched, LinksOk;
    InvOf(k);
    S.SetStateKeeps(k.sched, i, S.Blocked);
    R.ExitReady(k, S.Blocked);
    S.ScheduleWakesNobody(S.BlockCurrent(k.sched, S.Blocked));
    assert S.SleepKept(S.BlockCurrent(k.sched, S.Blocked).threads[i],
                       S.Schedule(S.BlockCurrent(k.sched, S.Blocked)).threads[i]);
  }

  /** A read refused behind eight others leaves every line, every log and every thread record as they were. */
  lemma ReadRefused(k: State, c: nat, buf: Bytes)
    requires KInv(k) && R.Executing(k) && MayCall(k, c) && Read(k, c, buf).1 == Fail(NoMemory)
    ensures var k' := Read(k, c, buf).0;
      k'.chans == k.chans && k'.sched == k.sched && k'.tables == k.tables
  {
    hide S.Inv, WaitersOk, AllMatched, LinksOk, Waits;
    R.LinkedPeer(k, c);
    ReadOutcomes(k, c, buf);
    BlockedAndBack(k);
  }

  /** Marking the running thread blocked and then running again changes nothing. */
  lemma BlockedAndBack(k: State)
    requires R.Executing(k)
    ensures S.BlockCurrent(S.BlockCurrent(k.sched, S.Blocked), S.Running) == k.sched
  {
    var i := k.sched.current.value;
    var ts := S.BlockCurrent(S.BlockCurrent(k.sched, S.Blocked), S.Running).threads;
    assert ts[i] == k.sched.threads[i];
    assert ts == k.sched.threads;
  }

  // ----- creating a channel -----

  /**
   * With two empty slots `i` and `j`, the lowest ones: both ends are open and each is the other's peer, and
   * the table gains exactly the two handles that name them.
   */
  lemma ChannelCreated(k: State, t: nat, c: nat, d: nat, rights: nat, i: nat, j: nat)
    requires t in k.tables && c != d && i < j < |k.tables[t]|
    requires k.tables[t][i].None? && k.tables[t][j].None?
    requires forall x :: 0 <= x < j && x != i ==> k.tables[t][x].Some?
    ensures CreateChannel(k, t, c, d, rights) == k.(
      chans := k.chans[c := Chan(true, Some(d), [], [], [], [], [])][d := Chan(true, Some(c), [], [], [], [], [])],
      tables := k.tables[t := k.tables[t][i := Some(Slot(k.nextHandle, rights, Obj(k.nextOid, ChannelKind(c))))]
                                         [j := Some(Slot(k.nextHandle + 1, rights,
                                           Obj(k.nextOid + 1, ChannelKind(d))))]],
      nextHandle := k.nextHandle + 2, nextOid := k.nextOid + 2)
  {
    var table := k.tables[t];
    FirstFreeIs(table, i);
    var one := table[i := Some(Slot(k.nextHandle, rights, Obj(k.nextOid, ChannelKind(c))))];
    assert one[j].None? && forall x :: 0 <= x < j ==> one[x].Some?;
    FirstFreeIs(one, j);
    var k' := CreateChannel(k, t, c, d, rights);
    assert k'.chans == k.chans[c := Chan(true, Some(d), [], [], [], [], [])][d :=
      Chan(true, Some(c), [], [], [], [], [])];
  }

  lemma FirstFreeIs(t: Table, i: nat)
    requires i < |t| && t[i].None? && forall x :: 0 <= x < i ==> t[x].Some?
    ensures FirstFree(t, 0) == Some(i)
  {
    var r := FirstFree(t, 0);
    assert r.Some? && !(r.value < i) && !(i < r.value);
  }
}
