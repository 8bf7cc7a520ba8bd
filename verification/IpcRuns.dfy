/** Every step of the kernel keeps the rendezvous invariant. */
module IpcRuns {
  import opened Common
  import opened HandleTables
  import opened Kernel
  import opened QuietSteps
  import opened Rendezvous
  import S = SchedSpec
  import W = WaiterArray

  /** A thread is executing a system call. */
  predicate Executing(k: State) {
    && k.sched.running && k.sched.current.Some? && k.sched.current.value < |k.sched.threads|
    && k.sched.threads[k.sched.current.value].Some?
    && k.sched.threads[k.sched.current.value].value.state == S.Running
  }

  /** Nobody waits as the current thread. */
  lemma CurNotWaiting(k: State, tid: nat)
    requires KInv(k) && CurTid(k) == Some(tid)
    ensures forall c: nat, b: bool, i: nat :: !At(k, c, b, i, tid)
  {
    forall c: nat, b: bool, i: nat ensures !At(k, c, b, i, tid) {
      if At(k, c, b, i, tid) {
        assert Waits(k, tid);
      }
    }
  }

  /** Registering a buffer and changing the state of the current thread. */
  lemma PrepareKeeps(k: State, tid: nat, buf: Bytes, st: S.ThreadState)
    requires KInv(k) && CurTid(k) == Some(tid) && tid in k.ipc && st != S.Ready
    ensures var k' := SetCurState(SetIpc(k, tid, buf, 0), st);
      KInv(k') && CurTid(k') == Some(tid) && k'.chans == k.chans && k'.ipc[tid].buf == buf
  {
    var k' := SetCurState(SetIpc(k, tid, buf, 0), st);
    S.SetStateKeeps(k.sched, k.sched.current.value, st);
    CurNotWaiting(k, tid);
    assert WaitersOk(k') by {
      forall c: nat, b: bool, i: nat, t: nat | At(k', c, b, i, t)
        ensures At(k, c, b, i, t) && t in k'.ipc && Parked(k'.sched, t)
      {
        assert At(k, c, b, i, t);
      }
      forall c: nat, b: bool | c in k'.chans ensures |Line(k', c, b)| <= W.MAX_WAITERS {
        assert |Line(k, c, b)| <= W.MAX_WAITERS;
      }
    }
    PrepareMatched(k, k', tid);
    WaitsSame(k, k', tid);
  }

  /** Buffers of waiting threads are untouched, so the pairing stands. */
  lemma PrepareMatched(k: State, k': State, tid: nat)
    requires KInv(k) && k'.chans == k.chans && !Waits(k, tid) && k'.ipc.Keys == k.ipc.Keys
    requires forall t :: t in k.ipc && t != tid ==> k'.ipc[t].buf == k.ipc[t].buf
    ensures LinksOk(k') && AllMatched(k')
  {
    forall c: nat, p: nat | Linked(k', c, p) ensures Matched(k', c, p) {
      assert Linked(k, c, p) && Matched(k, c, p);
      WaitersKnown(k, c);
      WaitersKnown(k, p);
      PairingFrame(k.chans[c].wlog, k.chans[p].rlog, k.chans[c].done, k.chans[c].send, k.chans[p].recv, k.ipc, k'.ipc);
    }
    forall c: nat | c in k'.chans && k'.chans[c].peer.Some?
      ensures k'.chans[c].peer.value != c && Linked(k', k'.chans[c].peer.value, c)
    {
      assert Linked(k, k.chans[c].peer.value, c);
    }
  }

  // ----- direct deliveries -----

  lemma HandOverMatched(k: State, c: nat, p: nat, w: nat, data: Bytes)
    requires KInv(k) && Linked(k, c, p) && k.chans[p].recv != [] && k.chans[p].recv[0] in k.ipc
    ensures var k' := HandOver(k, c, p, w, data); LinksOk(k') && AllMatched(k')
  {
    hide Pairing, WaitersOk, ThreadsKnown, Prefix, Min;
    var k' := HandOver(k, c, p, w, data);
    HandOverLinks(k, c, p, w, data);
    forall a: nat, b: nat | Linked(k', a, b) ensures Matched(k', a, b) {
      assert Linked(k, a, b) && Matched(k, a, b);
      assert Linked(k, b, a);
      if a == c {
        HandOverPair(k, c, p, w, data);
      } else {
        HandOverOther(k, c, p, w, data, a, b);
      }
    }
  }

  lemma HandOverLinks(k: State, c: nat, p: nat, w: nat, data: Bytes)
    requires LinksOk(k) && Linked(k, c, p) && k.chans[p].recv != [] && k.chans[p].recv[0] in k.ipc
    ensures c != p && LinksOk(HandOver(k, c, p, w, data))
  {
    var k' := HandOver(k, c, p, w, data);
    forall a: nat | a in k'.chans && k'.chans[a].peer.Some?
      ensures k'.chans[a].peer.value != a && Linked(k', k'.chans[a].peer.value, a)
    {
      assert Linked(k, k.chans[a].peer.value, a);
    }
  }

  /** The buffers of every waiter but the popped receiver are unchanged. */
  lemma HandOverBuffers(k: State, c: nat, p: nat, w: nat, data: Bytes, d: nat, b: bool, i: nat)
    requires KInv(k) && Linked(k, c, p) && k.chans[p].recv != [] && k.chans[p].recv[0] in k.ipc
    requires d in k.chans && i < |Line(k, d, b)| && !(d == p && !b && i == 0)
    ensures var k', t := HandOver(k, c, p, w, data), Line(k, d, b)[i];
      t in k.ipc && t in k'.ipc && k'.ipc[t].buf == k.ipc[t].buf
  {
    assert At(k, d, b, i, Line(k, d, b)[i]);
    assert At(k, p, false, 0, k.chans[p].recv[0]);
  }

  lemma HandOverOther(k: State, c: nat, p: nat, w: nat, data: Bytes, a: nat, b: nat)
    requires KInv(k) && Linked(k, c, p) && k.chans[p].recv != [] && k.chans[p].recv[0] in k.ipc
    requires Linked(k, a, b) && Linked(k, b, a) && a != c && c != p
    ensures Matched(HandOver(k, c, p, w, data), a, b)
  {
    hide Pairing, WaitersOk, ThreadsKnown, Prefix, Min;
    var k' := HandOver(k, c, p, w, data);
    assert Linked(k, p, c) && b != p;
    assert Matched(k, a, b);
    forall i: nat | i < |k.chans[a].send| ensures k.chans[a].send[i] in k.ipc && k.chans[a].send[i] in k'.ipc
      && k'.ipc[k.chans[a].send[i]].buf == k.ipc[k.chans[a].send[i]].buf
    {
      HandOverBuffers(k, c, p, w, data, a, true, i);
    }
    forall i: nat | i < |k.chans[b].recv| ensures k.chans[b].recv[i] in k.ipc && k.chans[b].recv[i] in k'.ipc
      && k'.ipc[k.chans[b].recv[i]].buf == k.ipc[k.chans[b].recv[i]].buf
    {
      HandOverBuffers(k, c, p, w, data, b, false, i);
    }
    PairingFrame(k.chans[a].wlog, k.chans[b].rlog, k.chans[a].done, k.chans[a].send, k.chans[b].recv, k.ipc, k'.ipc);
  }

  /** The new delivery pairs the first unpaired read with this write. */
  lemma HandOverPair(k: State, c: nat, p: nat, w: nat, data: Bytes)
    requires KInv(k) && Linked(k, c, p) && c != p && k.chans[p].recv != [] && k.chans[p].recv[0] in k.ipc
    ensures Matched(HandOver(k, c, p, w, data), c, p)
  {
    hide Pairing, WaitersOk, ThreadsKnown;
    var k' := HandOver(k, c, p, w, data);
    var r := k.chans[p].recv[0];
    assert Matched(k, c, p);
    var n := Min(|data|, |k.ipc[r].buf|);
    assert k'.ipc[r].buf[..n] == Prefix(data, |k.ipc[r].buf|);
    PairingWrite(k.chans[c].wlog, k.chans[p].rlog, k.chans[c].done, k.chans[c].send, k.chans[p].recv, k.ipc, w, data);
    forall i: nat | i < |k.chans[c].send| ensures k.chans[c].send[i] in k.ipc && k.chans[c].send[i] in k'.ipc
      && k'.ipc[k.chans[c].send[i]].buf == k.ipc[k.chans[c].send[i]].buf
    {
      HandOverBuffers(k, c, p, w, data, c, true, i);
    }
    forall i: nat | i < |k.chans[p].recv[1..]| ensures k.chans[p].recv[1..][i] in k.ipc
      && k.chans[p].recv[1..][i] in k'.ipc
      && k'.ipc[k.chans[p].recv[1..][i]].buf == k.ipc[k.chans[p].recv[1..][i]].buf
    {
      HandOverBuffers(k, c, p, w, data, p, false, i + 1);
    }
    PairingFrame(k'.chans[c].wlog, k'.chans[p].rlog, k'.chans[c].done, k'.chans[c].send, k'.chans[p].recv, k.ipc,
      k'.ipc);
  }

  lemma HandOverKeeps(k: State, c: nat, p: nat, w: nat, data: Bytes)
    requires KInv(k) && Linked(k, c, p) && k.chans[p].recv != [] && k.chans[p].recv[0] in k.ipc && CurTid(k) == Some(w)
    ensures var k' := HandOver(k, c, p, w, data); var r := k.chans[p].recv[0];
      KInv(k') && !Waits(k', r) && CurTid(k') == Some(w) && r != w
  {
    var k' := HandOver(k, c, p, w, data);
    var r := k.chans[p].recv[0];
    HandOverMatched(k, c, p, w, data);
    assert LinksOk(k) && c != p;
    assert At(k, p, false, 0, r);
    CurNotWaiting(k, w);
    PopKeepsWaiters(k, k', p, false);
  }

  /** Taking the head off one line keeps the lines sound, and the head waits nowhere else. */
  lemma PopKeepsWaiters(k: State, k': State, p: nat, b: bool)
    requires KInv(k) && p in k.chans && Line(k, p, b) != []
    requires k'.sched == k.sched && k'.ipc.Keys == k.ipc.Keys && k'.chans.Keys == k.chans.Keys
    requires forall d: nat, e: bool :: d in k.chans ==> Line(k', d, e) == if d == p && e == b then Line(k, d, e)[1..]
      else Line(k, d, e)
    ensures WaitersOk(k') && !Waits(k', Line(k, p, b)[0])
    ensures CurTid(k').Some? ==> !Waits(k', CurTid(k').value)
  {
    var r := Line(k, p, b)[0];
    assert At(k, p, b, 0, r);
    forall d: nat, e: bool, i: nat, t: nat | At(k', d, e, i, t)
      ensures At(k, d, e, if d == p && e == b then i + 1 else i, t)
      ensures t != r && t in k'.ipc && Parked(k'.sched, t)
    {
      assert At(k, d, e, if d == p && e == b then i + 1 else i, t);
    }
    forall d: nat, e: bool | d in k'.chans ensures |Line(k', d, e)| <= W.MAX_WAITERS {
      assert |Line(k, d, e)| <= W.MAX_WAITERS;
    }
    if CurTid(k').Some? {
      CurNotWaiting(k, CurTid(k').value);
    }
  }

  lemma PickUpMatched(k: State, c: nat, p: nat, r: nat, len: nat)
    requires KInv(k) && Linked(k, c, p) && k.chans[p].send != [] && k.chans[p].send[0] in k.ipc
    ensures var k' := PickUp(k, c, p, r, len); LinksOk(k') && AllMatched(k')
  {
    hide Pairing, ThreadsKnown, Prefix, Min;
    var k' := PickUp(k, c, p, r, len);
    assert Linked(k, p, c);
    forall a: nat, b: nat | Linked(k', a, b) ensures Matched(k', a, b) {
      assert Linked(k, a, b) && Linked(k, b, a) && Matched(k, a, b);
      WaitersKnown(k, a);
      WaitersKnown(k, b);
      if a == p {
        PairingRead(k.chans[p].wlog, k.chans[c].rlog, k.chans[p].done, k.chans[p].send, k.chans[c].recv, k.ipc, r, len);
      }
      PairingFrame(k'.chans[a].wlog, k'.chans[b].rlog, k'.chans[a].done, k'.chans[a].send, k'.chans[b].recv, k.ipc,
        k'.ipc);
    }
    forall a: nat | a in k'.chans && k'.chans[a].peer.Some?
      ensures k'.chans[a].peer.value != a && Linked(k', k'.chans[a].peer.value, a)
    {
      assert Linked(k, k.chans[a].peer.value, a);
    }
  }

  lemma PickUpKeeps(k: State, c: nat, p: nat, r: nat, len: nat)
    requires KInv(k) && Linked(k, c, p) && k.chans[p].send != [] && k.chans[p].send[0] in k.ipc && CurTid(k) == Some(r)
    ensures var k' := PickUp(k, c, p, r, len); var s := k.chans[p].send[0];
      KInv(k') && !Waits(k', s) && CurTid(k') == Some(r) && s != r
  {
    var k' := PickUp(k, c, p, r, len);
    PickUpMatched(k, c, p, r, len);
    assert LinksOk(k) && c != p;
    assert At(k, p, true, 0, k.chans[p].send[0]);
    CurNotWaiting(k, r);
    PopKeepsWaiters(k, k', p, true);
  }

  // ----- blocking -----

  /** A blocked current thread joins the back of a line and the processor is given away. */
  lemma JoinLineKeeps(k: State, c: nat, sending: bool, tid: nat, data: Bytes)
    requires KInv(k) && CurTid(k) == Some(tid) && c in k.chans && tid in k.ipc && k.ipc[tid].buf == data
    requires |Line(k, c, sending)| < W.MAX_WAITERS
    requires k.sched.threads[k.sched.current.value].value.state == S.Blocked && k.sched.running && S.OtherReady(k.sched)
    requires k.chans[c].peer.Some? ==>
      (Linked(k, c, k.chans[c].peer.value) && Line(k, k.chans[c].peer.value, !sending) == [])
    ensures var ch := k.chans[c];
      var ch' := if sending then ch.(send := ch.send + [tid], wlog := ch.wlog + [WriteReq(tid, data)])
                 else ch.(recv := ch.recv + [tid], rlog := ch.rlog + [ReadReq(tid, |data|)]);
      var k' := SetChan(k, c, ch');
      KInv(k'.(sched := S.Schedule(k'.sched)))
  {
    var ch := k.chans[c];
    var ch' := if sending then ch.(send := ch.send + [tid], wlog := ch.wlog + [WriteReq(tid, data)])
               else ch.(recv := ch.recv + [tid], rlog := ch.rlog + [ReadReq(tid, |data|)]);
    var k1 := SetChan(k, c, ch');
    JoinWaiters(k, c, sending, tid, k1);
    JoinMatched(k, c, sending, tid, data, k1);
    YieldKeeps(k1);
  }

  lemma JoinWaiters(k: State, c: nat, sending: bool, tid: nat, k1: State)
    requires KInv(k) && CurTid(k) == Some(tid) && c in k.chans && tid in k.ipc
    requires |Line(k, c, sending)| < W.MAX_WAITERS
    requires k.sched.threads[k.sched.current.value].value.state == S.Blocked
    requires k1.sched == k.sched && k1.ipc == k.ipc && k1.chans.Keys == k.chans.Keys
    requires forall d: nat, e: bool :: d in k.chans ==>
      Line(k1, d, e) == if d == c && e == sending then Line(k, d, e) + [tid] else Line(k, d, e)
    ensures WaitersOk(k1)
  {
    CurNotWaiting(k, tid);
    forall d: nat, e: bool, i: nat, t: nat | At(k1, d, e, i, t)
      ensures At(k, d, e, i, t) || (d == c && e == sending && i == |Line(k, c, sending)| && t == tid)
      ensures t in k1.ipc && Parked(k1.sched, t)
    {
      if !(d == c && e == sending && i == |Line(k, c, sending)|) {
        assert At(k, d, e, i, t);
      }
    }
    forall d: nat, e: bool | d in k1.chans ensures |Line(k1, d, e)| <= W.MAX_WAITERS {
      assert |Line(k, d, e)| <= W.MAX_WAITERS;
    }
  }

  lemma JoinMatched(k: State, c: nat, sending: bool, tid: nat, data: Bytes, k1: State)
    requires KInv(k) && c in k.chans && tid in k.ipc && k.ipc[tid].buf == data
    requires k.chans[c].peer.Some? ==>
      (Linked(k, c, k.chans[c].peer.value) && Line(k, k.chans[c].peer.value, !sending) == [])
    requires k1 == SetChan(k, c, if sending then k.chans[c].(send := k.chans[c].send + [tid], wlog :=
      k.chans[c].wlog + [WriteReq(tid, data)])
                                 else k.chans[c].(recv := k.chans[c].recv + [tid], rlog :=
                                   k.chans[c].rlog + [ReadReq(tid, |data|)]))
    ensures LinksOk(k1) && AllMatched(k1)
  {
    hide Pairing, ThreadsKnown, WaitersOk;
    forall a: nat, b: nat | Linked(k1, a, b) ensures Matched(k1, a, b) {
      assert Linked(k, a, b) && Linked(k, b, a);
      assert Matched(k, a, b);
      if a == c && sending {
        PairingJoinSend(k.chans[a].wlog, k.chans[b].rlog, k.chans[a].done, k.chans[a].send, k.ipc, tid);
      } else if b == c && !sending {
        PairingJoinRecv(k.chans[a].wlog, k.chans[b].rlog, k.chans[a].done, k.chans[b].recv, k.ipc, tid);
      }
    }
    forall a: nat | a in k1.chans && k1.chans[a].peer.Some?
      ensures k1.chans[a].peer.value != a && Linked(k1, k1.chans[a].peer.value, a)
    {
      assert Linked(k, k.chans[a].peer.value, a);
    }
  }

  /** Scheduling with somebody ready: sleepers stay asleep and the new current thread waits nowhere. */
  lemma YieldKeeps(k: State)
    requires Base(k) && k.sched.running && k.sched.current.Some?
    requires S.OtherReady(k.sched) || k.sched.threads[k.sched.current.value].value.state == S.Running
    ensures KInv(k.(sched := S.Schedule(k.sched)))
  {
    var k' := k.(sched := S.Schedule(k.sched));
    S.ScheduleKeeps(k.sched);
    S.ScheduleWakesNobody(k.sched);
    forall c: nat, b: bool, i: nat, t: nat | At(k', c, b, i, t)
      ensures At(k, c, b, i, t) && t in k'.ipc && Parked(k'.sched, t) && CurTid(k') != Some(t)
    {
      assert At(k, c, b, i, t);
      forall j: nat | j < |k'.sched.threads| && k'.sched.threads[j].Some? && k'.sched.threads[j].value.id == t
        ensures k'.sched.threads[j].value.state == S.Blocked || k'.sched.threads[j].value.state == S.Dead
      {
        assert S.SleepKept(k.sched.threads[j], k'.sched.threads[j]);
      }
    }
    forall c: nat, b: bool | c in k'.chans ensures |Line(k', c, b)| <= W.MAX_WAITERS {
      assert |Line(k, c, b)| <= W.MAX_WAITERS;
    }
    forall j: nat | j < |k'.sched.threads| && k'.sched.threads[j].Some? ensures k'.sched.threads[j].value.id in k'.ipc {
      assert S.SleepKept(k.sched.threads[j], k'.sched.threads[j]);
    }
    YieldMatched(k, k');
  }

  lemma YieldMatched(k: State, k': State)
    requires Base(k) && k'.chans == k.chans && k'.ipc == k.ipc
    ensures LinksOk(k') && AllMatched(k')
  {
    forall c: nat, p: nat | Linked(k', c, p) ensures Matched(k', c, p) {
      assert Linked(k, c, p);
    }
    forall c: nat | c in k'.chans && k'.chans[c].peer.Some?
      ensures k'.chans[c].peer.value != c && Linked(k', k'.chans[c].peer.value, c)
    {
      assert Linked(k, k.chans[c].peer.value, c);
    }
  }

  // ----- whole steps -----

  lemma QuietReady(k: State, k': State)
    requires ThreadsQuiet(k, k') && S.OtherReady(k.sched)
    ensures S.OtherReady(k'.sched)
  {
    var i: nat :| 0 <= i < |k.sched.threads| && S.ReadyAt(k.sched, i);
    assert SlotQuiet(k, k', i);
    assert S.ReadyAt(k'.sched, i);
  }

  /** A quiet step leaves the current thread's record alone. */
  lemma QuietCurState(k: State, k': State)
    requires ThreadsQuiet(k, k') && CurTid(k).Some?
    ensures CurTid(k') == CurTid(k)
    ensures k'.sched.current == k.sched.current
      && k'.sched.threads[k.sched.current.value] == k.sched.threads[k.sched.current.value]
  {
    QuietCur(k, k');
    assert SlotQuiet(k, k', k.sched.current.value);
  }

  lemma PreparedReady(k: State, tid: nat, buf: Bytes)
    requires S.OtherReady(k.sched) && CurTid(k).Some? && tid in k.ipc
    ensures S.OtherReady(SetCurState(SetIpc(k, tid, buf, 0), S.Blocked).sched)
  {
    var i: nat :| 0 <= i < |k.sched.threads| && S.ReadyAt(k.sched, i);
    assert S.ReadyAt(SetCurState(SetIpc(k, tid, buf, 0), S.Blocked).sched, i);
  }

  /** The part of a blocking write before the writer joins the line. */
  function StashedWrite(k: State, w: nat, data: Bytes, hs: seq<nat>): State
    requires w in k.ipc
  {
    var k1 := ClearSlots(SetCurState(SetIpc(k, w, data, 0), S.Blocked), w);
    if w in k1.ipc && k1.ipc[w].table.Some? then Stash(k1, w, k1.ipc[w].table.value, FirstTwo(hs), 0) else k1
  }

  lemma StashedWriteKeeps(k: State, w: nat, data: Bytes, hs: seq<nat>)
    requires KInv(k) && CurTid(k) == Some(w) && w in k.ipc && S.OtherReady(k.sched)
    ensures var k0, k2 := SetCurState(SetIpc(k, w, data, 0), S.Blocked), StashedWrite(k, w, data, hs);
      && KInv(k2) && Quiet(k0, k2) && CurTid(k2) == Some(w) && w in k2.ipc && k2.ipc[w].buf == data
      && S.OtherReady(k2.sched) && k2.sched.running == k.sched.running
      && k2.sched.threads[k2.sched.current.value].value.state == S.Blocked
  {
    hide Base, Quiet, ClearSlots, Stash;
    var k0 := SetCurState(SetIpc(k, w, data, 0), S.Blocked);
    PrepareKeeps(k, w, data, S.Blocked);
    PreparedReady(k, w, data);
    ClearSlotsQuiet(k0, w);
    var k1 := ClearSlots(k0, w);
    StashStep(k1, w, hs);
    var k2 := StashedWrite(k, w, data, hs);
    QuietTrans(k0, k1, k2);
    QuietFacts(k0, k2, w);
  }

  lemma StashStep(k1: State, w: nat, hs: seq<nat>)
    requires KInv(k1)
    ensures var k2 := if w in k1.ipc && k1.ipc[w].table.Some? then Stash(k1, w, k1.ipc[w].table.value, FirstTwo(hs), 0)
      else k1;
      KInv(k2) && Quiet(k1, k2)
  {
    if w in k1.ipc && k1.ipc[w].table.Some? {
      StashCapsOnly(k1, w, k1.ipc[w].table.value, FirstTwo(hs), 0);
      CapsOnlyQuiet(k1, Stash(k1, w, k1.ipc[w].table.value, FirstTwo(hs), 0));
      QuietKeeps(k1, Stash(k1, w, k1.ipc[w].table.value, FirstTwo(hs), 0));
    } else {
      QuietRefl(k1);
    }
  }

  lemma QuietFacts(k0: State, k2: State, w: nat)
    requires Quiet(k0, k2) && CurTid(k0) == Some(w) && w in k0.ipc && S.OtherReady(k0.sched)
    ensures CurTid(k2) == Some(w) && w in k2.ipc && k2.ipc[w].buf == k0.ipc[w].buf
    ensures S.OtherReady(k2.sched) && k2.sched.running == k0.sched.running
    ensures k2.sched.threads[k2.sched.current.value] == k0.sched.threads[k0.sched.current.value]
  {
    QuietCurState(k0, k2);
    QuietReady(k0, k2);
  }

  lemma WriteBlockingKeeps(k: State, c: nat, w: nat, data: Bytes, hs: seq<nat>)
    requires KInv(k) && Executing(k) && CurTid(k) == Some(w) && w in k.ipc && S.OtherReady(k.sched)
    requires c in k.chans && k.chans[c].peer.Some? && k.chans[c].peer.value in k.chans
    requires k.chans[k.chans[c].peer.value].recv == []
    ensures KInv(WriteBlocking(k, c, w, data, hs).0)
  {
    hide Base, Stash, ClearSlots, UnstashAll, S.Schedule;
    StashedWriteKeeps(k, w, data, hs);
    var k2 := StashedWrite(k, w, data, hs);
    StillNobody(SetCurState(SetIpc(k, w, data, 0), S.Blocked), k2, c, true);
    if |k2.chans[c].send| < W.MAX_WAITERS {
      JoinLineKeeps(k2, c, true, w, data);
    } else {
      var k3 := if k2.ipc[w].table.Some? then UnstashAll(k2, w, k2.ipc[w].table.value) else k2;
      if k2.ipc[w].table.Some? {
        UnstashAllQuiet(k2, w, k2.ipc[w].table.value);
        QuietCurState(k2, k3);
      }
      ResumeKeeps(k3);
    }
  }

  /** After a quiet step an end is still facing an empty line, or has lost its peer. */
  lemma StillNobody(k: State, k': State, c: nat, sending: bool)
    requires Quiet(k, k') && KInv(k') && c in k.chans && k.chans[c].peer.Some? && k.chans[c].peer.value in k.chans
    requires Line(k, k.chans[c].peer.value, !sending) == []
    ensures c in k'.chans
    ensures k'.chans[c].peer.Some? ==>
      (Linked(k', c, k'.chans[c].peer.value) && Line(k', k'.chans[c].peer.value, !sending) == [])
  {
    if k'.chans[c].peer.Some? {
      assert Linked(k', k'.chans[c].peer.value, c);
    }
  }

  lemma ResumeKeeps(k: State)
    requires KInv(k) && CurTid(k).Some?
    ensures KInv(SetCurState(k, S.Running))
  {
    var tid := CurTid(k).value;
    assert tid in k.ipc;
    var k' := SetCurState(k, S.Running);
    S.SetStateKeeps(k.sched, k.sched.current.value, S.Running);
    CurNotWaiting(k, tid);
    assert WaitersOk(k') by {
      forall c: nat, b: bool, i: nat, t: nat | At(k', c, b, i, t)
        ensures At(k, c, b, i, t) && t in k'.ipc && Parked(k'.sched, t)
      {
        assert At(k, c, b, i, t);
      }
      forall c: nat, b: bool | c in k'.chans ensures |Line(k', c, b)| <= W.MAX_WAITERS {
        assert |Line(k, c, b)| <= W.MAX_WAITERS;
      }
    }
    YieldMatched(k, k');
    WaitsSame(k, k', tid);
  }

  /** Waiters are threads the kernel knows, so a popped waiter is always found. */
  lemma HeadKnown(k: State, p: nat, b: bool)
    requires KInv(k) && p in k.chans && Line(k, p, b) != []
    ensures Line(k, p, b)[0] in k.ipc
  {
    assert At(k, p, b, 0, Line(k, p, b)[0]);
  }

  lemma LinkedPeer(k: State, c: nat)
    requires KInv(k) && c in k.chans && k.chans[c].peer.Some?
    ensures Linked(k, c, k.chans[c].peer.value)
  {
    assert Linked(k, k.chans[c].peer.value, c);
  }

  /** `write` keeps the invariant. */
  lemma WriteKeeps(k: State, c: nat, data: Bytes, hs: seq<nat>)
    requires KInv(k) && Executing(k) && S.OtherReady(k.sched) && c in k.chans
    ensures KInv(Write(k, c, data, hs).0)
  {
    hide Base, WriteBlocking, HandOver, TransferAll, Waits;
    var w := CurTid(k);
    if !k.chans[c].open || w.None? || w.value !in k.ipc || k.chans[c].peer.None? {
    } else {
      LinkedPeer(k, c);
      var p := k.chans[c].peer.value;
      if k.chans[p].recv == [] {
        WriteBlockingKeeps(k, c, w.value, data, hs);
      } else {
        HeadKnown(k, p, false);
        var r := k.chans[p].recv[0];
        HandOverKeeps(k, c, p, w.value, data);
        var k1 := HandOver(k, c, p, w.value, data);
        DeliverHandlesQuiet(k1, w.value, r, hs);
        WakeAfter(k1, DeliverHandles(k1, w.value, r, hs), r);
      }
    }
  }

  lemma DeliverHandlesQuiet(k: State, w: nat, r: nat, hs: seq<nat>)
    requires KInv(k)
    ensures Quiet(k, DeliverHandles(k, w, r, hs)) && KInv(DeliverHandles(k, w, r, hs))
  {
    if w in k.ipc && r in k.ipc && k.ipc[w].table.Some? && k.ipc[r].table.Some? {
      TransferAllQuiet(k, k.ipc[w].table.value, k.ipc[r].table.value, FirstTwo(hs));
    } else {
      QuietRefl(k);
    }
  }

  /** Waking the thread whose rendezvous just completed. */
  lemma WakeAfter(k1: State, k2: State, tid: nat)
    requires KInv(k1) && Quiet(k1, k2) && KInv(k2) && !Waits(k1, tid) && CurTid(k1) != Some(tid)
    ensures KInv(Wake(k2, tid))
  {
    QuietCur(k1, k2);
    if Waits(k2, tid) {
      QuietWaits(k1, k2, tid);
    }
    WakeQuiet(k2, tid);
    QuietKeeps(k2, Wake(k2, tid));
  }

  lemma ReadBlockingKeeps(k: State, c: nat, r: nat, buf: Bytes)
    requires KInv(k) && Executing(k) && CurTid(k) == Some(r) && r in k.ipc && S.OtherReady(k.sched)
    requires c in k.chans && k.chans[c].peer.Some? && Linked(k, c, k.chans[c].peer.value)
    requires k.chans[k.chans[c].peer.value].send == []
    ensures KInv(ReadBlocking(k, c, r, buf).0)
  {
    hide Base, S.Schedule;
    PrepareKeeps(k, r, buf, S.Blocked);
    PreparedReady(k, r, buf);
    var k1 := SetCurState(SetIpc(k, r, buf, 0), S.Blocked);
    if |k1.chans[c].recv| < W.MAX_WAITERS {
      JoinLineKeeps(k1, c, false, r, buf);
    } else {
      ResumeKeeps(k1);
    }
  }

  /** `read` keeps the invariant. */
  lemma ReadKeeps(k: State, c: nat, buf: Bytes)
    requires KInv(k) && Executing(k) && S.OtherReady(k.sched) && c in k.chans
    ensures KInv(Read(k, c, buf).0)
  {
    hide Base, ReadBlocking, PickUp, UnstashAll, Waits;
    var r := CurTid(k);
    if !k.chans[c].open || r.None? || r.value !in k.ipc || k.chans[c].peer.None? {
    } else {
      LinkedPeer(k, c);
      var p := k.chans[c].peer.value;
      if k.chans[p].send == [] {
        ReadBlockingKeeps(k, c, r.value, buf);
      } else {
        HeadKnown(k, p, true);
        var s := k.chans[p].send[0];
        PickUpKeeps(k, c, p, r.value, |buf|);
        var k1 := PickUp(k, c, p, r.value, |buf|);
        CollectHandlesQuiet(k1, r.value, s);
        WakeAfter(k1, CollectHandles(k1, r.value, s), s);
      }
    }
  }

  lemma CollectHandlesQuiet(k: State, r: nat, s: nat)
    requires KInv(k)
    ensures Quiet(k, CollectHandles(k, r, s)) && KInv(CollectHandles(k, r, s))
  {
    if r in k.ipc && k.ipc[r].table.Some? {
      UnstashAllQuiet(k, s, k.ipc[r].table.value);
    } else {
      QuietRefl(k);
    }
  }

  lemma CloseHandleKeeps(k: State, t: nat, hv: nat)
    requires KInv(k) && t in k.tables
    ensures KInv(CloseHandle(k, t, hv))
  {
    hide Drop, WaitersOk, LinksOk, AllMatched;
    var (k1, c) := Remove(k, t, hv);
    CapsOnlyQuiet(k, k1);
    QuietKeeps(k, k1);
    if c.Some? {
      DropQuiet(k1, c.value.obj);
      QuietKeeps(k1, Drop(k1, c.value.obj));
    }
  }

  /** Fresh ends, linked to each other or to nobody, join the others. */
  ghost predicate FreshEnds(k: State, k': State) {
    && k'.sched == k.sched && k'.ipc == k.ipc
    && (forall a :: a in k.chans ==> a in k'.chans && k'.chans[a] == k.chans[a])
    && (forall a: nat :: a in k'.chans && a !in k.chans ==>
          k'.chans[a] == FRESH_CHAN.(peer := k'.chans[a].peer))
    && (forall a: nat :: a in k'.chans && a !in k.chans && k'.chans[a].peer.Some? ==>
          var b := k'.chans[a].peer.value; b != a && b !in k.chans && Linked(k', b, a))
  }

  lemma CreateChannelIsFresh(k: State, t: nat, c: nat, d: nat, rights: nat)
    requires t in k.tables && c != d && c !in k.chans && d !in k.chans
    ensures FreshEnds(k, CreateChannel(k, t, c, d, rights))
  {
    hide Added, HasRoom;
  }

  lemma FreshEndsMatched(k: State, k': State)
    requires Base(k) && FreshEnds(k, k')
    ensures LinksOk(k') && AllMatched(k')
  {
    hide WaitersOk, ThreadsKnown;
    forall a: nat | a in k'.chans && k'.chans[a].peer.Some?
      ensures k'.chans[a].peer.value != a && Linked(k', k'.chans[a].peer.value, a)
    {
      if a in k.chans {
        assert Linked(k, k.chans[a].peer.value, a);
      }
    }
    forall a: nat, b: nat | Linked(k', a, b) ensures Matched(k', a, b) {
      if a in k.chans {
        assert Linked(k, k.chans[a].peer.value, a);
        assert Linked(k, a, b) && Matched(k, a, b);
      }
    }
  }

  lemma CreateChannelKeeps(k: State, t: nat, c: nat, d: nat, rights: nat)
    requires KInv(k) && t in k.tables && c != d && c !in k.chans && d !in k.chans
    ensures KInv(CreateChannel(k, t, c, d, rights))
  {
    hide CreateChannel, AllMatched, LinksOk;
    var k' := CreateChannel(k, t, c, d, rights);
    CreateChannelIsFresh(k, t, c, d, rights);
    FreshEndsMatched(k, k');
    forall a: nat, b: bool, i: nat, tid: nat | At(k', a, b, i, tid) ensures At(k, a, b, i, tid) {
    }
    forall a: nat, b: bool | a in k'.chans ensures |Line(k', a, b)| <= W.MAX_WAITERS {
      if a in k.chans {
        assert |Line(k, a, b)| <= W.MAX_WAITERS;
      }
    }
    if CurTid(k').Some? {
      CurNotWaiting(k, CurTid(k').value);
    }
  }

  datatype Step =
    | WriteStep(chan: nat, data: Bytes, handles: seq<nat>)
    | ReadStep(chan: nat, buf: Bytes)
    | CloseStep(table: nat, handle: nat)
    | CreateStep(table: nat, first: nat, second: nat, rights: nat)
    | CreateObjectStep(table: nat, kind: Kind, rights: nat)
    | AddThreadStep(thread: S.Thread, own: Option<nat>)
    | YieldStep
    | ExitStep

  /**
   * Each step is taken by a running thread while another thread is ready, as the
   * loader's yield loop guarantees (userspace/services/loader/src/main.rs:40).
   */
  predicate Enabled(k: State, e: Step) {
    && Executing(k) && S.OtherReady(k.sched)
    && match e
       case WriteStep(c, data, hs) => c in k.chans
       case ReadStep(c, buf) => c in k.chans
       case CloseStep(t, hv) => t in k.tables
       case CreateStep(t, c, d, rights) => t in k.tables && c != d && c !in k.chans && d !in k.chans
       case CreateObjectStep(t, kind, rights) => t in k.tables && !kind.ChannelKind?
       case AddThreadStep(t, own) => S.Addable(k.sched, t) && t.id !in k.ipc
       case YieldStep => true
       case ExitStep => true
  }

  function Next(k: State, e: Step): State
    requires Enabled(k, e)
  {
    match e
    case WriteStep(c, data, hs) => Write(k, c, data, hs).0
    case ReadStep(c, buf) => Read(k, c, buf).0
    case CloseStep(t, hv) => CloseHandle(k, t, hv)
    case CreateStep(t, c, d, rights) => CreateChannel(k, t, c, d, rights)
    case CreateObjectStep(t, kind, rights) => CreateObject(k, t, kind, rights)
    case AddThreadStep(t, own) => AddThread(k, t, own)
    case YieldStep => k.(sched := S.Schedule(k.sched))
    case ExitStep => k.(sched := S.Schedule(S.BlockCurrent(k.sched, S.Dead)))
  }

  /** A thread created while channels are in use: it waits nowhere, and nobody's buffer changes. */
  lemma AddThreadKeeps(k: State, t: S.Thread, own: Option<nat>)
    requires KInv(k) && S.Addable(k.sched, t) && t.id !in k.ipc
    ensures KInv(AddThread(k, t, own))
  {
    hide WaitersOk, LinksOk, AllMatched, S.Inv, S.Requeue;
    var k' := AddThread(k, t, own);
    S.AddKeeps(k.sched, t);
    AddedWaiters(k, k', t);
    AddedMatched(k, k');
    AddedCur(k, k', t);
    forall c: nat, b: bool, i: nat, tid: nat | At(k', c, b, i, tid) ensures At(k, c, b, i, tid) {
    }
  }

  lemma AddedCur(k: State, k': State, t: S.Thread)
    requires S.Inv(k.sched) && S.EmptySlot(k.sched.threads, 0).Some? && k'.sched == S.Add(k.sched, t)
    ensures CurTid(k') == CurTid(k)
  {
    if k.sched.current.Some? {
      S.CurrentSlot(k.sched);
    }
  }

  lemma AddedWaiters(k: State, k': State, t: S.Thread)
    requires WaitersOk(k) && S.EmptySlot(k.sched.threads, 0).Some? && k'.sched == S.Add(k.sched, t)
      && k'.chans == k.chans
    requires t.id !in k.ipc && forall x :: x in k.ipc ==> x in k'.ipc
    ensures WaitersOk(k')
  {
    forall c: nat, b: bool, i: nat, tid: nat | At(k', c, b, i, tid) ensures At(k, c, b, i, tid) && tid in k'.ipc
      && Parked(k'.sched, tid) {
      assert At(k, c, b, i, tid);
      assert tid != t.id;
    }
    forall c: nat, b: bool | c in k'.chans ensures |Line(k', c, b)| <= W.MAX_WAITERS {
      assert |Line(k, c, b)| <= W.MAX_WAITERS;
    }
  }

  lemma AddedMatched(k: State, k': State)
    requires Base(k) && k'.chans == k.chans && forall x :: x in k.ipc ==> x in k'.ipc && k'.ipc[x] == k.ipc[x]
    ensures LinksOk(k') && AllMatched(k')
  {
    forall c: nat | c in k'.chans && k'.chans[c].peer.Some?
      ensures k'.chans[c].peer.value != c && Linked(k', k'.chans[c].peer.value, c)
    {
      assert Linked(k, k.chans[c].peer.value, c);
    }
    forall c: nat, p: nat | Linked(k', c, p) ensures Matched(k', c, p) {
      assert Linked(k, c, p) && Matched(k, c, p);
      WaitersKnown(k, c);
      WaitersKnown(k, p);
      PairingFrame(k.chans[c].wlog, k.chans[p].rlog, k.chans[c].done, k.chans[c].send, k.chans[p].recv, k.ipc, k'.ipc);
    }
  }

  lemma ExitKeeps(k: State)
    requires KInv(k) && Executing(k) && S.OtherReady(k.sched)
    ensures KInv(k.(sched := S.Schedule(S.BlockCurrent(k.sched, S.Dead))))
  {
    hide S.Schedule, WaitersOk, LinksOk, AllMatched;
    var tid := CurTid(k).value;
    assert tid in k.ipc;
    var k1 := SetCurState(SetIpc(k, tid, k.ipc[tid].buf, 0), S.Dead);
    var k2 := k.(sched := S.BlockCurrent(k.sched, S.Dead));
    PrepareKeeps(k, tid, k.ipc[tid].buf, S.Dead);
    ExitBase(k1, k2);
    ExitReady(k, S.Dead);
    YieldKeeps(k2);
  }

  lemma ExitReady(k: State, st: S.ThreadState)
    requires S.OtherReady(k.sched) && k.sched.current.Some?
    ensures S.OtherReady(S.BlockCurrent(k.sched, st))
  {
    var i: nat :| 0 <= i < |k.sched.threads| && S.ReadyAt(k.sched, i);
    assert S.ReadyAt(S.BlockCurrent(k.sched, st), i);
  }

  lemma ExitBase(k1: State, k2: State)
    requires Base(k1) && k2.sched == k1.sched && k2.chans == k1.chans && k2.ipc.Keys == k1.ipc.Keys
    requires forall t :: t in k1.ipc ==> k2.ipc[t].buf == k1.ipc[t].buf && k2.ipc[t].table == k1.ipc[t].table
    ensures Base(k2)
  {
    CapsOnlyQuiet(k1, k2);
    QuietWaitersOk(k1, k2);
    QuietMatched(k1, k2);
  }

  lemma StepKeeps(k: State, e: Step)
    requires KInv(k) && Enabled(k, e)
    ensures KInv(Next(k, e))
  {
    hide Base, Write, Read, CloseHandle, CreateChannel, AddThread, S.Schedule;
    match e
    case WriteStep(c, data, hs) => WriteKeeps(k, c, data, hs);
    case ReadStep(c, buf) => ReadKeeps(k, c, buf);
    case CloseStep(t, hv) => CloseHandleKeeps(k, t, hv);
    case CreateStep(t, c, d, rights) => CreateChannelKeeps(k, t, c, d, rights);
    case CreateObjectStep(t, kind, rights) => ObjectKeeps(k, t, kind, rights);
    case AddThreadStep(t, own) => AddThreadKeeps(k, t, own);
    case YieldStep => YieldKeeps(k);
    case ExitStep => ExitKeeps(k);
  }

  lemma ObjectKeeps(k: State, t: nat, kind: Kind, rights: nat)
    requires KInv(k) && t in k.tables && !kind.ChannelKind?
    ensures KInv(CreateObject(k, t, kind, rights))
  {
    CapsOnlyQuiet(k, CreateObject(k, t, kind, rights));
    QuietKeeps(k, CreateObject(k, t, kind, rights));
  }

  ghost predicate IsRun(states: seq<State>, steps: seq<Step>) {
    && |states| == |steps| + 1
    && forall n :: 0 <= n < |steps| ==> Enabled(states[n], steps[n]) && states[n + 1] == Next(states[n], steps[n])
  }

  /**
   * Rendezvous safety over whole runs: on linked ends senders and receivers never
   * wait for each other, and every delivery is the write and the read of its rank.
   */
  lemma {:induction false} RendezvousOverRuns(states: seq<State>, steps: seq<Step>, n: nat)
    requires IsRun(states, steps) && KInv(states[0]) && n < |states|
    ensures KInv(states[n])
    ensures forall c: nat, p: nat :: Linked(states[n], c, p) ==>
      && (states[n].chans[c].send == [] || states[n].chans[p].recv == [])
      && Matched(states[n], c, p)
  {
    if n > 0 {
      RendezvousOverRuns(states, steps, n - 1);
      StepKeeps(states[n - 1], steps[n - 1]);
    }
    forall c: nat, p: nat | Linked(states[n], c, p)
      ensures states[n].chans[c].send == [] || states[n].chans[p].recv == []
    {
      NoMissedRendezvous(states[n], c, p);
    }
  }

  /** A scheduler whose threads have IPC records, without channels, satisfies the invariant. */
  lemma InitialInv(k: State)
    requires ThreadsKnown(k) && k.chans == map[]
    ensures KInv(k)
  {
  }
}
