/**
 * Rendezvous safety over all runs (kernel/src/ipc/channel.rs): on linked ends a
 * blocked sender never faces a blocked receiver, and the n-th message delivered is
 * the n-th write matched with the n-th read, cut to the shorter length.
 */
module Rendezvous {
  import opened Common
  import opened HandleTables
  import opened Kernel
  import S = SchedSpec
  import W = WaiterArray

  // ----- invariant -----

  /** Thread `tid` is asleep in the kernel or dead. */
  ghost predicate Parked(s: S.Sched, tid: nat) {
    forall i :: 0 <= i < |s.threads| && s.threads[i].Some? && s.threads[i].value.id == tid ==>
      s.threads[i].value.state == S.Blocked || s.threads[i].value.state == S.Dead
  }

  function Line(k: State, c: nat, sending: bool): seq<nat>
    requires c in k.chans
  {
    if sending then k.chans[c].send else k.chans[c].recv
  }

  predicate At(k: State, c: nat, sending: bool, i: nat, tid: nat) {
    c in k.chans && i < |Line(k, c, sending)| && Line(k, c, sending)[i] == tid
  }

  ghost predicate Waits(k: State, tid: nat) {
    exists c: nat, b: bool, i: nat :: At(k, c, b, i, tid)
  }

  /** Waiters are parked threads, each in one place of one line; no line exceeds its array. */
  ghost predicate WaitersOk(k: State) {
    && (forall c: nat, b: bool, i: nat, tid: nat :: At(k, c, b, i, tid) ==> tid in k.ipc && Parked(k.sched, tid))
    && (forall c: nat, b: bool, i: nat, d: nat, e: bool, j: nat, tid: nat ::
          At(k, c, b, i, tid) && At(k, d, e, j, tid) ==> c == d && b == e && i == j)
    && (forall c: nat, b: bool :: c in k.chans ==> |Line(k, c, b)| <= W.MAX_WAITERS)
  }

  predicate Linked(k: State, c: nat, p: nat) {
    c in k.chans && p in k.chans && k.chans[c].peer == Some(p)
  }

  /** Peers point at each other. */
  ghost predicate LinksOk(k: State) {
    forall c: nat :: c in k.chans && k.chans[c].peer.Some? ==>
      k.chans[c].peer.value != c && Linked(k, k.chans[c].peer.value, c)
  }

  /** Waiting sender `i` is the writer of the `i`-th unpaired write and still holds its message. */
  predicate SenderOk(w: seq<WriteReq>, n: nat, send: seq<nat>, ipc: map<nat, ThreadIpc>, i: nat) {
    && i < |send| && n + i < |w|
    && send[i] == w[n + i].tid && send[i] in ipc && ipc[send[i]].buf == w[n + i].data
  }

  predicate ReceiverOk(r: seq<ReadReq>, n: nat, recv: seq<nat>, ipc: map<nat, ThreadIpc>, i: nat) {
    && i < |recv| && n + i < |r|
    && recv[i] == r[n + i].tid && recv[i] in ipc && |ipc[recv[i]].buf| == r[n + i].len
  }

  predicate DeliveryOk(w: seq<WriteReq>, r: seq<ReadReq>, d: seq<Delivery>, i: nat) {
    i < |d| && i < |w| && i < |r| && d[i] == Delivery(w[i].tid, r[i].tid, Prefix(w[i].data, r[i].len))
  }

  /** Deliveries pair writes and reads in order; what is unpaired is exactly who waits. */
  ghost predicate Pairing(w: seq<WriteReq>, r: seq<ReadReq>, d: seq<Delivery>, send: seq<nat>, recv: seq<nat>,
                          ipc: map<nat, ThreadIpc>)
  {
    && |d| == Min(|w|, |r|)
    && (forall i: nat :: i < |d| ==> DeliveryOk(w, r, d, i))
    && |send| == |w| - |d| && |recv| == |r| - |d|
    && (forall i: nat :: i < |send| ==> SenderOk(w, |d|, send, ipc, i))
    && (forall i: nat :: i < |recv| ==> ReceiverOk(r, |d|, recv, ipc, i))
  }

  /** Messages from end `c` to its peer `p`. */
  ghost predicate Matched(k: State, c: nat, p: nat)
    requires c in k.chans && p in k.chans
  {
    Pairing(k.chans[c].wlog, k.chans[p].rlog, k.chans[c].done, k.chans[c].send, k.chans[p].recv, k.ipc)
  }

  /** Only the buffers of the waiters matter. */
  lemma PairingFrame(w: seq<WriteReq>, r: seq<ReadReq>, d: seq<Delivery>, send: seq<nat>, recv: seq<nat>,
                     ipc: map<nat, ThreadIpc>, ipc': map<nat, ThreadIpc>)
    requires Pairing(w, r, d, send, recv, ipc)
    requires forall i: nat :: i < |send| ==> send[i] in ipc && send[i] in ipc' && ipc'[send[i]].buf == ipc[send[i]].buf
    requires forall i: nat :: i < |recv| ==>
      recv[i] in ipc && recv[i] in ipc' && |ipc'[recv[i]].buf| == |ipc[recv[i]].buf|
    ensures Pairing(w, r, d, send, recv, ipc')
  {
    forall i: nat | i < |send| ensures SenderOk(w, |d|, send, ipc', i) {
      assert SenderOk(w, |d|, send, ipc, i);
    }
    forall i: nat | i < |recv| ensures ReceiverOk(r, |d|, recv, ipc', i) {
      assert ReceiverOk(r, |d|, recv, ipc, i);
    }
  }

  /** A write that finds a receiver waiting completes the oldest unpaired read. */
  lemma PairingWrite(w: seq<WriteReq>, r: seq<ReadReq>, d: seq<Delivery>, send: seq<nat>, recv: seq<nat>,
                     ipc: map<nat, ThreadIpc>, tid: nat, data: Bytes)
    requires Pairing(w, r, d, send, recv, ipc) && recv != [] && recv[0] in ipc
    ensures Pairing(w + [WriteReq(tid, data)], r, d + [Delivery(tid, recv[0], Prefix(data, |ipc[recv[0]].buf|))],
                    send, recv[1..], ipc)
  {
    var w', d' := w + [WriteReq(tid, data)], d + [Delivery(tid, recv[0], Prefix(data, |ipc[recv[0]].buf|))];
    assert ReceiverOk(r, |d|, recv, ipc, 0);
    forall i: nat | i < |d'| ensures DeliveryOk(w', r, d', i) {
      if i < |d| {
        assert DeliveryOk(w, r, d, i);
      }
    }
    forall i: nat | i < |recv[1..]| ensures ReceiverOk(r, |d'|, recv[1..], ipc, i) {
      assert ReceiverOk(r, |d|, recv, ipc, i + 1);
    }
  }

  /** A read that finds a sender waiting completes the oldest unpaired write. */
  lemma PairingRead(w: seq<WriteReq>, r: seq<ReadReq>, d: seq<Delivery>, send: seq<nat>, recv: seq<nat>,
                    ipc: map<nat, ThreadIpc>, tid: nat, len: nat)
    requires Pairing(w, r, d, send, recv, ipc) && send != [] && send[0] in ipc
    ensures Pairing(w, r + [ReadReq(tid, len)], d + [Delivery(send[0], tid, Prefix(ipc[send[0]].buf, len))],
                    send[1..], recv, ipc)
  {
    var r', d' := r + [ReadReq(tid, len)], d + [Delivery(send[0], tid, Prefix(ipc[send[0]].buf, len))];
    assert SenderOk(w, |d|, send, ipc, 0);
    forall i: nat | i < |d'| ensures DeliveryOk(w, r', d', i) {
      if i < |d| {
        assert DeliveryOk(w, r, d, i);
      }
    }
    forall i: nat | i < |send[1..]| ensures SenderOk(w, |d'|, send[1..], ipc, i) {
      assert SenderOk(w, |d|, send, ipc, i + 1);
    }
  }

  /** A write that finds nobody queues behind the other senders. */
  lemma PairingJoinSend(w: seq<WriteReq>, r: seq<ReadReq>, d: seq<Delivery>, send: seq<nat>,
                        ipc: map<nat, ThreadIpc>, tid: nat)
    requires Pairing(w, r, d, send, [], ipc) && tid in ipc
    ensures Pairing(w + [WriteReq(tid, ipc[tid].buf)], r, d, send + [tid], [], ipc)
  {
    var w', send' := w + [WriteReq(tid, ipc[tid].buf)], send + [tid];
    forall i: nat | i < |d| ensures DeliveryOk(w', r, d, i) {
      assert DeliveryOk(w, r, d, i);
    }
    forall i: nat | i < |send'| ensures SenderOk(w', |d|, send', ipc, i) {
      if i < |send| {
        assert SenderOk(w, |d|, send, ipc, i);
      }
    }
  }

  lemma PairingJoinRecv(w: seq<WriteReq>, r: seq<ReadReq>, d: seq<Delivery>, recv: seq<nat>,
                        ipc: map<nat, ThreadIpc>, tid: nat)
    requires Pairing(w, r, d, [], recv, ipc) && tid in ipc
    ensures Pairing(w, r + [ReadReq(tid, |ipc[tid].buf|)], d, [], recv + [tid], ipc)
  {
    var r', recv' := r + [ReadReq(tid, |ipc[tid].buf|)], recv + [tid];
    forall i: nat | i < |d| ensures DeliveryOk(w, r', d, i) {
      assert DeliveryOk(w, r, d, i);
    }
    forall i: nat | i < |recv'| ensures ReceiverOk(r', |d|, recv', ipc, i) {
      if i < |recv| {
        assert ReceiverOk(r, |d|, recv, ipc, i);
      }
    }
  }

  ghost predicate AllMatched(k: State) {
    forall c: nat, p: nat :: Linked(k, c, p) ==> Matched(k, c, p)
  }

  ghost predicate ThreadsKnown(k: State) {
    && S.Inv(k.sched)
    && forall i :: 0 <= i < |k.sched.threads| && k.sched.threads[i].Some? ==> k.sched.threads[i].value.id in k.ipc
  }

  ghost predicate Base(k: State) {
    ThreadsKnown(k) && WaitersOk(k) && LinksOk(k) && AllMatched(k)
  }

  ghost predicate KInv(k: State) {
    && Base(k)
    && (CurTid(k).Some? ==> !Waits(k, CurTid(k).value))
  }

  lemma WaitersKnown(k: State, c: nat)
    requires WaitersOk(k) && c in k.chans
    ensures forall i: nat :: i < |k.chans[c].send| ==>
      At(k, c, true, i, k.chans[c].send[i]) && k.chans[c].send[i] in k.ipc
    ensures forall i: nat :: i < |k.chans[c].recv| ==>
      At(k, c, false, i, k.chans[c].recv[i]) && k.chans[c].recv[i] in k.ipc
  {
    forall i: nat | i < |k.chans[c].send| ensures At(k, c, true, i, k.chans[c].send[i]) {
    }
    forall i: nat | i < |k.chans[c].recv| ensures At(k, c, false, i, k.chans[c].recv[i]) {
    }
  }

  /** The safety property the invariant is for. */
  lemma NoMissedRendezvous(k: State, c: nat, p: nat)
    requires KInv(k) && Linked(k, c, p)
    ensures k.chans[c].send == [] || k.chans[p].recv == []
  {
  }

  // ----- steps that leave waiters alone -----

  /** Thread records only move from asleep to ready, and only if they wait on no channel any more. */
  ghost predicate SlotQuiet(k: State, k': State, i: nat)
    requires i < |k.sched.threads| && |k'.sched.threads| == |k.sched.threads|
  {
    var t, t' := k.sched.threads[i], k'.sched.threads[i];
    t' == t
    || (&& t.Some? && t' == Some(t.value.(state := S.Ready))
        && (t.value.state == S.Blocked || t.value.state == S.Sleeping)
        && !Waits(k', t.value.id) && k.sched.current != Some(i))
  }

  ghost predicate ThreadsQuiet(k: State, k': State) {
    && S.Inv(k'.sched)
    && k'.sched.current == k.sched.current && k'.sched.running == k.sched.running
    && |k'.sched.threads| == |k.sched.threads|
    && (forall i: nat :: i < |k.sched.threads| ==> SlotQuiet(k, k', i))
    && k'.ipc.Keys == k.ipc.Keys
    && (forall tid :: tid in k.ipc ==> k'.ipc[tid].buf == k.ipc[tid].buf && k'.ipc[tid].table == k.ipc[tid].table)
  }

  /** Ends stay as they are or are closed; a linked end keeps its peer as it is. */
  ghost predicate ChansQuiet(k: State, k': State) {
    && k'.chans.Keys == k.chans.Keys
    && (forall c :: c in k.chans ==> k'.chans[c] == k.chans[c] || k'.chans[c] == ClosedEnd(k.chans[c]))
    && (forall c: nat, p: nat :: Linked(k', c, p) ==> k'.chans[c] == k.chans[c] && k'.chans[p] == k.chans[p])
  }

  ghost predicate Quiet(k: State, k': State) {
    ThreadsQuiet(k, k') && ChansQuiet(k, k')
  }

  lemma QuietWaits(k: State, k': State, tid: nat)
    requires ChansQuiet(k, k') && Waits(k', tid)
    ensures Waits(k, tid)
  {
    var c: nat, b: bool, i: nat :| At(k', c, b, i, tid);
    assert At(k, c, b, i, tid);
  }

  lemma QuietParked(k: State, k': State, tid: nat)
    requires ThreadsQuiet(k, k') && Parked(k.sched, tid) && Waits(k', tid)
    ensures Parked(k'.sched, tid)
  {
    forall i: nat | i < |k'.sched.threads| && k'.sched.threads[i].Some? && k'.sched.threads[i].value.id == tid
      ensures k'.sched.threads[i].value.state == S.Blocked || k'.sched.threads[i].value.state == S.Dead
    {
      assert SlotQuiet(k, k', i);
    }
  }

  lemma QuietCur(k: State, k': State)
    requires ThreadsQuiet(k, k')
    ensures CurTid(k') == CurTid(k)
  {
    if k.sched.current.Some? && k.sched.current.value < |k.sched.threads| {
      assert SlotQuiet(k, k', k.sched.current.value);
    }
  }

  lemma QuietWaitersOk(k: State, k': State)
    requires Base(k) && Quiet(k, k')
    ensures WaitersOk(k')
  {
    forall c: nat, b: bool, i: nat, tid: nat | At(k', c, b, i, tid)
      ensures At(k, c, b, i, tid) && tid in k'.ipc && Parked(k'.sched, tid)
    {
      assert At(k, c, b, i, tid);
      assert Waits(k', tid);
      QuietParked(k, k', tid);
    }
    forall c: nat, b: bool | c in k'.chans ensures |Line(k', c, b)| <= W.MAX_WAITERS {
      assert |Line(k, c, b)| <= W.MAX_WAITERS;
    }
  }

  lemma QuietMatched(k: State, k': State)
    requires Base(k) && Quiet(k, k')
    ensures LinksOk(k') && AllMatched(k')
  {
    forall c: nat | c in k'.chans && k'.chans[c].peer.Some?
      ensures k'.chans[c].peer.value != c && Linked(k', k'.chans[c].peer.value, c)
    {
      assert k'.chans[c] == k.chans[c];
      var p := k.chans[c].peer.value;
      assert Linked(k, p, c);
      assert Linked(k', c, p);
    }
    forall c: nat, p: nat | Linked(k', c, p) ensures Matched(k', c, p) {
      assert k'.chans[c] == k.chans[c] && k'.chans[p] == k.chans[p];
      assert Linked(k, c, p) && Matched(k, c, p);
      WaitersKnown(k, c);
      WaitersKnown(k, p);
      PairingFrame(k.chans[c].wlog, k.chans[p].rlog, k.chans[c].done, k.chans[c].send, k.chans[p].recv, k.ipc, k'.ipc);
    }
  }

  /** A quiet step keeps the invariant. */
  lemma QuietKeeps(k: State, k': State)
    requires KInv(k) && Quiet(k, k')
    ensures KInv(k')
  {
    QuietWaitersOk(k, k');
    QuietMatched(k, k');
    QuietCur(k, k');
    forall i: nat | i < |k'.sched.threads| && k'.sched.threads[i].Some? ensures k'.sched.threads[i].value.id in k'.ipc {
      assert SlotQuiet(k, k', i);
    }
    if CurTid(k').Some? && Waits(k', CurTid(k').value) {
      QuietWaits(k, k', CurTid(k').value);
    }
  }

  lemma QuietTrans(a: State, b: State, c: State)
    requires Quiet(a, b) && Quiet(b, c)
    ensures Quiet(a, c)
  {
    forall i: nat | i < |a.sched.threads| ensures SlotQuiet(a, c, i) {
      assert SlotQuiet(a, b, i) && SlotQuiet(b, c, i);
      if a.sched.threads[i].Some? && Waits(c, a.sched.threads[i].value.id) {
        QuietWaits(b, c, a.sched.threads[i].value.id);
      }
    }
    forall d: nat, p: nat | Linked(c, d, p) ensures c.chans[d] == a.chans[d] && c.chans[p] == a.chans[p] {
      assert c.chans[d] == b.chans[d] && c.chans[p] == b.chans[p];
      assert Linked(b, d, p);
    }
  }

  lemma QuietRefl(k: State)
    requires S.Inv(k.sched)
    ensures Quiet(k, k)
  {
  }
}
