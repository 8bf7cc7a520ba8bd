/**
 * Rendezvous channels with capability transfer on top of the scheduler: the state
 * shared by all threads and its atomic steps (kernel/src/ipc/channel.rs,
 * kernel/src/object/handle_table.rs).  System calls run with interrupts masked, so a
 * read, write or close is one step up to its call of `schedule`.
 *
 * Each channel end also carries the history of the writes and reads accepted on it
 * and of the messages delivered from it; no step looks at the history.
 */
module Kernel {
  import opened Common
  import opened HandleTables
  import S = SchedSpec
  import W = WaiterArray

  type Bytes = seq<nat>

  datatype Cap = Cap(obj: Obj, rights: nat)

  /** The two transfer slots of a thread. */
  type Pair = s: seq<Option<Cap>> | |s| == TRANSFER_SLOTS witness [None, None]

  /** The IPC fields of a thread: its registered buffer, result length, stashed capabilities and handle table. */
  datatype ThreadIpc = ThreadIpc(buf: Bytes, actual: nat, slots: Pair, table: Option<nat>)

  datatype WriteReq = WriteReq(tid: nat, data: Bytes)
  datatype ReadReq = ReadReq(tid: nat, len: nat)
  datatype Delivery = Delivery(writer: nat, reader: nat, data: Bytes)

  datatype Chan = Chan(open: bool, peer: Option<nat>, send: seq<nat>, recv: seq<nat>,
                       wlog: seq<WriteReq>, rlog: seq<ReadReq>, done: seq<Delivery>)

  datatype State = State(sched: S.Sched, ipc: map<nat, ThreadIpc>, chans: map<nat, Chan>,
                         tables: map<nat, Table>, nextHandle: nat, nextOid: nat)

  datatype Outcome = Done(data: Bytes) | Fail(error: Status) | Blocks

  const TRANSFER_SLOTS: nat := 2

  /** The id of the current thread. */
  function CurTid(k: State): Option<nat> {
    if k.sched.current.Some? && k.sched.current.value < |k.sched.threads|
      && k.sched.threads[k.sched.current.value].Some?
    then Some(k.sched.threads[k.sched.current.value].value.id) else None
  }

  function Prefix(data: Bytes, len: nat): Bytes {
    data[..Min(|data|, len)]
  }

  // ----- waking and closing -----

  function Wake(k: State, tid: nat): State {
    k.(sched := S.Wake(k.sched, tid))
  }

  function WakeAll(k: State, tids: seq<nat>): State
    decreases |tids|
  {
    if tids == [] then k else WakeAll(Wake(k, tids[0]), tids[1..])
  }

  /** The order in which `close` empties the two waiter arrays. */
  function Interleave(a: seq<nat>, b: seq<nat>): (r: seq<nat>)
    ensures forall x :: x in r <==> x in a || x in b
  {
    (if a == [] then [] else [a[0]]) + (if b == [] then [] else [b[0]])
    + (if a == [] && b == [] then []
       else Interleave(if a == [] then [] else a[1..], if b == [] then [] else b[1..]))
  }

  function ClosedEnd(c: Chan): Chan {
    c.(open := false, peer := None, send := [], recv := [])
  }

  /** Marks one end closed and wakes whoever waits on it. */
  function CloseEnd(k: State, c: nat): State
    requires c in k.chans
  {
    WakeAll(k.(chans := k.chans[c := ClosedEnd(k.chans[c])]), Interleave(k.chans[c].send, k.chans[c].recv))
  }

  /** `close`. */
  function Close(k: State, c: nat): State {
    if c !in k.chans then k
    else
      var peer := k.chans[c].peer;
      var k1 := CloseEnd(k, c);
      if peer.Some? && peer.value in k1.chans then CloseEnd(k1, peer.value) else k1
  }

  /** Dropping the last reference to an object closes a channel end. */
  function Drop(k: State, o: Obj): State {
    if o.kind.ChannelKind? then Close(k, o.kind.chan) else k
  }

  // ----- capabilities -----

  function TableOf(k: State, t: nat): Table {
    if t in k.tables then k.tables[t] else []
  }

  /** `add`: the handle counter advances even when the table is full. */
  function AddCap(k: State, t: nat, c: Cap): State
    requires t in k.tables
  {
    k.(tables := k.tables[t := Added(k.tables[t], Slot(k.nextHandle, c.rights, c.obj))], nextHandle := k.nextHandle + 1)
  }

  predicate HasRoom(k: State, t: nat) {
    FirstFree(TableOf(k, t), 0).Some?
  }

  /** `add` of an object in transit: a full table drops it. */
  function Give(k: State, t: nat, c: Cap): State
    requires t in k.tables
  {
    if HasRoom(k, t) then AddCap(k, t, c) else Drop(AddCap(k, t, c), c.obj)
  }

  function CapOf(s: Slot): Cap {
    Cap(s.obj, s.rights)
  }

  /** `remove_with_rights`. */
  function Remove(k: State, t: nat, hv: nat): (State, Option<Cap>)
    requires t in k.tables
  {
    match Find(k.tables[t], hv, 0)
    case None => (k, None)
    case Some(i) => (k.(tables := k.tables[t := k.tables[t][i := None]]), Some(CapOf(k.tables[t][i].value)))
  }

  /** `duplicate_handle`: the state after it, and the new value if it succeeded. */
  function Duplicate(k: State, t: nat, hv: nat): (State, Option<nat>)
    requires t in k.tables
  {
    match Find(k.tables[t], hv, 0)
    case None => (k, None)
    case Some(i) =>
      var s := k.tables[t][i].value;
      if !s.obj.kind.VmoKind? then (k, None)
      else if HasRoom(k, t) then (AddCap(k, t, CapOf(s)), Some(k.nextHandle))
      else (AddCap(k, t, CapOf(s)), None)
  }

  /** Takes what `hv` names out of the sender's table: a copy of a memory object, else the object itself. */
  function TakeOut(k: State, t: nat, hv: nat): (State, Option<Cap>)
    requires t in k.tables
  {
    var (k1, dup) := Duplicate(k, t, hv);
    if dup.Some? then Remove(k1, t, dup.value) else Remove(k1, t, hv)
  }

  /** One handle of a direct delivery. */
  function Transfer(k: State, from: nat, to: nat, hv: nat): State
    requires from in k.tables && to in k.tables
  {
    var (k1, c) := TakeOut(k, from, hv);
    if c.Some? && to in k1.tables then Give(k1, to, c.value) else k1
  }

  function TransferAll(k: State, from: nat, to: nat, hs: seq<nat>): State
    decreases |hs|
  {
    if hs == [] || from !in k.tables || to !in k.tables then k
    else TransferAll(Transfer(k, from, to, hs[0]), from, to, hs[1..])
  }

  function FirstTwo(hs: seq<nat>): seq<nat> {
    if |hs| <= TRANSFER_SLOTS then hs else hs[..TRANSFER_SLOTS]
  }

  function SetSlot(k: State, tid: nat, j: nat, c: Option<Cap>): State
    requires tid in k.ipc && j < |k.ipc[tid].slots|
  {
    k.(ipc := k.ipc[tid := k.ipc[tid].(slots := k.ipc[tid].slots[j := c])])
  }

  /** Empties transfer slot `j` of `tid`, dropping what it held. */
  function ClearSlot(k: State, tid: nat, j: nat): State {
    if tid !in k.ipc || j >= |k.ipc[tid].slots| || k.ipc[tid].slots[j].None? then k
    else Drop(SetSlot(k, tid, j, None), k.ipc[tid].slots[j].value.obj)
  }

  function ClearSlots(k: State, tid: nat): State {
    ClearSlot(ClearSlot(k, tid, 0), tid, 1)
  }

  /** Moves the named handles of a blocking writer into its transfer slots, from slot `j` on. */
  function Stash(k: State, tid: nat, t: nat, hs: seq<nat>, j: nat): State
    decreases |hs|
  {
    if hs == [] || t !in k.tables || tid !in k.ipc || j >= |k.ipc[tid].slots| then k
    else
      var (k1, c) := TakeOut(k, t, hs[0]);
      if c.Some? && tid in k1.ipc && j < |k1.ipc[tid].slots|
      then Stash(SetSlot(k1, tid, j, c), tid, t, hs[1..], j + 1)
      else Stash(k1, tid, t, hs[1..], j)
  }

  /** Moves slot `j` of thread `from` into table `t`. */
  function Unstash(k: State, from: nat, t: nat, j: nat): State {
    if from !in k.ipc || j >= |k.ipc[from].slots| || k.ipc[from].slots[j].None? || t !in k.tables then k
    else Give(SetSlot(k, from, j, None), t, k.ipc[from].slots[j].value)
  }

  function UnstashAll(k: State, from: nat, t: nat): State {
    Unstash(Unstash(k, from, t, 0), from, t, 1)
  }

  // ----- read and write -----

  function SetIpc(k: State, tid: nat, buf: Bytes, actual: nat): State
    requires tid in k.ipc
  {
    k.(ipc := k.ipc[tid := k.ipc[tid].(buf := buf, actual := actual)])
  }

  function SetChan(k: State, c: nat, ch: Chan): State {
    k.(chans := k.chans[c := ch])
  }

  function SetCurState(k: State, st: S.ThreadState): State {
    k.(sched := S.BlockCurrent(k.sched, st))
  }

  /** The message of the current thread `w` is copied to the popped receiver `r` of the peer `p`. */
  function HandOver(k: State, c: nat, p: nat, w: nat, data: Bytes): State
    requires c in k.chans && p in k.chans && k.chans[p].recv != [] && k.chans[p].recv[0] in k.ipc
  {
    var r := k.chans[p].recv[0];
    var old_buf := k.ipc[r].buf;
    var n := Min(|data|, |old_buf|);
    var k1 := SetChan(k, p, k.chans[p].(recv := k.chans[p].recv[1..]));
    var k2 := SetIpc(k1, r, data[..n] + old_buf[n..], n);
    SetChan(k2, c, k2.chans[c].(wlog := k2.chans[c].wlog + [WriteReq(w, data)],
                                done := k2.chans[c].done + [Delivery(w, r, k2.ipc[r].buf[..n])]))
  }

  function DeliverHandles(k: State, w: nat, r: nat, hs: seq<nat>): State {
    if w in k.ipc && r in k.ipc && k.ipc[w].table.Some? && k.ipc[r].table.Some?
    then TransferAll(k, k.ipc[w].table.value, k.ipc[r].table.value, FirstTwo(hs)) else k
  }

  /** The writer stashes its handles, queues itself on its own end and gives up the processor. */
  function WriteBlocking(k: State, c: nat, w: nat, data: Bytes, hs: seq<nat>): (State, Outcome)
    requires w in k.ipc
  {
    var k1 := ClearSlots(SetCurState(SetIpc(k, w, data, 0), S.Blocked), w);
    var k2 := if w in k1.ipc && k1.ipc[w].table.Some? then Stash(k1, w, k1.ipc[w].table.value, FirstTwo(hs), 0) else k1;
    if c in k2.chans && |k2.chans[c].send| < W.MAX_WAITERS then
      var ch := k2.chans[c];
      var k3 := SetChan(k2, c, ch.(send := ch.send + [w], wlog := ch.wlog + [WriteReq(w, data)]));
      (k3.(sched := S.Schedule(k3.sched)), Blocks)
    else
      var k3 := if w in k2.ipc && k2.ipc[w].table.Some? then UnstashAll(k2, w, k2.ipc[w].table.value) else k2;
      (SetCurState(k3, S.Running), Fail(NoMemory))
  }

  /** `write` on end `c` by the current thread. */
  function Write(k: State, c: nat, data: Bytes, hs: seq<nat>): (State, Outcome)
    requires c in k.chans
  {
    var w := CurTid(k);
    if !k.chans[c].open then (k, Fail(PeerClosed))
    else if w.None? || w.value !in k.ipc then (k, Fail(ThreadNotFound))
    else if k.chans[c].peer.None? || k.chans[c].peer.value !in k.chans then (k, Fail(PeerClosed))
    else
      var p := k.chans[c].peer.value;
      if k.chans[p].recv == [] then WriteBlocking(k, c, w.value, data, hs)
      else if k.chans[p].recv[0] !in k.ipc then
        WriteBlocking(SetChan(k, p, k.chans[p].(recv := k.chans[p].recv[1..])), c, w.value, data, hs)
      else
        var r := k.chans[p].recv[0];
        var k1 := HandOver(k, c, p, w.value, data);
        (Wake(DeliverHandles(k1, w.value, r, hs), r), Done(k1.ipc[r].buf[..k1.ipc[r].actual]))
  }

  /** The message of the popped sender of the peer `p` is copied out to the current thread `r`. */
  function PickUp(k: State, c: nat, p: nat, r: nat, len: nat): State
    requires c in k.chans && p in k.chans && k.chans[p].send != [] && k.chans[p].send[0] in k.ipc
  {
    var s := k.chans[p].send[0];
    var data := Prefix(k.ipc[s].buf, len);
    var k1 := SetChan(k, p, k.chans[p].(send := k.chans[p].send[1..], done :=
      k.chans[p].done + [Delivery(s, r, data)]));
    var k2 := SetIpc(k1, s, k.ipc[s].buf, |data|);
    SetChan(k2, c, k2.chans[c].(rlog := k2.chans[c].rlog + [ReadReq(r, len)]))
  }

  function CollectHandles(k: State, r: nat, s: nat): State {
    if r in k.ipc && k.ipc[r].table.Some? then UnstashAll(k, s, k.ipc[r].table.value) else k
  }

  function ReadBlocking(k: State, c: nat, r: nat, buf: Bytes): (State, Outcome)
    requires c in k.chans && r in k.ipc
  {
    var k1 := SetCurState(SetIpc(k, r, buf, 0), S.Blocked);
    if |k1.chans[c].recv| < W.MAX_WAITERS then
      var ch := k1.chans[c];
      var k2 := SetChan(k1, c, ch.(recv := ch.recv + [r], rlog := ch.rlog + [ReadReq(r, |buf|)]));
      (k2.(sched := S.Schedule(k2.sched)), Blocks)
    else (SetCurState(k1, S.Running), Fail(NoMemory))
  }

  /** `read` on end `c` by the current thread into a buffer that holds `buf`. */
  function Read(k: State, c: nat, buf: Bytes): (State, Outcome)
    requires c in k.chans
  {
    var r := CurTid(k);
    if !k.chans[c].open then (k, Fail(PeerClosed))
    else if r.None? || r.value !in k.ipc then (k, Fail(ThreadNotFound))
    else if k.chans[c].peer.None? || k.chans[c].peer.value !in k.chans then (k, Fail(PeerClosed))
    else
      var p := k.chans[c].peer.value;
      if k.chans[p].send == [] then ReadBlocking(k, c, r.value, buf)
      else if k.chans[p].send[0] !in k.ipc then
        ReadBlocking(SetChan(k, p, k.chans[p].(send := k.chans[p].send[1..])), c, r.value, buf)
      else
        var s := k.chans[p].send[0];
        (Wake(CollectHandles(PickUp(k, c, p, r.value, |buf|), r.value, s), s), Done(Prefix(k.ipc[s].buf, |buf|)))
  }

  const FRESH_CHAN := Chan(true, None, [], [], [], [], [])

  /** `sys_channel_create` into table `t`; `c` and `d` are the two new ends. */
  function CreateChannel(k: State, t: nat, c: nat, d: nat, rights: nat): State
    requires t in k.tables && c != d
  {
    if !HasRoom(k, t) then k.(nextHandle := k.nextHandle + 1, nextOid := k.nextOid + 1)
    else
      var k1 := AddCap(k.(chans := k.chans[c := FRESH_CHAN], nextOid := k.nextOid + 1), t,
        Cap(Obj(k.nextOid, ChannelKind(c)), rights));
      if !HasRoom(k1, t) then k1.(nextHandle := k1.nextHandle + 1, nextOid := k1.nextOid + 1)
      else
        AddCap(k1.(chans := k1.chans[c := FRESH_CHAN.(peer := Some(d))][d := FRESH_CHAN.(peer := Some(c))], nextOid :=
          k1.nextOid + 1),
               t, Cap(Obj(k1.nextOid, ChannelKind(d)), rights))
  }

  /** Any other object creation. */
  function CreateObject(k: State, t: nat, kind: Kind, rights: nat): State
    requires t in k.tables && !kind.ChannelKind?
  {
    AddCap(k.(nextOid := k.nextOid + 1), t, Cap(Obj(k.nextOid, kind), rights))
  }

  /** Closing a handle removes the object from the table and drops it. */
  function CloseHandle(k: State, t: nat, hv: nat): State
    requires t in k.tables
  {
    var (k1, c) := Remove(k, t, hv);
    if c.Some? then Drop(k1, c.value.obj) else k1
  }

  function EmptyTable(): (t: Table)
    ensures |t| == MAX_HANDLES && forall i :: 0 <= i < |t| ==> t[i].None?
  {
    seq(MAX_HANDLES, _ => None)
  }

  /** A new thread enters the scheduler with clear IPC fields; the table of a new process starts empty. */
  function AddThread(k: State, t: S.Thread, table: Option<nat>): State
    requires S.EmptySlot(k.sched.threads, 0).Some?
  {
    k.(sched := S.Add(k.sched, t), ipc := k.ipc[t.id := ThreadIpc([], 0, [None, None], table)],
       tables := if table.Some? && table.value !in k.tables then k.tables[table.value := EmptyTable()] else k.tables)
  }
}
