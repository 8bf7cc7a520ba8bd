/**
 * Channel operations as code on the kernel's arrays (kernel/src/ipc/channel.rs): the system owns the
 * scheduler, two waiter arrays per channel end and a slot array per handle table, and every operation
 * is proved to take the step of the same name in `Kernel` on the state these arrays stand for.
 */
module Channels {
  import opened Common
  import opened HandleTables
  import opened Scheduler
  import K = Kernel
  import S = SchedSpec
  import W = WaiterArray

  // ----- waking a line, slot by slot -----

  function Rest(s: seq<nat>, i: nat): seq<nat> {
    if i <= |s| then s[i..] else []
  }

  function At(s: seq<nat>, i: nat): seq<nat> {
    if i < |s| then [s[i]] else []
  }

  function Tail(s: seq<nat>): seq<nat> {
    if s == [] then [] else s[1..]
  }

  lemma InterleaveIs(x: seq<nat>, y: seq<nat>)
    requires x != [] || y != []
    ensures K.Interleave(x, y) == At(x, 0) + At(y, 0) + K.Interleave(Tail(x), Tail(y))
  {
  }

  lemma RestSteps(s: seq<nat>, i: nat)
    ensures Tail(Rest(s, i)) == Rest(s, i + 1) && At(Rest(s, i), 0) == At(s, i)
  {
  }

  lemma InterleaveStep(a: seq<nat>, b: seq<nat>, i: nat)
    requires i < |a| || i < |b|
    ensures K.Interleave(Rest(a, i), Rest(b, i)) == At(a, i) + (At(b, i) + K.Interleave(Rest(a, i + 1), Rest(b, i + 1)))
  {
    hide K.Interleave;
    RestSteps(a, i);
    RestSteps(b, i);
    InterleaveIs(Rest(a, i), Rest(b, i));
  }

  function WakeSched(s: S.Sched, tids: seq<nat>): S.Sched
    decreases |tids|
  {
    if tids == [] then s else WakeSched(S.Wake(s, tids[0]), tids[1..])
  }

  lemma {:induction false} WakeAllIs(k: K.State, tids: seq<nat>)
    ensures K.WakeAll(k, tids) == k.(sched := WakeSched(k.sched, tids))
    decreases |tids|
  {
    hide S.Wake;
    if tids != [] {
      WakeAllIs(K.Wake(k, tids[0]), tids[1..]);
    }
  }

  lemma WakeFront(s: S.Sched, x: seq<nat>, rest: seq<nat>)
    requires |x| <= 1
    ensures WakeSched(s, x + rest) == WakeSched(if x == [] then s else S.Wake(s, x[0]), rest)
  {
    hide S.Wake;
    if x == [] {
      assert x + rest == rest;
    } else {
      assert (x + rest)[0] == x[0] && (x + rest)[1..] == rest;
    }
  }

  /** One round of the draining loop. */
  lemma WakePair(s: S.Sched, a: seq<nat>, b: seq<nat>, i: nat)
    ensures var s1 := if i < |a| then S.Wake(s, a[i]) else s;
      var s2 := if i < |b| then S.Wake(s1, b[i]) else s1;
      WakeSched(s, K.Interleave(Rest(a, i), Rest(b, i))) == WakeSched(s2, K.Interleave(Rest(a, i + 1), Rest(b, i + 1)))
  {
    hide K.Interleave, WakeSched, S.Wake;
    if i < |a| || i < |b| {
      InterleaveStep(a, b, i);
      var tail := K.Interleave(Rest(a, i + 1), Rest(b, i + 1));
      var s1 := if i < |a| then S.Wake(s, a[i]) else s;
      WakeFront(s, At(a, i), At(b, i) + tail);
      WakeFront(s1, At(b, i), tail);
    } else {
      assert Rest(a, i) == [] == Rest(a, i + 1) && Rest(b, i) == [] == Rest(b, i + 1);
    }
  }

  lemma NobodyLeft(s: S.Sched)
    ensures WakeSched(s, K.Interleave([], [])) == s
  {
  }

  // ----- who may be woken -----

  function Tid(s: S.Sched): Option<nat> {
    if s.current.Some? && s.current.value < |s.threads| && s.threads[s.current.value].Some?
    then Some(s.threads[s.current.value].value.id) else None
  }

  predicate NotIn(x: Option<nat>, s: seq<nat>) {
    x.None? || x.value !in s
  }

  /** The scheduler is sound, and the current thread stands in no line. */
  ghost predicate Safe(k: K.State) {
    && S.Inv(k.sched)
    && (forall c :: c in k.chans ==> NotIn(K.CurTid(k), k.chans[c].send) && NotIn(K.CurTid(k), k.chans[c].recv))
  }

  lemma SafeAt(k: K.State, c: nat)
    requires Safe(k) && c in k.chans
    ensures S.Inv(k.sched) && NotIn(Tid(k.sched), k.chans[c].send) && NotIn(Tid(k.sched), k.chans[c].recv)
  {
  }

  lemma ClosedSafe(k: K.State, k': K.State, c: nat)
    requires Safe(k) && S.Inv(k'.sched) && Tid(k'.sched) == Tid(k.sched) && c in k.chans
    requires k'.chans == k.chans[c := K.ClosedEnd(k.chans[c])]
    ensures Safe(k')
  {
    hide S.Inv;
  }

  lemma WakeTid(s: S.Sched, id: nat)
    ensures Tid(S.Wake(s, id)) == Tid(s)
  {
  }

  lemma BlockTid(s: S.Sched, st: S.ThreadState)
    ensures Tid(S.BlockCurrent(s, st)) == Tid(s)
  {
  }

  // ----- one end -----

  class End {
    const send: W.Waiters
    const recv: W.Waiters
    var open: bool
    var peer: Option<nat>
    ghost var wlog: seq<K.WriteReq>
    ghost var rlog: seq<K.ReadReq>
    ghost var done: seq<K.Delivery>

    ghost predicate Valid()
      reads this, send, recv, send.slots, recv.slots
    {
      send.Valid() && recv.Valid() && send.slots != recv.slots
    }

    ghost function View(): K.Chan
      requires Valid()
      reads this, send, recv, send.slots, recv.slots
    {
      K.Chan(open, peer, W.Ids(send.slots[..]), W.Ids(recv.slots[..]), wlog, rlog, done)
    }

    /** An open end without peer or waiters. */
    constructor ()
      ensures Valid() && View() == K.FRESH_CHAN && fresh(send) && fresh(recv) && fresh(send.slots) && fresh(recv.slots)
    {
      send := new W.Waiters();
      recv := new W.Waiters();
      open, peer := true, None;
      wlog, rlog, done := [], [], [];
    }
  }

  // ----- the system -----

  class System {
    const sched: Scheduler
    const ends: map<nat, End>
    const tables: map<nat, HandleTable>
    var ipc: map<nat, K.ThreadIpc>
    var nextHandle: nat
    var nextOid: nat

    ghost const parts: set<object>

    /** Every thread's handle table exists. */
    ghost predicate TablesKnown(ipc: map<nat, K.ThreadIpc>) {
      forall t :: t in ipc && ipc[t].table.Some? ==> ipc[t].table.value in tables
    }

    /** An end, with its arrays, belongs to the system and not to the scheduler. */
    ghost predicate OwnsEnd(e: End) {
      && {e, e.send, e.recv, e.send.slots, e.recv.slots} <= parts
      && {e, e.send, e.recv, e.send.slots, e.recv.slots} !! sched.Objects()
    }

    ghost predicate EndsApart(e: End, f: End) {
      && e != f && e.send.slots != f.send.slots && e.send.slots != f.recv.slots
      && e.recv.slots != f.send.slots && e.recv.slots != f.recv.slots
    }

    ghost predicate TableApart(t: HandleTable, e: End) {
      {t, t.slots} !! {e, e.send, e.recv, e.send.slots, e.recv.slots}
    }

    ghost predicate OwnsTable(t: HandleTable) {
      {t, t.slots} <= parts && {t, t.slots} !! sched.Objects()
    }

    /** No two parts share what they write to. */
    ghost predicate Apart() {
      && this !in parts && sched.Objects() <= parts
      && (forall c :: c in ends ==> OwnsEnd(ends[c]))
      && (forall c, d :: c in ends && d in ends && c != d ==> EndsApart(ends[c], ends[d]))
      && (forall t :: t in tables ==> OwnsTable(tables[t]))
      && (forall t, u :: t in tables && u in tables && t != u ==> tables[t].slots != tables[u].slots)
      && (forall t, c :: t in tables && c in ends ==> TableApart(tables[t], ends[c]))
    }

    ghost predicate Valid()
      reads parts
    {
      && Apart() && sched.Valid()
      && (forall c :: c in ends ==> ends[c].Valid())
      && (forall t :: t in tables ==> tables[t].Valid())
    }

    ghost function EndsView(): map<nat, K.Chan>
      requires Valid()
      reads parts
    {
      map c | c in ends :: ends[c].View()
    }

    ghost function TablesView(): map<nat, Table>
      requires Valid()
      reads parts
    {
      map t | t in tables :: tables[t].slots[..]
    }

    /** The state the arrays stand for. */
    ghost function View(): K.State
      requires Valid()
      reads this, parts
    {
      K.State(sched.View(), ipc, EndsView(), TablesView(), nextHandle, nextOid)
    }

    constructor (sched: Scheduler, ends: map<nat, End>, tables: map<nat, HandleTable>, ipc: map<nat, K.ThreadIpc>,
                 nextHandle: nat, nextOid: nat, ghost parts: set<object>)
      ensures this.sched == sched && this.ends == ends && this.tables == tables && this.ipc == ipc
        && this.parts == parts
      ensures this.nextHandle == nextHandle && this.nextOid == nextOid
    {
      this.sched, this.ends, this.tables, this.ipc, this.parts := sched, ends, tables, ipc, parts;
      this.nextHandle, this.nextOid := nextHandle, nextOid;
    }

    // ----- scheduler -----

    /** The scheduler moved; everything else is as it was. */
    twostate lemma OnlySched()
      requires old(Valid()) && sched.Valid() && unchanged(this)
      requires forall o :: o in parts && o !in sched.Objects() ==> unchanged(o)
      ensures Valid() && View() == old(View()).(sched := sched.View())
    {
      hide Scheduler.Valid;
      forall c | c in ends ensures ends[c].Valid() && ends[c].View() == old(ends[c].View()) {
        assert OwnsEnd(ends[c]);
      }
      forall t | t in tables ensures tables[t].slots[..] == old(tables[t].slots[..]) {
        assert OwnsTable(tables[t]);
      }
      assert EndsView() == old(EndsView());
      assert TablesView() == old(TablesView());
    }

    method WakeThread(tid: nat)
      requires Valid() && S.Inv(View().sched) && K.CurTid(View()) != Some(tid)
      modifies sched.Objects()
      ensures Valid() && View() == K.Wake(old(View()), tid) && S.Inv(View().sched)
      ensures K.CurTid(View()) == K.CurTid(old(View()))
    {
      hide S.Inv, S.Wake, Scheduler.Valid, Scheduler.Objects;
      WakeTid(sched.View(), tid);
      sched.Wake(tid);
      OnlySched();
    }

    method Reschedule()
      requires Valid() && S.Inv(View().sched)
      modifies sched.Objects()
      ensures Valid() && View() == old(View()).(sched := S.Schedule(old(View()).sched)) && S.Inv(View().sched)
    {
      hide S.Inv, S.Schedule, Scheduler.Valid, Scheduler.Objects;
      sched.Schedule();
      OnlySched();
    }

    method SetCurrentState(st: S.ThreadState)
      requires Valid() && S.Inv(View().sched) && st != S.Ready
      modifies sched.Objects()
      ensures Valid() && View() == K.SetCurState(old(View()), st) && S.Inv(View().sched)
      ensures K.CurTid(View()) == K.CurTid(old(View()))
    {
      hide S.Inv, Scheduler.Valid, Scheduler.Objects, S.BlockCurrent;
      BlockTid(sched.View(), st);
      sched.SetCurrentState(st);
      OnlySched();
    }

    method CurrentThread() returns (tid: Option<nat>)
      requires Valid()
      ensures tid == K.CurTid(View())
    {
      tid := sched.CurrentId();
    }

    // ----- lines -----

    /** What only an end was written to leaves alone. */
    twostate lemma SchedKept(written: set<object>)
      requires old(Valid()) && unchanged(this) && written !! sched.Objects()
      requires forall o :: o in parts && o !in written ==> unchanged(o)
      ensures sched.Valid() && sched.View() == old(sched.View())
    {
      hide Scheduler.Valid, Scheduler.Objects, OwnsEnd, OwnsTable, EndsApart;
      assert forall o :: o in sched.Objects() ==> unchanged(o);
    }

    lemma EndOutside(c: nat)
      requires Apart() && c in ends
      ensures {ends[c], ends[c].send, ends[c].recv, ends[c].send.slots, ends[c].recv.slots} !! sched.Objects()
      ensures {ends[c], ends[c].send.slots, ends[c].recv.slots} !! sched.Objects()
      ensures {ends[c], ends[c].send, ends[c].recv, ends[c].send.slots, ends[c].recv.slots} <= parts && this !in parts
    {
      hide Scheduler.Objects;
      assert OwnsEnd(ends[c]);
    }

    twostate lemma TablesKept(c: nat)
      requires old(Valid()) && unchanged(this) && c in ends
      requires forall o :: o in parts && o !in {ends[c], ends[c].send.slots, ends[c].recv.slots} ==> unchanged(o)
      ensures forall t :: t in tables ==> tables[t].Valid() && tables[t].slots[..] == old(tables[t].slots[..])
    {
      hide Scheduler.Valid, Scheduler.Objects, OwnsEnd, EndsApart;
      forall t | t in tables ensures tables[t].Valid() && tables[t].slots[..] == old(tables[t].slots[..]) {
        assert TableApart(tables[t], ends[c]);
        assert OwnsTable(tables[t]);
      }
    }

    twostate lemma OtherEndsKept(c: nat)
      requires old(Valid()) && unchanged(this) && c in ends
      requires forall o :: o in parts && o !in {ends[c], ends[c].send.slots, ends[c].recv.slots} ==> unchanged(o)
      ensures forall d :: d in ends && d != c ==> ends[d].Valid() && ends[d].View() == old(ends[d].View())
    {
      hide Scheduler.Valid, Scheduler.Objects, OwnsTable, TableApart, W.Ids, W.GapFree;
      assert OwnsEnd(ends[c]);
      forall d | d in ends && d != c ensures ends[d].Valid() && ends[d].View() == old(ends[d].View()) {
        assert OwnsEnd(ends[d]) && EndsApart(ends[d], ends[c]);
        assert unchanged(ends[d]) && unchanged(ends[d].send.slots) && unchanged(ends[d].recv.slots);
      }
    }

    /** One end moved; everything else is as it was. */
    twostate lemma OnlyEnd(c: nat)
      requires old(Valid()) && c in ends && ends[c].Valid() && unchanged(this)
      requires forall o :: o in parts && o !in {ends[c], ends[c].send.slots, ends[c].recv.slots} ==> unchanged(o)
      ensures Valid() && View() == K.SetChan(old(View()), c, ends[c].View())
    {
      hide Scheduler.Valid, Scheduler.Objects, OwnsEnd, EndsApart, OwnsTable, TableApart, End.View, End.Valid;
      hide HandleTable.Valid;
      EndOutside(c);
      SchedKept({ends[c], ends[c].send.slots, ends[c].recv.slots});
      OtherEndsKept(c);
      TablesKept(c);
      assert EndsView() == old(EndsView())[c := ends[c].View()];
      assert TablesView() == old(TablesView());
    }

    /** Takes the longest waiting sender of an end. */
    method PopSender(c: nat) returns (r: Option<nat>)
      requires Valid() && c in ends
      modifies ends[c].send.slots
      ensures Valid()
      ensures var ch := old(View()).chans[c];
        if ch.send == [] then r == None && View() == old(View())
        else r == Some(ch.send[0]) && View() == K.SetChan(old(View()), c, ch.(send := ch.send[1..]))
    {
      hide Scheduler.Valid, Scheduler.Objects, W.Ids, W.GapFree;
      r := ends[c].send.Pop();
      OnlyEnd(c);
      SetSame(old(View()), c);
    }

    /** Takes the longest waiting receiver of an end. */
    method PopReceiver(c: nat) returns (r: Option<nat>)
      requires Valid() && c in ends
      modifies ends[c].recv.slots
      ensures Valid()
      ensures var ch := old(View()).chans[c];
        if ch.recv == [] then r == None && View() == old(View())
        else r == Some(ch.recv[0]) && View() == K.SetChan(old(View()), c, ch.(recv := ch.recv[1..]))
    {
      hide Scheduler.Valid, Scheduler.Objects, W.Ids, W.GapFree;
      r := ends[c].recv.Pop();
      OnlyEnd(c);
      SetSame(old(View()), c);
    }

    /** Queues a sender with its message, unless eight wait already. */
    method PushSender(c: nat, w: nat, ghost data: K.Bytes) returns (ok: bool)
      requires Valid() && c in ends
      modifies ends[c], ends[c].send.slots
      ensures Valid()
      ensures var ch := old(View()).chans[c];
        && ok == (|ch.send| < W.MAX_WAITERS)
        && View() == if ok then K.SetChan(old(View()), c,
          ch.(send := ch.send + [w], wlog := ch.wlog + [K.WriteReq(w, data)]))
                     else old(View())
    {
      hide Scheduler.Valid, Scheduler.Objects, W.Ids, W.GapFree;
      ok := ends[c].send.Push(w);
      if ok {
        ends[c].wlog := ends[c].wlog + [K.WriteReq(w, data)];
      }
      OnlyEnd(c);
      SetSame(old(View()), c);
    }

    /** Queues a receiver, unless eight wait already. */
    method PushReceiver(c: nat, r: nat, ghost len: nat) returns (ok: bool)
      requires Valid() && c in ends
      modifies ends[c], ends[c].recv.slots
      ensures Valid()
      ensures var ch := old(View()).chans[c];
        && ok == (|ch.recv| < W.MAX_WAITERS)
        && View() == if ok then K.SetChan(old(View()), c,
          ch.(recv := ch.recv + [r], rlog := ch.rlog + [K.ReadReq(r, len)]))
                     else old(View())
    {
      hide Scheduler.Valid, Scheduler.Objects, W.Ids, W.GapFree;
      ok := ends[c].recv.Push(r);
      if ok {
        ends[c].rlog := ends[c].rlog + [K.ReadReq(r, len)];
      }
      OnlyEnd(c);
      SetSame(old(View()), c);
    }

    // ----- closing -----

    /** Empties one waiter slot and wakes whoever stood there. */
    method TakeAndWake(w: W.Waiters, i: nat)
      requires sched.Valid() && S.Inv(sched.View()) && i < W.MAX_WAITERS == w.slots.Length
        && w.slots !in sched.Objects()
      requires w.slots[i].Some? ==> Tid(sched.View()) != w.slots[i]
      modifies w.slots, sched.Objects()
      ensures sched.Valid() && S.Inv(sched.View()) && Tid(sched.View()) == old(Tid(sched.View()))
      ensures sched.View() == if old(w.slots[i]).Some? then S.Wake(old(sched.View()), old(w.slots[i]).value)
        else old(sched.View())
      ensures w.slots[..] == old(w.slots[..])[i := None]
    {
      hide S.Inv, S.Wake, Scheduler.Valid, Scheduler.Objects;
      if w.slots[i].Some? {
        var tid := w.slots[i].value;
        w.slots[i] := None;
        WakeTid(sched.View(), tid);
        sched.Wake(tid);
      }
    }

    twostate lemma OthersKept(c: nat)
      requires old(Valid()) && c in ends && unchanged(this)
      requires forall o ::
        o in parts && o !in {ends[c], ends[c].send.slots, ends[c].recv.slots} && o !in sched.Objects() ==> unchanged(o)
      ensures forall d :: d in ends && d != c ==> ends[d].Valid() && ends[d].View() == old(ends[d].View())
      ensures forall t :: t in tables ==> tables[t].Valid() && tables[t].slots[..] == old(tables[t].slots[..])
    {
      hide Scheduler.Valid, Scheduler.Objects, W.Ids, W.GapFree;
      assert OwnsEnd(ends[c]);
      forall d | d in ends && d != c ensures ends[d].Valid() && ends[d].View() == old(ends[d].View()) {
        assert OwnsEnd(ends[d]) && EndsApart(ends[d], ends[c]);
        assert unchanged(ends[d]) && unchanged(ends[d].send.slots) && unchanged(ends[d].recv.slots);
      }
      forall t | t in tables ensures tables[t].slots[..] == old(tables[t].slots[..]) {
        assert OwnsTable(tables[t]) && TableApart(tables[t], ends[c]);
      }
    }

    /** One end and the scheduler moved; everything else is as it was. */
    twostate lemma OnlyEndAndSched(c: nat)
      requires old(Valid()) && c in ends && ends[c].Valid() && sched.Valid() && unchanged(this)
      requires forall o ::
        o in parts && o !in {ends[c], ends[c].send.slots, ends[c].recv.slots} && o !in sched.Objects() ==> unchanged(o)
      ensures Valid() && View() == K.SetChan(old(View()).(sched := sched.View()), c, ends[c].View())
    {
      hide Scheduler.Valid, Scheduler.Objects, OwnsEnd, EndsApart, OwnsTable, TableApart, End.View, End.Valid;
      hide HandleTable.Valid;
      OthersKept(c);
      assert EndsView() == old(EndsView())[c := ends[c].View()];
      assert TablesView() == old(TablesView());
    }

    /** Drains both waiter arrays slot by slot, waking in the order of the slots. */
    method Drain(e: End)
      requires sched.Valid() && S.Inv(sched.View()) && e.Valid()
      requires {e, e.send, e.recv, e.send.slots, e.recv.slots} !! sched.Objects()
      requires NotIn(Tid(sched.View()), W.Ids(e.send.slots[..])) && NotIn(Tid(sched.View()), W.Ids(e.recv.slots[..]))
      modifies sched.Objects(), e.send.slots, e.recv.slots
      ensures sched.Valid() && S.Inv(sched.View()) && Tid(sched.View()) == old(Tid(sched.View()))
      ensures sched.View() == WakeSched(old(sched.View()), K.Interleave(W.Ids(old(e.send.slots[..])),
        W.Ids(old(e.recv.slots[..]))))
      ensures e.Valid() && W.Ids(e.send.slots[..]) == [] && W.Ids(e.recv.slots[..]) == []
    {
      hide S.Inv, S.Wake, Scheduler.Valid, Scheduler.Objects, WakeSched, K.Interleave, W.Ids, W.GapFree, Rest;
      ghost var bs, br, start := e.send.slots[..], e.recv.slots[..], sched.View();
      ghost var s, r := W.Ids(bs), W.Ids(br);
      RestAll(s);
      RestAll(r);
      for i := 0 to W.MAX_WAITERS
        invariant sched.Valid() && S.Inv(sched.View()) && Tid(sched.View()) == Tid(start)
        invariant e.send.slots[..] == Emptied(bs, i) && e.recv.slots[..] == Emptied(br, i)
        invariant WakeSched(start, K.Interleave(s, r)) == WakeSched(sched.View(), K.Interleave(Rest(s, i), Rest(r, i)))
      {
        SlotIs(bs, i);
        SlotIs(br, i);
        EmptiedStep(bs, i);
        EmptiedStep(br, i);
        assert e.send.slots[i] == e.send.slots[..][i] && e.recv.slots[i] == e.recv.slots[..][i];
        WakePair(sched.View(), s, r, i);
        TakeAndWake(e.send, i);
        TakeAndWake(e.recv, i);
      }
      RestNone(s);
      RestNone(r);
      NobodyLeft(sched.View());
      AllNone(e.send.slots[..]);
      AllNone(e.recv.slots[..]);
    }

    /** Closes one end: state, both lines, peer. */
    method ShutDown(e: End)
      requires sched.Valid() && S.Inv(sched.View()) && e.Valid()
      requires {e, e.send, e.recv, e.send.slots, e.recv.slots} !! sched.Objects()
      requires NotIn(Tid(sched.View()), e.View().send) && NotIn(Tid(sched.View()), e.View().recv)
      modifies sched.Objects(), e, e.send.slots, e.recv.slots
      ensures sched.Valid() && S.Inv(sched.View()) && Tid(sched.View()) == old(Tid(sched.View()))
      ensures sched.View() == WakeSched(old(sched.View()), K.Interleave(old(e.View()).send, old(e.View()).recv))
      ensures e.Valid() && e.View() == K.ClosedEnd(old(e.View()))
    {
      hide S.Inv, Scheduler.Valid, Scheduler.Objects, WakeSched, K.Interleave, W.Ids, W.GapFree;
      e.open := false;
      Drain(e);
      e.peer := None;
    }

    /** Marks one end closed and wakes everyone waiting on it. */
    method CloseEnd(c: nat)
      requires Valid() && c in ends && Safe(View())
      modifies sched.Objects(), ends[c], ends[c].send.slots, ends[c].recv.slots
      ensures Valid() && View() == K.CloseEnd(old(View()), c)
      ensures Safe(View()) && K.CurTid(View()) == K.CurTid(old(View()))
    {
      hide S.Inv, S.Wake, Scheduler.Valid, Scheduler.Objects, WakeSched, K.Interleave, K.WakeAll, W.Ids, W.GapFree;
      hide Safe, OwnsEnd, EndsApart, OwnsTable, TableApart;
      ghost var k := View();
      var e := ends[c];
      EndOutside(c);
      SafeAt(k, c);
      ShutDown(e);
      OnlyEndAndSched(c);
      WakeAllIs(k.(chans := k.chans[c := K.ClosedEnd(k.chans[c])]), K.Interleave(k.chans[c].send, k.chans[c].recv));
      ClosedSafe(k, View(), c);
    }

    method Close(c: nat)
      requires Valid() && Safe(View())
      modifies parts
      ensures Valid() && View() == K.Close(old(View()), c)
      ensures Safe(View()) && K.CurTid(View()) == K.CurTid(old(View()))
    {
      hide S.Inv, S.Wake, Scheduler.Valid, Scheduler.Objects, OwnsEnd, EndsApart, OwnsTable, TableApart, End.View;
      hide End.Valid, HandleTable.Valid, Safe, K.CloseEnd;
      if c !in ends {
        return;
      }
      var open, peer := EndState(c);
      EndOutside(c);
      CloseEnd(c);
      if peer.Some? && peer.value in ends {
        EndOutside(peer.value);
        CloseEnd(peer.value);
      }
    }

    method EndState(c: nat) returns (open: bool, peer: Option<nat>)
      requires Valid() && c in ends
      ensures open == View().chans[c].open && peer == View().chans[c].peer
    {
      open, peer := ends[c].open, ends[c].peer;
    }

    /** Dropping an object closes the channel end it is. */
    method Drop(o: Obj)
      requires Valid() && Safe(View())
      modifies parts
      ensures Valid() && View() == K.Drop(old(View()), o)
      ensures Safe(View()) && K.CurTid(View()) == K.CurTid(old(View()))
    {
      hide S.Inv, S.Wake, Scheduler.Valid, Scheduler.Objects, OwnsEnd, EndsApart, OwnsTable, TableApart, End.View;
      hide End.Valid, HandleTable.Valid, Safe, K.Close;
      if o.kind.ChannelKind? {
        Close(o.kind.chan);
      }
    }

    // ----- handle tables -----

    twostate lemma AllButTable(t: nat)
      requires old(Valid()) && t in tables && unchanged(this)
      requires forall o :: o in parts && o != tables[t].slots ==> unchanged(o)
      ensures sched.Valid() && sched.View() == old(sched.View())
      ensures forall d :: d in ends ==> ends[d].Valid() && ends[d].View() == old(ends[d].View())
      ensures forall u :: u in tables && u != t ==> tables[u].slots[..] == old(tables[u].slots[..])
    {
      hide Scheduler.Valid, Scheduler.Objects, W.Ids, W.GapFree;
      assert OwnsTable(tables[t]);
      assert forall o :: o in sched.Objects() ==> unchanged(o);
      forall d | d in ends ensures ends[d].Valid() && ends[d].View() == old(ends[d].View()) {
        assert OwnsEnd(ends[d]) && TableApart(tables[t], ends[d]);
      }
      forall u | u in tables && u != t ensures tables[u].slots[..] == old(tables[u].slots[..]) {
        assert OwnsTable(tables[u]);
      }
    }

    /** One table moved; everything else is as it was. */
    twostate lemma OnlyTable(t: nat)
      requires old(Valid()) && t in tables && unchanged(this)
      requires forall o :: o in parts && o != tables[t].slots ==> unchanged(o)
      ensures Valid() && View() == old(View()).(tables := old(View()).tables[t := tables[t].slots[..]])
    {
      hide Scheduler.Valid, Scheduler.Objects, OwnsEnd, EndsApart, OwnsTable, TableApart, End.View, End.Valid;
      AllButTable(t);
      assert EndsView() == old(EndsView());
      assert TablesView() == old(TablesView())[t := tables[t].slots[..]];
    }

    lemma TableInside(t: nat)
      requires Apart() && t in tables
      ensures tables[t].slots in parts && this !in parts
    {
      assert OwnsTable(tables[t]);
    }

    /** Adds an object to a table; the handle counter advances even when the table is full. */
    method AddCap(t: nat, c: K.Cap) returns (ok: bool)
      requires Valid() && t in tables
      modifies this`nextHandle, tables[t].slots
      ensures Valid() && View() == K.AddCap(old(View()), t, c) && ok == K.HasRoom(old(View()), t)
    {
      hide S.Inv, S.Wake, Scheduler.Valid, Scheduler.Objects, OwnsEnd, EndsApart, OwnsTable, TableApart, End.View;
      hide End.Valid, HandleTable.Valid, Added, EndsView;
      TableInside(t);
      assert old(View()).tables[t] == tables[t].slots[..];
      TableValid(t);
      var r := tables[t].Add(c.obj, c.rights, nextHandle);
      OnlyTable(t);
      nextHandle := nextHandle + 1;
      ok := r.Ok?;
    }

    lemma TableValid(t: nat)
      requires Valid() && t in tables
      ensures tables[t].Valid()
    {
    }

    /** Adds an object in transit to a table; a full table drops it. */
    method Give(t: nat, c: K.Cap)
      requires Valid() && t in tables && Safe(View())
      modifies this`nextHandle, parts
      ensures Valid() && View() == K.Give(old(View()), t, c)
      ensures Safe(View()) && K.CurTid(View()) == K.CurTid(old(View()))
    {
      hide S.Inv, S.Wake, Scheduler.Valid, Scheduler.Objects, OwnsEnd, EndsApart, OwnsTable, TableApart, End.View;
      hide End.Valid, HandleTable.Valid, K.Drop, K.HasRoom, Added;
      ghost var k := View();
      TableInside(t);
      var ok := AddCap(t, c);
      SameSafe(k, View());
      if !ok {
        Drop(c.obj);
      }
    }

    method RemoveWithRights(t: nat, hv: nat) returns (r: Option<K.Cap>)
      requires Valid() && t in tables
      modifies tables[t].slots
      ensures Valid() && (View(), r) == K.Remove(old(View()), t, hv)
    {
      hide S.Inv, S.Wake, Scheduler.Valid, Scheduler.Objects, OwnsEnd, EndsApart, OwnsTable, TableApart, End.View;
      hide End.Valid, HandleTable.Valid, Find;
      TableValid(t);
      assert old(View()).tables[t] == tables[t].slots[..];
      var x := tables[t].RemoveWithRights(hv);
      OnlyTable(t);
      if x.Ok? {
        return Some(K.Cap(x.value.0, x.value.1));
      }
      assert old(View()).tables[t := old(View()).tables[t]] == old(View()).tables;
      return None;
    }

    method DuplicateHandle(t: nat, hv: nat) returns (r: Option<nat>)
      requires Valid() && t in tables
      modifies this`nextHandle, tables[t].slots
      ensures Valid() && (View(), r) == K.Duplicate(old(View()), t, hv)
    {
      hide S.Inv, S.Wake, Scheduler.Valid, Scheduler.Objects, OwnsEnd, EndsApart, OwnsTable, TableApart, End.View;
      hide End.Valid, HandleTable.Valid, Find, FirstFree, EndsView;
      ghost var k := View();
      TableInside(t);
      TableValid(t);
      assert k.tables[t] == tables[t].slots[..];
      var x := tables[t].Duplicate(hv, nextHandle);
      OnlyTable(t);
      assert k.tables[t := k.tables[t]] == k.tables;
      if x == Err(BadHandle) || x == Err(NotAllowed) {
        return None;
      }
      nextHandle := nextHandle + 1;
      return if x.Ok? then Some(x.value) else None;
    }

    /** A copy of a memory object, or the object itself. */
    method TakeOut(t: nat, hv: nat) returns (r: Option<K.Cap>)
      requires Valid() && t in tables
      modifies this`nextHandle, tables[t].slots
      ensures Valid() && (View(), r) == K.TakeOut(old(View()), t, hv)
    {
      hide S.Inv, S.Wake, Scheduler.Valid, Scheduler.Objects, OwnsEnd, EndsApart, OwnsTable, TableApart, End.View;
      hide End.Valid, HandleTable.Valid, K.Duplicate, K.Remove;
      var dup := DuplicateHandle(t, hv);
      if dup.Some? {
        r := RemoveWithRights(t, dup.value);
      } else {
        r := RemoveWithRights(t, hv);
      }
    }

    /** Takes a handle out of its table and drops the object it named. */
    method CloseHandle(t: nat, hv: nat)
      requires Valid() && t in tables && Safe(View())
      modifies parts
      ensures Valid() && View() == K.CloseHandle(old(View()), t, hv)
    {
      hide S.Inv, S.Wake, Scheduler.Valid, Scheduler.Objects, OwnsEnd, EndsApart, OwnsTable, TableApart, End.View;
      hide End.Valid, HandleTable.Valid, K.Drop, Safe;
      ghost var k := View();
      TableInside(t);
      var c := RemoveWithRights(t, hv);
      SameSafe(k, View());
      if c.Some? {
        Drop(c.value.obj);
      }
    }

    /** The handle loop of a direct delivery. */
    method TransferAll(from: nat, to: nat, hs: seq<nat>)
      requires Valid() && from in tables && to in tables && Safe(View())
      modifies this`nextHandle, parts
      ensures Valid() && View() == K.TransferAll(old(View()), from, to, hs)
      ensures Safe(View()) && K.CurTid(View()) == K.CurTid(old(View()))
    {
      hide S.Inv, S.Wake, Scheduler.Valid, Scheduler.Objects, OwnsEnd, EndsApart, OwnsTable, TableApart, End.View;
      hide End.Valid, HandleTable.Valid, K.TakeOut, K.Give, Safe, EndsView;
      ghost var k := View();
      assert hs[0..] == hs;
      for i := 0 to |hs|
        invariant Valid() && Safe(View()) && K.CurTid(View()) == K.CurTid(k) && ipc == old(ipc)
          && nextOid == old(nextOid)
        invariant K.TransferAll(k, from, to, hs) == K.TransferAll(View(), from, to, hs[i..])
      {
        assert hs[i..][0] == hs[i] && hs[i..][1..] == hs[i + 1..];
        ghost var k1 := View();
        TableInside(from);
        var c := TakeOut(from, hs[i]);
        TakeOutKeeps(k1, from, hs[i]);
        SameSafe(k1, View());
        if c.Some? {
          Give(to, c.value);
        }
      }
    }

    /** Empties one transfer slot, dropping what it held. */
    method ClearSlot(tid: nat, j: nat)
      requires Valid() && tid in ipc && Safe(View()) && j < K.TRANSFER_SLOTS
      modifies this`ipc, parts
      ensures Valid() && View() == K.ClearSlot(old(View()), tid, j) && SameTables(old(ipc), ipc)
      ensures Safe(View()) && K.CurTid(View()) == K.CurTid(old(View()))
    {
      hide S.Inv, S.Wake, Scheduler.Valid, Scheduler.Objects, OwnsEnd, EndsApart, OwnsTable, TableApart, End.View;
      hide End.Valid, HandleTable.Valid, K.Drop, Safe, EndsView, TablesView;
      var c := ipc[tid].slots[j];
      if c.Some? {
        ghost var k1 := View();
        ipc := ipc[tid := ipc[tid].(slots := ipc[tid].slots[j := None])];
        SameSafe(k1, View());
        Drop(c.value.obj);
      }
    }

    /** Empties both transfer slots. */
    method ClearSlots(tid: nat)
      requires Valid() && tid in ipc && Safe(View())
      modifies this`ipc, parts
      ensures Valid() && View() == K.ClearSlots(old(View()), tid) && SameTables(old(ipc), ipc)
      ensures Safe(View()) && K.CurTid(View()) == K.CurTid(old(View()))
    {
      hide S.Inv, S.Wake, Scheduler.Valid, Scheduler.Objects, OwnsEnd, EndsApart, OwnsTable, TableApart, End.View;
      hide End.Valid, HandleTable.Valid, K.ClearSlot, Safe, EndsView, TablesView;
      ghost var k := View();
      for j := 0 to K.TRANSFER_SLOTS
        invariant Valid() && tid in ipc && SameTables(old(ipc), ipc)
        invariant Safe(View()) && K.CurTid(View()) == K.CurTid(k)
        invariant View() == if j == 0 then k else if j == 1 then K.ClearSlot(k, tid, 0) else K.ClearSlots(k, tid)
      {
        ClearSlot(tid, j);
      }
    }

    /** One handle of a blocking write into transfer slot `j`. */
    method StashOne(tid: nat, t: nat, hv: nat, j: nat) returns (taken: bool)
      requires Valid() && tid in ipc && t in tables && j < K.TRANSFER_SLOTS
      modifies this`nextHandle, this`ipc, tables[t].slots
      ensures Valid() && SameTables(old(ipc), ipc)
      ensures View().sched == old(View()).sched && View().chans == old(View()).chans
      ensures forall rest ::
        K.Stash(old(View()), tid, t, [hv] + rest, j) == K.Stash(View(), tid, t, rest, if taken then j + 1 else j)
    {
      hide S.Inv, S.Wake, Scheduler.Valid, Scheduler.Objects, OwnsEnd, EndsApart, OwnsTable, TableApart, End.View;
      hide End.Valid, HandleTable.Valid, K.TakeOut, K.Stash, EndsView;
      ghost var k := View();
      TakeOutKeeps(k, t, hv);
      var c := TakeOut(t, hv);
      if c.Some? {
        ipc := ipc[tid := ipc[tid].(slots := ipc[tid].slots[j := c])];
      }
      taken := c.Some?;
      forall rest ensures K.Stash(k, tid, t, [hv] + rest, j)
        == K.Stash(View(), tid, t, rest, if taken then j + 1 else j) {
        StashStep(k, tid, t, hv, rest, j);
      }
    }

    /** The handle loop of a blocking write. */
    method Stash(tid: nat, t: nat, hs: seq<nat>)
      requires Valid() && tid in ipc && t in tables && |hs| <= K.TRANSFER_SLOTS
      modifies this`nextHandle, this`ipc, tables[t].slots
      ensures Valid() && View() == K.Stash(old(View()), tid, t, hs, 0) && SameTables(old(ipc), ipc)
      ensures View().sched == old(View()).sched && View().chans == old(View()).chans
    {
      hide S.Inv, S.Wake, Scheduler.Valid, Scheduler.Objects, OwnsEnd, EndsApart, OwnsTable, TableApart, End.View;
      hide End.Valid, HandleTable.Valid, K.Stash;
      ghost var k := View();
      var j: nat := 0;
      assert hs[0..] == hs;
      for i := 0 to |hs|
        invariant Valid() && j <= i && tid in ipc && SameTables(old(ipc), ipc)
        invariant View().sched == k.sched && View().chans == k.chans
        invariant K.Stash(k, tid, t, hs, 0) == K.Stash(View(), tid, t, hs[i..], j)
      {
        assert hs[i..] == [hs[i]] + hs[i + 1..];
        var taken := StashOne(tid, t, hs[i], j);
        j := if taken then j + 1 else j;
      }
      NothingToStash(View(), tid, t, j);
    }

    /** Moves transfer slot `j` of a thread into a table. */
    method Unstash(from: nat, t: nat, j: nat)
      requires Valid() && from in ipc && t in tables && Safe(View()) && j < K.TRANSFER_SLOTS
      modifies this`nextHandle, this`ipc, parts
      ensures Valid() && View() == K.Unstash(old(View()), from, t, j) && SameTables(old(ipc), ipc)
      ensures Safe(View()) && K.CurTid(View()) == K.CurTid(old(View()))
    {
      hide S.Inv, S.Wake, Scheduler.Valid, Scheduler.Objects, OwnsEnd, EndsApart, OwnsTable, TableApart, End.View;
      hide End.Valid, HandleTable.Valid, K.Give, Safe;
      var c := ipc[from].slots[j];
      if c.Some? {
        ghost var k1 := View();
        ipc := ipc[from := ipc[from].(slots := ipc[from].slots[j := None])];
        SameSafe(k1, View());
        Give(t, c.value);
      }
    }

    /** Moves both transfer slots of a thread into a table. */
    method UnstashAll(from: nat, t: nat)
      requires Valid() && from in ipc && t in tables && Safe(View())
      modifies this`nextHandle, this`ipc, parts
      ensures Valid() && View() == K.UnstashAll(old(View()), from, t) && SameTables(old(ipc), ipc)
      ensures Safe(View()) && K.CurTid(View()) == K.CurTid(old(View()))
    {
      hide S.Inv, S.Wake, Scheduler.Valid, Scheduler.Objects, OwnsEnd, EndsApart, OwnsTable, TableApart, End.View;
      hide End.Valid, HandleTable.Valid, K.Unstash, Safe;
      ghost var k := View();
      for j := 0 to K.TRANSFER_SLOTS
        invariant Valid() && from in ipc && SameTables(old(ipc), ipc)
        invariant Safe(View()) && K.CurTid(View()) == K.CurTid(k)
        invariant View() == if j == 0 then k else if j == 1 then K.Unstash(k, from, t, 0) else K.UnstashAll(k, from, t)
      {
        Unstash(from, t, j);
      }
    }

    lemma TablesInside()
      requires Valid()
      ensures forall t :: t in tables ==> tables[t].slots in parts
    {
      forall t | t in tables ensures tables[t].slots in parts {
        assert OwnsTable(tables[t]);
      }
    }

    lemma EndsInside()
      requires Valid()
      ensures forall c :: c in ends ==> ends[c] in parts
    {
      forall c | c in ends ensures ends[c] in parts {
        assert OwnsEnd(ends[c]);
      }
    }

    lemma Inside()
      requires Apart()
      ensures this !in parts && sched.Objects() <= parts
    {
    }

    lemma Keys()
      requires Valid()
      ensures View().chans.Keys == ends.Keys && View().tables.Keys == tables.Keys
    {
    }

    method RegisterBuffer(tid: nat, buf: K.Bytes, actual: nat)
      requires Valid() && tid in ipc
      modifies this`ipc
      ensures Valid() && View() == K.SetIpc(old(View()), tid, buf, actual) && SameTables(old(ipc), ipc)
    {
      hide S.Inv, S.Wake, Scheduler.Valid, Scheduler.Objects, OwnsEnd, EndsApart, OwnsTable, TableApart, End.View;
      hide End.Valid, HandleTable.Valid, EndsView, TablesView;
      ipc := ipc[tid := ipc[tid].(buf := buf, actual := actual)];
    }

    // ----- what creating things does to the parts at hand -----

    /** A new object goes into a table; it is counted even when the table is full. */
    method AddObject(t: nat, kind: Kind, rights: nat) returns (ok: bool)
      requires Valid() && t in tables
      modifies this`nextHandle, this`nextOid, tables[t].slots
      ensures Valid() && ok == K.HasRoom(old(View()), t)
      ensures var k := K.AddCap(old(View()), t, K.Cap(Obj(old(View()).nextOid, kind), rights));
        View() == k.(nextOid := k.nextOid + 1)
    {
      hide Scheduler.Valid, Scheduler.Objects, OwnsEnd, EndsApart, OwnsTable, TableApart, End.View, End.Valid;
      hide HandleTable.Valid;
      hide K.HasRoom, Added;
      ok := AddCap(t, K.Cap(Obj(nextOid, kind), rights));
      nextOid := nextOid + 1;
    }

    /** Points an end at its peer. */
    method SetPeer(c: nat, peer: nat)
      requires Valid() && c in ends
      modifies ends[c]
      ensures Valid() && View() == K.SetChan(old(View()), c, old(View()).chans[c].(peer := Some(peer)))
    {
      hide Scheduler.Valid, Scheduler.Objects, W.Ids, W.GapFree;
      ends[c].peer := Some(peer);
      OnlyEnd(c);
    }

    /** A new thread enters the scheduler and gets clear IPC fields. */
    method EnterThread(t: S.Thread, table: Option<nat>)
      requires Valid() && S.Inv(View().sched) && S.Addable(View().sched, t)
      modifies this`ipc, sched.Objects()
      ensures Valid() && View() == old(View()).(sched := S.Add(old(View()).sched, t),
                                               ipc := old(View()).ipc[t.id := K.ThreadIpc([], 0, [None, None], table)])
    {
      hide S.Inv, S.Add, S.Addable, Scheduler.Valid, Scheduler.Objects, OwnsEnd, EndsApart, OwnsTable, TableApart;
      hide End.View, End.Valid, HandleTable.Valid, EndsView, TablesView;
      sched.Add(t);
      OnlySched();
      ipc := ipc[t.id := K.ThreadIpc([], 0, [None, None], table)];
    }

    // ----- write -----

    /** Records a delivery from end `c`. */
    method LogDelivery(c: nat, ghost w: K.WriteReq, ghost d: K.Delivery)
      requires Valid() && c in ends
      modifies ends[c]
      ensures Valid() && View() == K.SetChan(old(View()), c,
        old(View()).chans[c].(wlog := old(View()).chans[c].wlog + [w], done := old(View()).chans[c].done + [d]))
    {
      hide Scheduler.Valid, Scheduler.Objects, W.Ids, W.GapFree;
      ends[c].wlog := ends[c].wlog + [w];
      ends[c].done := ends[c].done + [d];
      OnlyEnd(c);
    }

    /** Registers the message and marks the thread blocked. */
    method RegisterAndBlock(w: nat, data: K.Bytes)
      requires Valid() && w in ipc && Safe(View())
      modifies this`ipc, sched.Objects()
      ensures Valid() && View() == K.SetCurState(K.SetIpc(old(View()), w, data, 0), S.Blocked)
        && SameTables(old(ipc), ipc)
      ensures Safe(View()) && K.CurTid(View()) == K.CurTid(old(View()))
    {
      hide S.Inv, S.Wake, Scheduler.Valid, Scheduler.Objects, OwnsEnd, EndsApart, OwnsTable, TableApart, End.View;
      hide End.Valid, HandleTable.Valid, Safe, S.BlockCurrent, EndsView, TablesView;
      ghost var k := View();
      SafeInv(k);
      ipc := ipc[w := ipc[w].(buf := data, actual := 0)];
      SameSafe(k, View());
      SetCurrentState(S.Blocked);
      StillSafe(k, View());
    }

    /** Moves a blocking writer's handles into its emptied transfer slots. */
    method PrepareWrite(w: nat, data: K.Bytes, hs: seq<nat>)
      requires Valid() && w in ipc && Safe(View()) && TablesKnown(ipc)
      modifies this, parts
      ensures Valid() && View() == PreparedWrite(old(View()), w, data, hs) && SameTables(old(ipc), ipc)
      ensures Safe(View()) && K.CurTid(View()) == K.CurTid(old(View()))
    {
      hide S.Inv, S.Wake, Scheduler.Valid, Scheduler.Objects, OwnsEnd, EndsApart, OwnsTable, TableApart, End.View;
      hide End.Valid, HandleTable.Valid, Safe, K.SetCurState, K.SetIpc, K.ClearSlots, K.Stash, EndsView, TablesView;
      hide SameTables;
      Inside();
      ghost var a := ipc;
      RegisterAndBlock(w, data);
      ghost var b := ipc;
      TableStays(a, b, w);
      ClearSlots(w);
      SameTablesTrans(a, b, ipc);
      TableStays(a, ipc, w);
      ghost var k1 := View();
      if ipc[w].table.Some? {
        ghost var c := ipc;
        TableInside(ipc[w].table.value);
        Stash(w, ipc[w].table.value, K.FirstTwo(hs));
        SameSafe(k1, View());
        SameTablesTrans(a, c, ipc);
      }
    }

    /** Stashes the handles, joins the senders of this end and gives up the processor. */
    method WriteBlocking(c: nat, w: nat, data: K.Bytes, hs: seq<nat>) returns (out: K.Outcome)
      requires Valid() && w in ipc && c in ends && Safe(View()) && TablesKnown(ipc)
      modifies this, parts
      ensures Valid() && (View(), out) == K.WriteBlocking(old(View()), c, w, data, hs) && S.Inv(View().sched)
    {
      hide S.Inv, S.Wake, Scheduler.Valid, Scheduler.Objects, OwnsEnd, EndsApart, OwnsTable, TableApart, End.View;
      hide End.Valid, HandleTable.Valid, Safe, K.WriteBlocking, PreparedWrite, K.UnstashAll, S.Schedule, S.BlockCurrent;
      hide W.Ids, W.GapFree;
      WriteBlockingIs(View(), c, w, data, hs);
      PrepareWrite(w, data, hs);
      EndOutside(c);
      Keys();
      SafeInv(View());
      var ok := PushSender(c, w, data);
      if ok {
        Reschedule();
        return K.Blocks;
      }
      if ipc[w].table.Some? {
        UnstashAll(w, ipc[w].table.value);
      }
      SafeInv(View());
      SetCurrentState(S.Running);
      return K.Fail(NoMemory);
    }

    /** Copies the message to a receiver just taken off the peer's line, and records the delivery. */
    method CopyToReceiver(c: nat, r: nat, w: nat, data: K.Bytes)
      requires Valid() && c in ends && r in ipc
      modifies this`ipc, ends[c]
      ensures Valid() && SameTables(old(ipc), ipc) && r in ipc && ipc[r].actual <= |ipc[r].buf|
      ensures var k := old(View());
        var n := Min(|data|, |k.ipc[r].buf|);
        var k1 := K.SetIpc(k, r, data[..n] + k.ipc[r].buf[n..], n);
        View() == K.SetChan(k1, c, k.chans[c].(wlog := k.chans[c].wlog + [K.WriteReq(w, data)],
                                               done := k.chans[c].done + [K.Delivery(w, r, k1.ipc[r].buf[..n])]))
    {
      hide S.Inv, S.Wake, Scheduler.Valid, Scheduler.Objects, OwnsEnd, EndsApart, OwnsTable, TableApart, End.View;
      hide End.Valid, HandleTable.Valid, W.Ids, W.GapFree;
      EndOutside(c);
      var buf := ipc[r].buf;
      var n := Min(|data|, |buf|);
      ipc := ipc[r := ipc[r].(buf := data[..n] + buf[n..], actual := n)];
      LogDelivery(c, K.WriteReq(w, data), K.Delivery(w, r, ipc[r].buf[..n]));
    }

    /** `write` on end `c` by the current thread. */
    method Write(c: nat, data: K.Bytes, hs: seq<nat>) returns (out: K.Outcome)
      requires Valid() && c in ends && Safe(View()) && TablesKnown(ipc)
      modifies this, parts
      ensures Valid() && (View(), out) == K.Write(old(View()), c, data, hs)
    {
      hide S.Inv, S.Wake, Scheduler.Valid, Scheduler.Objects, OwnsEnd, EndsApart, OwnsTable, TableApart, End.View;
      hide End.Valid, HandleTable.Valid, Safe, K.WriteBlocking, K.TransferAll, W.Ids, W.GapFree;
      ghost var k := View();
      SafeInv(k);
      var open, peer := EndState(c);
      if !open {
        return K.Fail(PeerClosed);
      }
      var w := CurrentThread();
      if w.None? || w.value !in ipc {
        return K.Fail(ThreadNotFound);
      }
      if peer.None? || peer.value !in ends {
        return K.Fail(PeerClosed);
      }
      var p := peer.value;
      EndOutside(p);
      EndOutside(c);
      SafeAt(k, p);
      var r := PopReceiver(p);
      PoppedSafe(k, View(), p);
      if r.Some? && r.value in ipc {
        out := Deliver(k, c, p, w.value, r.value, data, hs);
        return;
      }
      out := WriteBlocking(c, w.value, data, hs);
    }

    /** The delivery half of `write`. */
    method Deliver(ghost k: K.State, c: nat, p: nat, w: nat, r: nat, data: K.Bytes, hs: seq<nat>)
      returns (out: K.Outcome)
      requires Valid() && c in ends && Safe(View()) && TablesKnown(ipc) && w in ipc && r in ipc
        && K.CurTid(View()) != Some(r)
      requires c in k.chans && p in k.chans && k.chans[p].recv != [] && k.chans[p].recv[0] == r && r in k.ipc
      requires View() == K.SetChan(k, p, k.chans[p].(recv := k.chans[p].recv[1..]))
      modifies this, parts
      ensures Valid() && S.Inv(View().sched)
      ensures var k1 := K.HandOver(k, c, p, w, data);
        View() == K.Wake(K.DeliverHandles(k1, w, r, hs), r) && out == K.Done(k1.ipc[r].buf[..k1.ipc[r].actual])
    {
      hide S.Inv, S.Wake, Scheduler.Valid, Scheduler.Objects, OwnsEnd, EndsApart, OwnsTable, TableApart, End.View;
      hide End.Valid, HandleTable.Valid, EndsView, TablesView, Safe, K.TransferAll, K.HandOver, K.SetChan;
      EndOutside(c);
      HandedOver(k, c, p, w, data);
      ghost var k0 := View();
      CopyToReceiver(c, r, w, data);
      LoggedSafe(k0, View());
      out := K.Done(ipc[r].buf[..ipc[r].actual]);
      if ipc[w].table.Some? && ipc[r].table.Some? {
        TransferAll(ipc[w].table.value, ipc[r].table.value, K.FirstTwo(hs));
      }
      SafeInv(View());
      WakeThread(r);
    }

    // ----- read -----

    /** Records a delivery picked up from end `p`. */
    method LogPickUp(p: nat, ghost d: K.Delivery)
      requires Valid() && p in ends
      modifies ends[p]
      ensures Valid() && View() == K.SetChan(old(View()), p,
        old(View()).chans[p].(done := old(View()).chans[p].done + [d]))
    {
      hide Scheduler.Valid, Scheduler.Objects, W.Ids, W.GapFree;
      ends[p].done := ends[p].done + [d];
      OnlyEnd(p);
    }

    /** Records a read accepted on end `c`. */
    method LogRead(c: nat, ghost r: K.ReadReq)
      requires Valid() && c in ends
      modifies ends[c]
      ensures Valid() && View() == K.SetChan(old(View()), c,
        old(View()).chans[c].(rlog := old(View()).chans[c].rlog + [r]))
    {
      hide Scheduler.Valid, Scheduler.Objects, W.Ids, W.GapFree;
      ends[c].rlog := ends[c].rlog + [r];
      OnlyEnd(c);
    }

    /** Joins the receivers of this end and gives up the processor. */
    method ReadBlocking(c: nat, r: nat, buf: K.Bytes) returns (out: K.Outcome)
      requires Valid() && r in ipc && c in ends && S.Inv(View().sched)
      modifies this`ipc, parts
      ensures Valid() && (View(), out) == K.ReadBlocking(old(View()), c, r, buf) && S.Inv(View().sched)
    {
      hide S.Inv, S.Wake, Scheduler.Valid, Scheduler.Objects, OwnsEnd, EndsApart, OwnsTable, TableApart, End.View;
      hide End.Valid, HandleTable.Valid, EndsView, TablesView, S.Schedule, S.BlockCurrent;
      EndOutside(c);
      Keys();
      RegisterBuffer(r, buf, 0);
      SetCurrentState(S.Blocked);
      var ok := PushReceiver(c, r, |buf|);
      if ok {
        Reschedule();
        return K.Blocks;
      }
      SetCurrentState(S.Running);
      return K.Fail(NoMemory);
    }

    /** The pick-up half of `read`. */
    method PickUp(ghost k: K.State, c: nat, p: nat, r: nat, s: nat, len: nat) returns (data: K.Bytes)
      requires Valid() && c in ends && p in ends && c != p && Safe(View()) && TablesKnown(ipc) && r in ipc && s in ipc
        && K.CurTid(View()) != Some(s)
      requires c in k.chans && p in k.chans && k.chans[p].send != [] && k.chans[p].send[0] == s && s in k.ipc
      requires View() == K.SetChan(k, p, k.chans[p].(send := k.chans[p].send[1..]))
      modifies this, parts
      ensures Valid() && S.Inv(View().sched)
      ensures View() == K.Wake(K.CollectHandles(K.PickUp(k, c, p, r, len), r, s), s)
        && data == K.Prefix(k.ipc[s].buf, len)
    {
      hide S.Inv, S.Wake, Scheduler.Valid, Scheduler.Objects, OwnsEnd, EndsApart, OwnsTable, TableApart, End.View;
      hide End.Valid, HandleTable.Valid, EndsView, TablesView, Safe, K.UnstashAll, K.PickUp;
      EndOutside(c);
      EndOutside(p);
      Keys();
      ghost var k0 := View();
      PickedUp(k, c, p, r, s, len);
      data := CopyOut(k, c, p, r, s, len);
      LoggedSafe(k0, View());
      if ipc[r].table.Some? {
        UnstashAll(s, ipc[r].table.value);
      }
      SafeInv(View());
      WakeThread(s);
    }

    /** Copies the message out of the sender's buffer, and records the delivery at both ends. */
    method CopyOut(ghost k: K.State, c: nat, p: nat, r: nat, s: nat, len: nat) returns (data: K.Bytes)
      requires Valid() && c in ends && p in ends && c != p && s in ipc
      requires c in k.chans && p in k.chans && k.chans[p].send != [] && k.chans[p].send[0] == s && s in k.ipc
      requires View() == K.SetChan(k, p, k.chans[p].(send := k.chans[p].send[1..]))
      modifies this`ipc, ends[c], ends[p]
      ensures Valid() && SameTables(old(ipc), ipc)
      ensures View() == K.PickUp(k, c, p, r, len) && data == K.Prefix(k.ipc[s].buf, len)
    {
      hide S.Inv, S.Wake, Scheduler.Valid, Scheduler.Objects, OwnsEnd, EndsApart, OwnsTable, TableApart, End.View;
      hide End.Valid, HandleTable.Valid, EndsView, TablesView, K.PickUp, K.SetChan, K.Prefix;
      EndOutside(c);
      EndOutside(p);
      PickUpIs(k, c, p, r, s, len);
      data := K.Prefix(ipc[s].buf, len);
      LogPickUp(p, K.Delivery(s, r, data));
      RegisterBuffer(s, ipc[s].buf, |data|);
      LogRead(c, K.ReadReq(r, len));
    }

    /** `read` on end `c` by the current thread into a buffer that holds `buf`. */
    method Read(c: nat, buf: K.Bytes) returns (out: K.Outcome)
      requires Valid() && c in ends && Safe(View()) && TablesKnown(ipc) && View().chans[c].peer != Some(c)
      modifies this, parts
      ensures Valid() && (View(), out) == K.Read(old(View()), c, buf)
    {
      hide S.Inv, S.Wake, Scheduler.Valid, Scheduler.Objects, OwnsEnd, EndsApart, OwnsTable, TableApart, End.View;
      hide End.Valid, HandleTable.Valid, Safe, K.ReadBlocking, K.CollectHandles, W.Ids, W.GapFree;
      ghost var k := View();
      SafeInv(k);
      var open, peer := EndState(c);
      if !open {
        return K.Fail(PeerClosed);
      }
      var r := CurrentThread();
      if r.None? || r.value !in ipc {
        return K.Fail(ThreadNotFound);
      }
      if peer.None? || peer.value !in ends {
        return K.Fail(PeerClosed);
      }
      var p := peer.value;
      EndOutside(p);
      EndOutside(c);
      SafeAt(k, p);
      var s := PopSender(p);
      PoppedSafe(k, View(), p);
      if s.Some? && s.value in ipc {
        var data := PickUp(k, c, p, r.value, s.value, |buf|);
        return K.Done(data);
      }
      SafeInv(View());
      out := ReadBlocking(c, r.value, buf);
    }
  }

  /** The array with its first `i` slots emptied. */
  ghost function Emptied(a: seq<Option<nat>>, i: nat): (r: seq<Option<nat>>)
    ensures |r| == |a|
  {
    seq(|a|, j requires 0 <= j < |a| => if j < i then None else a[j])
  }

  lemma EmptiedStep(a: seq<Option<nat>>, i: nat)
    requires i < |a|
    ensures Emptied(a, 0) == a && Emptied(a, i)[i] == a[i] && Emptied(a, i)[i := None] == Emptied(a, i + 1)
  {
  }

  lemma RestAll(s: seq<nat>)
    ensures Rest(s, 0) == s
  {
  }

  lemma RestNone(s: seq<nat>)
    requires |s| <= W.MAX_WAITERS
    ensures Rest(s, W.MAX_WAITERS) == []
  {
  }

  /** Slot `i` of a gap-free array holds the `i`-th id, or nothing past the last. */
  lemma SlotIs(a: seq<Option<nat>>, i: nat)
    requires W.GapFree(a) && i < |a|
    ensures a[i] == if i < |W.Ids(a)| then Some(W.Ids(a)[i]) else None
  {
  }

  lemma AllNone(a: seq<Option<nat>>)
    requires forall i :: 0 <= i < |a| ==> a[i].None?
    ensures W.GapFree(a) && W.Ids(a) == []
  {
  }

  lemma SetSame(k: K.State, c: nat)
    requires c in k.chans
    ensures K.SetChan(k, c, k.chans[c]) == k
  {
    assert k.chans[c := k.chans[c]] == k.chans;
  }

  /** Tables and counters have no part in safety. */
  lemma SameSafe(k: K.State, k': K.State)
    requires Safe(k) && k'.sched == k.sched && k'.chans == k.chans
    ensures Safe(k') && K.CurTid(k') == K.CurTid(k)
  {
    hide S.Inv;
  }

  lemma SafeInv(k: K.State)
    requires Safe(k)
    ensures S.Inv(k.sched)
  {
  }

  /** Changing the state of the current thread keeps safety. */
  lemma StillSafe(k: K.State, k': K.State)
    requires Safe(k) && S.Inv(k'.sched) && k'.chans == k.chans && K.CurTid(k') == K.CurTid(k)
    ensures Safe(k')
  {
    hide S.Inv;
  }

  /** The same threads with the same tables. */
  ghost predicate SameTables(a: map<nat, K.ThreadIpc>, b: map<nat, K.ThreadIpc>) {
    a.Keys == b.Keys && forall t :: t in a ==> b[t].table == a[t].table
  }

  lemma TakeOutKeeps(k: K.State, t: nat, hv: nat)
    requires t in k.tables
    ensures var (k1, c) := K.TakeOut(k, t, hv);
      k1.ipc == k.ipc && k1.tables.Keys == k.tables.Keys && k1.chans == k.chans && k1.sched == k.sched
  {
  }

  lemma StashStep(k: K.State, tid: nat, t: nat, hv: nat, rest: seq<nat>, j: nat)
    requires tid in k.ipc && t in k.tables && j < K.TRANSFER_SLOTS
    ensures var (k1, c) := K.TakeOut(k, t, hv);
      && k1.ipc == k.ipc && k1.tables.Keys == k.tables.Keys
      && K.Stash(k, tid, t, [hv] + rest, j)
         == if c.Some? then K.Stash(K.SetSlot(k1, tid, j, c), tid, t, rest, j + 1) else K.Stash(k1, tid, t, rest, j)
  {
    hide K.TakeOut;
    TakeOutKeeps(k, t, hv);
    assert ([hv] + rest)[0] == hv && ([hv] + rest)[1..] == rest;
  }

  lemma NothingToStash(k: K.State, tid: nat, t: nat, j: nat)
    ensures K.Stash(k, tid, t, [], j) == k
  {
  }

  /** Taking somebody off a line keeps safety. */
  lemma PoppedSafe(k: K.State, k': K.State, p: nat)
    requires Safe(k) && p in k.chans && k'.sched == k.sched && k'.chans.Keys == k.chans.Keys
    requires forall c :: c in k.chans && c != p ==> k'.chans[c] == k.chans[c]
    requires k'.chans[p].send == k.chans[p].send || (k.chans[p].send != [] && k'.chans[p].send == k.chans[p].send[1..])
    requires k'.chans[p].recv == k.chans[p].recv || (k.chans[p].recv != [] && k'.chans[p].recv == k.chans[p].recv[1..])
    ensures Safe(k') && K.CurTid(k') == K.CurTid(k)
  {
    hide S.Inv;
  }

  /** History entries keep safety. */
  lemma LoggedSafe(k: K.State, k': K.State)
    requires Safe(k) && k'.sched == k.sched && k'.chans.Keys == k.chans.Keys
    requires forall d :: d in k.chans ==> k'.chans[d].send == k.chans[d].send && k'.chans[d].recv == k.chans[d].recv
    ensures Safe(k') && K.CurTid(k') == K.CurTid(k)
  {
    hide S.Inv;
  }

  /** A pick-up moves nobody on or off a line beyond the sender already taken. */
  lemma PickedUp(k: K.State, c: nat, p: nat, r: nat, s: nat, len: nat)
    requires c in k.chans && p in k.chans && k.chans[p].send != [] && k.chans[p].send[0] == s && s in k.ipc && c != p
    ensures var k0 := K.SetChan(k, p, k.chans[p].(send := k.chans[p].send[1..]));
      var k1 := K.PickUp(k, c, p, r, len);
      && k1.sched == k0.sched && k1.chans.Keys == k0.chans.Keys
      && forall d :: d in k0.chans ==> k1.chans[d].send == k0.chans[d].send && k1.chans[d].recv == k0.chans[d].recv
  {
  }

  /** A pick-up in the steps in which the code takes it. */
  lemma PickUpIs(k: K.State, c: nat, p: nat, r: nat, s: nat, len: nat)
    requires c in k.chans && p in k.chans && k.chans[p].send != [] && k.chans[p].send[0] == s && s in k.ipc && c != p
    ensures var k0 := K.SetChan(k, p, k.chans[p].(send := k.chans[p].send[1..]));
      && k0.ipc == k.ipc && p in k0.chans
      && var data := K.Prefix(k.ipc[s].buf, len);
         var k1 := K.SetChan(k0, p, k0.chans[p].(done := k0.chans[p].done + [K.Delivery(s, r, data)]));
         && k1.ipc == k.ipc
         && var k2 := K.SetIpc(k1, s, k.ipc[s].buf, |data|);
            && c in k2.chans
            && K.SetChan(k2, c, k2.chans[c].(rlog := k2.chans[c].rlog + [K.ReadReq(r, len)]))
              == K.PickUp(k, c, p, r, len)
  {
    var k0 := K.SetChan(k, p, k.chans[p].(send := k.chans[p].send[1..]));
    var d := k0.chans[p].(done := k0.chans[p].done + [K.Delivery(s, r, K.Prefix(k.ipc[s].buf, len))]);
    assert k0.chans[p := d] == k.chans[p := d];
  }

  /** A delivery in the steps in which the code takes it moves nobody beyond the receiver already taken. */
  lemma HandedOver(k: K.State, c: nat, p: nat, w: nat, data: K.Bytes)
    requires c in k.chans && p in k.chans && k.chans[p].recv != [] && k.chans[p].recv[0] in k.ipc
    ensures var r := k.chans[p].recv[0];
      var n := Min(|data|, |k.ipc[r].buf|);
      var k0 := K.SetChan(k, p, k.chans[p].(recv := k.chans[p].recv[1..]));
      var k' := K.HandOver(k, c, p, w, data);
      && k0.ipc == k.ipc && c in k0.chans
      && (var k1 := K.SetIpc(k0, r, data[..n] + k.ipc[r].buf[n..], n);
          k' == K.SetChan(k1, c, k0.chans[c].(wlog := k0.chans[c].wlog + [K.WriteReq(w, data)],
                                              done := k0.chans[c].done + [K.Delivery(w, r, k1.ipc[r].buf[..n])])))
      && k'.sched == k0.sched && k'.chans.Keys == k0.chans.Keys
      && forall d :: d in k0.chans ==> k'.chans[d].send == k0.chans[d].send && k'.chans[d].recv == k0.chans[d].recv
  {
  }

  /** The state in which a blocking writer looks for room among the senders. */
  function PreparedWrite(k: K.State, w: nat, data: K.Bytes, hs: seq<nat>): K.State
    requires w in k.ipc
  {
    var k1 := K.ClearSlots(K.SetCurState(K.SetIpc(k, w, data, 0), S.Blocked), w);
    if w in k1.ipc && k1.ipc[w].table.Some? then K.Stash(k1, w, k1.ipc[w].table.value, K.FirstTwo(hs), 0) else k1
  }

  lemma WriteBlockingIs(k: K.State, c: nat, w: nat, data: K.Bytes, hs: seq<nat>)
    requires w in k.ipc
    ensures var k2 := PreparedWrite(k, w, data, hs);
      K.WriteBlocking(k, c, w, data, hs)
      == if c in k2.chans && |k2.chans[c].send| < W.MAX_WAITERS then
           var ch := k2.chans[c];
           var k3 := K.SetChan(k2, c, ch.(send := ch.send + [w], wlog := ch.wlog + [K.WriteReq(w, data)]));
           (k3.(sched := S.Schedule(k3.sched)), K.Blocks)
         else
           var k3 := if w in k2.ipc && k2.ipc[w].table.Some? then K.UnstashAll(k2, w, k2.ipc[w].table.value) else k2;
           (K.SetCurState(k3, S.Running), K.Fail(NoMemory))
  {
    hide K.ClearSlots, K.Stash, K.UnstashAll, S.Schedule, S.BlockCurrent;
  }

  lemma SameTablesTrans(a: map<nat, K.ThreadIpc>, b: map<nat, K.ThreadIpc>, c: map<nat, K.ThreadIpc>)
    requires SameTables(a, b) && SameTables(b, c)
    ensures SameTables(a, c)
  {
  }

  lemma TableStays(a: map<nat, K.ThreadIpc>, b: map<nat, K.ThreadIpc>, w: nat)
    requires SameTables(a, b) && w in a
    ensures w in b && b[w].table == a[w].table
  {
  }
}
