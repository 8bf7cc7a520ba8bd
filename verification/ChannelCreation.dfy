/**
 * Making channels, handle tables and threads on the kernel's arrays (kernel/src/syscall/handlers/ipc.rs
 * and process.rs).  The arrays that exist stay in place; the system that lists them by number is made
 * anew with one more entry.
 */
module ChannelCreation {
  import opened Common
  import opened HandleTables
  import opened Channels
  import K = Kernel
  import S = SchedSpec
  import W = WaiterArray
  import Scheduler

  ghost function PartsOf(e: End): set<object> {
    {e, e.send, e.recv, e.send.slots, e.recv.slots}
  }

  /** `b` is `a` with one more end. */
  ghost predicate OneMoreEnd(a: System, b: System, c: nat, e: End) {
    && b.sched == a.sched && b.tables == a.tables && c !in a.ends && b.ends == a.ends[c := e]
    && b.parts == a.parts + PartsOf(e) && a.parts !! PartsOf(e) && b !in b.parts
  }

  lemma OneMoreEndApart(a: System, b: System, c: nat, e: End)
    requires OneMoreEnd(a, b, c, e) && a.Apart()
    ensures b.Apart()
  {
    hide Scheduler.Scheduler.Objects, System.EndsApart, System.TableApart;
    forall d | d in b.ends ensures b.OwnsEnd(b.ends[d]) {
      if d != c {
        assert a.OwnsEnd(a.ends[d]);
      }
    }
    forall d | d in a.ends ensures b.EndsApart(a.ends[d], e) && b.EndsApart(e, a.ends[d]) {
      assert a.OwnsEnd(a.ends[d]);
      NewApart(b, a.ends[d], e, a.parts);
    }
    forall d, x | d in b.ends && x in b.ends && d != x ensures b.EndsApart(b.ends[d], b.ends[x]) {
      if d != c && x != c {
        assert a.EndsApart(a.ends[d], a.ends[x]);
        SameApart(a, b, a.ends[d], a.ends[x]);
      }
    }
    forall t | t in b.tables ensures b.OwnsTable(b.tables[t]) && b.TableApart(b.tables[t], e) {
      assert a.OwnsTable(a.tables[t]);
      NewTableApart(b, a.tables[t], e, a.parts);
    }
    forall t, d | t in b.tables && d in b.ends ensures b.TableApart(b.tables[t], b.ends[d]) {
      if d != c {
        assert a.TableApart(a.tables[t], a.ends[d]);
        SameTableApart(a, b, a.tables[t], a.ends[d]);
      }
    }
  }

  lemma NewApart(b: System, f: End, e: End, parts: set<object>)
    requires PartsOf(f) <= parts && parts !! PartsOf(e)
    ensures b.EndsApart(f, e) && b.EndsApart(e, f)
  {
  }

  lemma SameApart(a: System, b: System, e: End, f: End)
    ensures a.EndsApart(e, f) <==> b.EndsApart(e, f)
  {
  }

  lemma NewTableApart(b: System, t: HandleTable, e: End, parts: set<object>)
    requires ({t, t.slots} <= parts && parts !! PartsOf(e)) || ({t, t.slots} !! parts && PartsOf(e) <= parts)
    ensures b.TableApart(t, e)
  {
  }

  lemma SameTableApart(a: System, b: System, t: HandleTable, e: End)
    ensures a.TableApart(t, e) <==> b.TableApart(t, e)
  {
  }

  /** What the arrays stand for with one more end. */
  lemma OneMoreEndView(a: System, b: System, c: nat, e: End)
    requires OneMoreEnd(a, b, c, e) && a.Valid() && e.Valid()
    ensures b.Valid() && b.EndsView() == a.EndsView()[c := e.View()] && b.TablesView() == a.TablesView()
  {
    hide Scheduler.Scheduler.Objects, Scheduler.Scheduler.Valid, System.OwnsEnd, System.OwnsTable, System.EndsApart;
    hide System.TableApart;
    hide End.View, End.Valid, HandleTable.Valid;
    OneMoreEndApart(a, b, c, e);
    assert forall d :: d in b.ends ==> b.ends[d].Valid();
  }

  /** A new open end, linked to nobody and waited on by nobody. */
  method AddEnd(sys: System, c: nat) returns (next: System)
    requires sys.Valid() && c !in sys.ends
    ensures fresh(next) && fresh(next.parts - sys.parts) && sys.parts <= next.parts
    ensures next.sched == sys.sched && next.ipc == sys.ipc && next.tables == sys.tables
      && next.ends.Keys == sys.ends.Keys + {c}
    ensures next.Valid() && next.View() == K.SetChan(old(sys.View()), c, K.FRESH_CHAN)
  {
    hide Scheduler.Scheduler.Objects, Scheduler.Scheduler.Valid, System.Apart, W.Ids, W.GapFree, HandleTable.Valid;
    PartsAllocated(sys);
    var e := new End();
    next := new System(sys.sched, sys.ends[c := e], sys.tables, sys.ipc, sys.nextHandle, sys.nextOid,
      sys.parts + PartsOf(e));
    StillSame(sys);
    OneMoreEndView(sys, next, c, e);
  }

  lemma PartsAllocated(sys: System)
    ensures forall o :: o in sys.parts ==> allocated(o)
  {
  }

  twostate lemma StillSame(sys: System)
    requires old(sys.Valid()) && unchanged(sys) && forall o :: o in sys.parts ==> unchanged(o)
    ensures sys.Valid() && sys.View() == old(sys.View())
    ensures sys.EndsView() == old(sys.EndsView()) && sys.TablesView() == old(sys.TablesView())
  {
    hide Scheduler.Scheduler.Valid, Scheduler.Scheduler.Objects, System.Apart, System.Valid, System.EndsView;
    hide System.TablesView;
  }

  /** `b` is `a` with one more handle table. */
  ghost predicate OneMoreTable(a: System, b: System, x: nat, t: HandleTable) {
    && b.sched == a.sched && b.ends == a.ends && x !in a.tables && b.tables == a.tables[x := t]
    && b.parts == a.parts + {t, t.slots} && a.parts !! {t, t.slots} && b !in b.parts
  }

  lemma OneMoreTableApart(a: System, b: System, x: nat, t: HandleTable)
    requires OneMoreTable(a, b, x, t) && a.Apart()
    ensures b.Apart()
  {
    hide Scheduler.Scheduler.Objects, System.EndsApart, System.TableApart;
    forall d | d in b.ends ensures b.OwnsEnd(b.ends[d]) && b.TableApart(t, b.ends[d]) {
      assert a.OwnsEnd(a.ends[d]);
      NewTableApart(b, t, a.ends[d], a.parts);
    }
    forall d, e | d in b.ends && e in b.ends && d != e ensures b.EndsApart(b.ends[d], b.ends[e]) {
      assert a.EndsApart(a.ends[d], a.ends[e]);
      SameApart(a, b, a.ends[d], a.ends[e]);
    }
    forall u | u in b.tables ensures b.OwnsTable(b.tables[u]) {
      if u != x {
        assert a.OwnsTable(a.tables[u]);
      }
    }
    forall u, w | u in b.tables && w in b.tables && u != w ensures b.tables[u].slots != b.tables[w].slots {
      if u == x {
        assert a.OwnsTable(a.tables[w]);
      } else if w == x {
        assert a.OwnsTable(a.tables[u]);
      }
    }
    forall u, d | u in b.tables && d in b.ends ensures b.TableApart(b.tables[u], b.ends[d]) {
      if u != x {
        assert a.TableApart(a.tables[u], a.ends[d]);
        SameTableApart(a, b, a.tables[u], a.ends[d]);
      }
    }
  }

  lemma OneMoreTableView(a: System, b: System, x: nat, t: HandleTable)
    requires OneMoreTable(a, b, x, t) && a.Valid() && t.Valid()
    ensures b.Valid() && b.EndsView() == a.EndsView() && b.TablesView() == a.TablesView()[x := t.slots[..]]
  {
    hide Scheduler.Scheduler.Objects, Scheduler.Scheduler.Valid, System.OwnsEnd, System.OwnsTable, System.EndsApart;
    hide System.TableApart;
    hide End.View, End.Valid, HandleTable.Valid;
    OneMoreTableApart(a, b, x, t);
    assert forall u :: u in b.tables ==> b.tables[u].Valid();
  }

  /** A new handle table without handles. */
  method AddTable(sys: System, x: nat) returns (next: System)
    requires sys.Valid() && x !in sys.tables
    ensures fresh(next) && fresh(next.parts - sys.parts) && sys.parts <= next.parts
    ensures next.sched == sys.sched && next.ends == sys.ends && next.tables.Keys == sys.tables.Keys + {x}
    ensures next.Valid() && next.View() == old(sys.View()).(tables := old(sys.View()).tables[x := K.EmptyTable()])
  {
    hide Scheduler.Scheduler.Objects, Scheduler.Scheduler.Valid, System.Apart, End.View, End.Valid;
    PartsAllocated(sys);
    var t := new HandleTable();
    assert t.slots[..] == K.EmptyTable();
    next := new System(sys.sched, sys.ends, sys.tables[x := t], sys.ipc, sys.nextHandle, sys.nextOid,
      sys.parts + {t, t.slots});
    StillSame(sys);
    OneMoreTableView(sys, next, x, t);
  }

  // ----- the calls -----

  /** Creating a channel in the steps in which the code takes it. */
  lemma CreateChannelIs(k: K.State, t: nat, c: nat, d: nat, rights: nat)
    requires t in k.tables && c != d && c !in k.chans && d !in k.chans
    ensures var k1 := K.AddCap(k, t, K.Cap(Obj(k.nextOid, ChannelKind(c)), rights));
      var k2 := k1.(nextOid := k1.nextOid + 1);
      && t in k2.tables
      && K.CreateChannel(k, t, c, d, rights)
         == if K.HasRoom(k, t) then SecondEndState(K.SetChan(k2, c, K.FRESH_CHAN), t, c, d, rights) else k2
  {
    hide Added, FirstFree;
    FullStays(k, t, Slot(k.nextHandle, rights, Obj(k.nextOid, ChannelKind(c))));
    if K.HasRoom(k, t) {
      var k2 := K.AddCap(k, t, K.Cap(Obj(k.nextOid, ChannelKind(c)), rights)).(nextOid := k.nextOid + 1);
      var k3 := K.SetChan(k2, c, K.FRESH_CHAN);
      FullStays(k3, t, Slot(k3.nextHandle, rights, Obj(k3.nextOid, ChannelKind(d))));
    }
  }

  lemma FullStays(k: K.State, t: nat, s: Slot)
    requires t in k.tables
    ensures !K.HasRoom(k, t) ==> k.tables[t := Added(k.tables[t], s)] == k.tables
  {
    if !K.HasRoom(k, t) {
      assert Added(k.tables[t], s) == k.tables[t];
    }
  }

  /** The second end: made, put into the table, and linked to the first if there was room. */
  method SecondEnd(sys: System, t: nat, c: nat, d: nat, rights: nat) returns (next: System)
    requires sys.Valid() && t in sys.tables && c in sys.ends && c != d && d !in sys.ends
    modifies sys`nextHandle, sys`nextOid, sys.parts
    ensures fresh(next.parts - sys.parts) && (next == sys || fresh(next))
    ensures next.Valid() && next.View() == SecondEndState(old(sys.View()), t, c, d, rights)
    ensures next.ipc == old(sys.ipc) && next.tables == sys.tables
  {
    hide Scheduler.Scheduler.Objects, Scheduler.Scheduler.Valid, System.Apart, System.Valid, System.EndsView;
    hide System.TablesView;
    hide K.AddCap, K.HasRoom;
    sys.Keys();
    sys.TablesInside();
    var ok := sys.AddObject(t, ChannelKind(d), rights);
    if !ok {
      return sys;
    }
    next := AddEnd(sys, d);
    next.Keys();
    next.EndsInside();
    next.SetPeer(c, d);
    next.SetPeer(d, c);
  }

  function SecondEndState(k: K.State, t: nat, c: nat, d: nat, rights: nat): K.State
    requires t in k.tables && c in k.chans && c != d
  {
    var k4 := K.AddCap(k, t, K.Cap(Obj(k.nextOid, ChannelKind(d)), rights));
    var k5 := k4.(nextOid := k4.nextOid + 1);
    if !K.HasRoom(k, t) then k5
    else
      var k6 := K.SetChan(k5, d, K.FRESH_CHAN);
      var k7 := K.SetChan(k6, c, k6.chans[c].(peer := Some(d)));
      K.SetChan(k7, d, k7.chans[d].(peer := Some(c)))
  }

  /** `sys_channel_create`. */
  method CreateChannel(sys: System, t: nat, c: nat, d: nat, rights: nat) returns (next: System)
    requires sys.Valid() && t in sys.tables && c != d && c !in sys.ends && d !in sys.ends
    modifies sys`nextHandle, sys`nextOid, sys.parts
    ensures fresh(next.parts - sys.parts) && (next == sys || fresh(next))
    ensures next.Valid() && next.View() == K.CreateChannel(old(sys.View()), t, c, d, rights)
    ensures next.ipc == old(sys.ipc) && next.tables == sys.tables
  {
    hide Scheduler.Scheduler.Objects, Scheduler.Scheduler.Valid, System.Apart, System.Valid, System.EndsView;
    hide System.TablesView;
    hide K.CreateChannel, K.AddCap, K.HasRoom, SecondEndState;
    sys.Keys();
    sys.TablesInside();
    CreateChannelIs(sys.View(), t, c, d, rights);
    var ok := sys.AddObject(t, ChannelKind(c), rights);
    if !ok {
      return sys;
    }
    next := AddEnd(sys, c);
    next := SecondEnd(next, t, c, d, rights);
  }

  /** A thread created while channels are in use; the table of a new process starts empty. */
  method AddThread(sys: System, th: S.Thread, own: Option<nat>) returns (next: System)
    requires sys.Valid() && S.Inv(sys.View().sched) && S.Addable(sys.View().sched, th)
    modifies sys`ipc, sys.parts
    ensures fresh(next.parts - sys.parts) && (next == sys || fresh(next))
    ensures next.Valid() && next.View() == K.AddThread(old(sys.View()), th, own)
    ensures next.tables.Keys == sys.tables.Keys + if own.Some? then {own.value} else {}
  {
    hide Scheduler.Scheduler.Objects, Scheduler.Scheduler.Valid, System.Apart, System.EndsView, System.TablesView;
    hide S.Inv, S.Add;
    sys.Keys();
    sys.Inside();
    sys.EnterThread(th, own);
    next := sys;
    if own.Some? && own.value !in sys.tables {
      next := AddTable(sys, own.value);
    }
  }
}
