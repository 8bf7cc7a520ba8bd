/**
 * Which objects a channel call moves, and where to, slot by slot (kernel/src/ipc/channel.rs:127-138,
 * 220-240, 263-295): the first two handles named, and no third.
 */
module CapTransfers {
  import opened Capabilities
  import opened CapRuns
  import opened Common
  import opened HandleTables
  import opened Kernel
  import opened QuietSteps
  import IpcRuns
  import O = ChannelOutcomes
  import Rendezvous
  import S = SchedSpec
  import W = WaiterArray

  /** Slot `i` is the one the handle value `hv` names. */
  predicate NamedBy(t: Table, i: nat, hv: nat) {
    && i < |t| && t[i].Some? && t[i].value.value == hv
    && forall j :: 0 <= j < i && t[j].Some? ==> t[j].value.value != hv
  }

  predicate Unknown(t: Table, hv: nat) {
    forall j :: 0 <= j < |t| && t[j].Some? ==> t[j].value.value != hv
  }

  /** Some slot holds the object with these rights. */
  predicate Stands(t: Table, obj: Obj, rights: nat) {
    exists j :: 0 <= j < |t| && t[j].Some? && t[j].value.obj == obj && t[j].value.rights == rights
  }

  predicate Keeps(t: Table, t': Table) {
    |t'| == |t| && forall j :: 0 <= j < |t| && t[j].Some? ==> t'[j] == t[j]
  }

  // ----- one handle -----

  /** Taking the object in slot `i` out of its table: a memory object stays while there is room for its copy. */
  ghost predicate LeftBehind(t: Table, t': Table, i: nat)
    requires i < |t| && t[i].Some?
  {
    && |t'| == |t| && (forall j :: 0 <= j < |t| && j != i ==> t'[j] == t[j])
    && t'[i] == (if t[i].value.obj.kind.VmoKind? && (exists j :: 0 <= j < |t| && t[j].None?) then t[i] else None)
  }

  lemma TakesNamed(k: State, t: nat, hv: nat, i: nat)
    requires Numbered(k) && t in k.tables && NamedBy(k.tables[t], i, hv)
    ensures var (k', c) := TakeOut(k, t, hv); var s := k.tables[t][i].value;
      && c == Some(Cap(s.obj, s.rights))
      && k' == k.(tables := k'.tables, nextHandle := k'.nextHandle)
      && t in k'.tables && k'.tables == k.tables[t := k'.tables[t]] && LeftBehind(k.tables[t], k'.tables[t], i)
  {
    var table := k.tables[t];
    assert Names(table, i, hv);
    assert Find(table, hv, 0) == Some(i);
    var s := table[i].value;
    var f := FirstFree(table, 0);
    if s.obj.kind.VmoKind? && f.Some? {
      AddThenRemove(k, t, CapOf(s));
    }
  }

  lemma TakesUnknown(k: State, t: nat, hv: nat)
    requires t in k.tables && Unknown(k.tables[t], hv)
    ensures TakeOut(k, t, hv) == (k, None)
  {
    var f := Find(k.tables[t], hv, 0);
    assert f.None? || Names(k.tables[t], f.value, hv);
  }

  /** An object given to a table with an empty slot fills one and displaces nothing. */
  lemma GiveFills(k: State, t: nat, c: Cap)
    requires t in k.tables && Room(k.tables[t]) > 0
    ensures var k' := Give(k, t, c);
      && t in k'.tables && k' == k.(tables := k.tables[t := k'.tables[t]], nextHandle := k.nextHandle + 1)
      && Keeps(k.tables[t], k'.tables[t]) && Stands(k'.tables[t], c.obj, c.rights)
      && Room(k'.tables[t]) == Room(k.tables[t]) - 1
  {
    HasRoomIff(k, t);
    var i := FirstFree(k.tables[t], 0).value;
    var t' := k.tables[t][i := Some(Slot(k.nextHandle, c.rights, c.obj))];
    RoomOfUpdate(k.tables[t], i, Some(Slot(k.nextHandle, c.rights, c.obj)));
    assert Give(k, t, c).tables[t] == t' && t'[i].value.obj == c.obj;
  }

  /** One handle of a delivery between two tables. */
  lemma TransferOne(k: State, from: nat, to: nat, hv: nat, i: nat)
    requires Numbered(k) && from in k.tables && to in k.tables && from != to && NamedBy(k.tables[from], i, hv)
    requires Room(k.tables[to]) > 0
    ensures var k' := Transfer(k, from, to, hv); var s := k.tables[from][i].value;
      && k' == k.(tables := k'.tables, nextHandle := k'.nextHandle)
      && from in k'.tables && to in k'.tables
      && k'.tables == k.tables[from := k'.tables[from]][to := k'.tables[to]]
      && LeftBehind(k.tables[from], k'.tables[from], i)
      && Keeps(k.tables[to], k'.tables[to]) && Stands(k'.tables[to], s.obj, s.rights)
      && Room(k'.tables[to]) == Room(k.tables[to]) - 1
  {
    hide TakeOut, Give, LeftBehind, Room, Stands, Keeps;
    TakesNamed(k, from, hv, i);
    var (k1, c) := TakeOut(k, from, hv);
    GiveFills(k1, to, c.value);
  }

  // ----- any handle, known or not -----

  lemma NamedOrUnknown(t: Table, hv: nat) returns (i: nat)
    ensures NamedBy(t, i, hv) || Unknown(t, hv)
  {
    var f := Find(t, hv, 0);
    i := if f.Some? then f.value else 0;
    if f.Some? {
      forall j | 0 <= j < i && t[j].Some? ensures t[j].value.value != hv {
        assert !Names(t, j, hv);
      }
    } else {
      forall j | 0 <= j < |t| && t[j].Some? ensures t[j].value.value != hv {
        assert !Names(t, j, hv);
      }
    }
  }

  /** Slots that do not carry the value are as they were. */
  ghost predicate OnlyNamed(t: Table, t': Table, hv: nat) {
    && |t'| == |t|
    && (forall j :: 0 <= j < |t| && !(t[j].Some? && t[j].value.value == hv) ==> t'[j] == t[j])
    && (forall j :: 0 <= j < |t| && t'[j] != t[j] ==> t'[j].None?)
  }

  /** What a delivery between two tables does with one handle, known or not. */
  ghost predicate Delivered(k: State, k': State, from: nat, to: nat, hv: nat)
    requires from in k.tables && to in k.tables
  {
    && k' == k.(tables := k'.tables, nextHandle := k'.nextHandle)
    && k'.tables.Keys == k.tables.Keys
    && OnlyNamed(k.tables[from], k'.tables[from], hv) && Keeps(k.tables[to], k'.tables[to])
    && Room(k'.tables[to]) >= Room(k.tables[to]) - 1
    && (forall i: nat :: NamedBy(k.tables[from], i, hv) ==> Moved(k, k', from, to, i))
  }

  /** The object in slot `i` of `from` stands in `to`; anything but a memory object has left its slot. */
  ghost predicate Moved(k: State, k': State, from: nat, to: nat, i: nat)
    requires from in k.tables && from in k'.tables && to in k'.tables && i < |k.tables[from]| && k.tables[from][i].Some?
  {
    var s := k.tables[from][i].value;
    && Stands(k'.tables[to], s.obj, s.rights)
    && |k'.tables[from]| == |k.tables[from]| && (!s.obj.kind.VmoKind? ==> k'.tables[from][i].None?)
  }

  lemma TransferAny(k: State, from: nat, to: nat, hv: nat)
    requires CInv(k) && from in k.tables && to in k.tables && from != to && Room(k.tables[to]) > 0
    ensures Delivered(k, Transfer(k, from, to, hv), from, to, hv) && CInv(Transfer(k, from, to, hv))
  {
    hide CInv, Transfer, Room, LeftBehind, Stands, Keeps, TakeOut;
    TransferMoves(k, from, to, hv);
    NumberedOf(k);
    var i := NamedOrUnknown(k.tables[from], hv);
    if NamedBy(k.tables[from], i, hv) {
      TransferOne(k, from, to, hv, i);
      NamedMoves(k, Transfer(k, from, to, hv), from, to, hv, i);
    } else {
      UnknownStays(k, from, to, hv);
    }
  }

  lemma NumberedOf(k: State)
    requires CInv(k)
    ensures Numbered(k)
  {
  }

  lemma NamedMoves(k: State, k': State, from: nat, to: nat, hv: nat, i: nat)
    requires from in k.tables && to in k.tables && NamedBy(k.tables[from], i, hv)
    requires from in k'.tables && to in k'.tables && LeftBehind(k.tables[from], k'.tables[from], i)
    requires Stands(k'.tables[to], k.tables[from][i].value.obj, k.tables[from][i].value.rights)
    ensures OnlyNamed(k.tables[from], k'.tables[from], hv)
    ensures forall j: nat :: NamedBy(k.tables[from], j, hv) ==> Moved(k, k', from, to, j)
  {
    forall j: nat | NamedBy(k.tables[from], j, hv) ensures Moved(k, k', from, to, j) {
      assert j == i;
    }
  }

  lemma UnknownStays(k: State, from: nat, to: nat, hv: nat)
    requires from in k.tables && to in k.tables && Unknown(k.tables[from], hv)
    ensures Transfer(k, from, to, hv) == k && Delivered(k, k, from, to, hv)
  {
    TakesUnknown(k, from, hv);
  }

  // ----- the first two handles of a delivery -----

  lemma TransferNone(k: State, from: nat, to: nat)
    ensures TransferAll(k, from, to, []) == k
  {
  }

  lemma TransferFirst(k: State, from: nat, to: nat, hv: nat, rest: seq<nat>)
    requires from in k.tables && to in k.tables
    ensures TransferAll(k, from, to, [hv] + rest) == TransferAll(Transfer(k, from, to, hv), from, to, rest)
  {
    assert ([hv] + rest)[0] == hv && ([hv] + rest)[1..] == rest;
  }

  /**
   * A delivery of the handles `hs` into a table with two empty slots: the objects named by `hs[0]` and
   * `hs[1]` end there with their rights; slots named by neither, whatever else `hs` lists, stay as they were.
   */
  lemma TwoTransfers(k: State, from: nat, to: nat, hs: seq<nat>)
    requires CInv(k) && from in k.tables && to in k.tables && from != to && Room(k.tables[to]) >= 2
    ensures var k' := TransferAll(k, from, to, FirstTwo(hs));
      && k' == k.(tables := k'.tables, nextHandle := k'.nextHandle) && k'.tables.Keys == k.tables.Keys && CInv(k')
      && |k'.tables[from]| == |k.tables[from]| && Keeps(k.tables[to], k'.tables[to])
      && (|hs| >= 1 ==> forall i: nat :: NamedBy(k.tables[from], i, hs[0]) ==> Moved(k, k', from, to, i))
      && (|hs| >= 2 ==> forall i: nat :: NamedBy(k.tables[from], i, hs[1]) ==> Moved(k, k', from, to, i))
      && (forall i :: 0 <= i < |k.tables[from]| && !NamedByFirstTwo(k.tables[from], i, hs) ==>
            k'.tables[from][i] == k.tables[from][i])
  {
    hide CInv, Transfer, TransferAll, Room;
    if |hs| == 0 {
      TransferNone(k, from, to);
    } else {
      var k1 := Transfer(k, from, to, hs[0]);
      TransferAny(k, from, to, hs[0]);
      TransferFirst(k, from, to, hs[0], if |hs| == 1 then [] else [hs[1]]);
      if |hs| == 1 {
        assert FirstTwo(hs) == [hs[0]] + [];
        TransferNone(k1, from, to);
      } else {
        assert FirstTwo(hs) == [hs[0]] + [hs[1]];
        var k2 := Transfer(k1, from, to, hs[1]);
        TransferAny(k1, from, to, hs[1]);
        TransferFirst(k1, from, to, hs[1], []);
        assert [hs[1]] + [] == [hs[1]];
        TransferNone(k2, from, to);
        BothMoved(k, k1, k2, from, to, hs[0], hs[1]);
      }
    }
  }

  /** The slot carries the value of the first or second handle listed. */
  predicate NamedByFirstTwo(t: Table, i: nat, hs: seq<nat>)
    requires i < |t|
  {
    t[i].Some? && ((|hs| >= 1 && t[i].value.value == hs[0]) || (|hs| >= 2 && t[i].value.value == hs[1]))
  }

  lemma BothMoved(k: State, k1: State, k2: State, from: nat, to: nat, a: nat, b: nat)
    requires from in k.tables && to in k.tables && Delivered(k, k1, from, to, a)
    requires from in k1.tables && to in k1.tables && Delivered(k1, k2, from, to, b)
    ensures forall i: nat :: NamedBy(k.tables[from], i, a) || NamedBy(k.tables[from], i, b) ==>
      Moved(k, k2, from, to, i)
  {
    hide Room;
    forall i: nat | NamedBy(k.tables[from], i, a) ensures Moved(k, k2, from, to, i) {
      assert Moved(k, k1, from, to, i);
      StandsOn(k1.tables[to], k2.tables[to], k.tables[from][i].value.obj, k.tables[from][i].value.rights);
    }
    if a != b {
      forall i: nat | NamedBy(k.tables[from], i, b) ensures Moved(k, k2, from, to, i) {
        assert k1.tables[from][i] == k.tables[from][i];
        assert NamedBy(k1.tables[from], i, b);
        assert Moved(k1, k2, from, to, i);
      }
    }
  }

  lemma StandsOn(t: Table, t': Table, obj: Obj, rights: nat)
    requires Keeps(t, t') && Stands(t, obj, rights)
    ensures Stands(t', obj, rights)
  {
    var j :| 0 <= j < |t| && t[j].Some? && t[j].value.obj == obj && t[j].value.rights == rights;
    assert t'[j] == t[j];
  }

  /** Two empty slots are room for two. */
  lemma {:induction false} TwoEmpty(t: Table, a: nat, b: nat)
    requires a < b < |t| && t[a].None? && t[b].None?
    ensures Room(t) >= 2
  {
    if a > 0 {
      TwoEmpty(t[1..], a - 1, b - 1);
    } else {
      OneEmpty(t[1..], b - 1);
    }
  }

  lemma {:induction false} OneEmpty(t: Table, a: nat)
    requires a < |t| && t[a].None?
    ensures Room(t) >= 1
  {
    if a > 0 {
      OneEmpty(t[1..], a - 1);
    }
  }

  // ----- a write that finds a receiver -----

  /** No slot of the table holds the object. */
  predicate Gone(t: Table, obj: Obj) {
    forall j :: 0 <= j < |t| && t[j].Some? ==> t[j].value.obj.oid != obj.oid
  }

  /** An object that is held elsewhere in one place only is gone from the table it left. */
  lemma LeftIsGone(k: State, from: nat, to: nat, obj: Obj, rights: nat)
    requires CInv(k) && from in k.tables && to in k.tables && from != to && !obj.kind.VmoKind?
    requires Stands(k.tables[to], obj, rights)
    ensures Gone(k.tables[from], obj)
  {
    var x :| 0 <= x < |k.tables[to]| && k.tables[to][x].Some? && k.tables[to][x].value.obj == obj;
    assert CapAt(k, InTable(to, x)).Some?;
    forall j | 0 <= j < |k.tables[from]| && k.tables[from][j].Some? ensures k.tables[from][j].value.obj.oid != obj.oid {
      assert CapAt(k, InTable(from, j)).Some?;
    }
  }

  /**
   * A direct delivery moves what its first two handles name: each named object stands in the receiver's
   * table with its rights, and anything but a memory object is gone from the sender's.  What the two do not
   * name, a third handle in the list say, stays where it was.
   */
  lemma WriteMoves(k: State, c: nat, w: nat, p: nat, r: nat, data: Bytes, hs: seq<nat>, a: nat, b: nat)
    requires Rendezvous.KInv(k) && CInv(k) && O.FindsReceiver(k, c, w, p, r) && r in k.ipc
    requires k.ipc[w].table.Some? && k.ipc[r].table.Some? && k.ipc[w].table != k.ipc[r].table
    requires k.ipc[w].table.value in k.tables && k.ipc[r].table.value in k.tables
    requires var into := k.tables[k.ipc[r].table.value]; a < b < |into| && into[a].None? && into[b].None?
    ensures var from, to, k' := k.ipc[w].table.value, k.ipc[r].table.value, Write(k, c, data, hs).0;
      && from in k'.tables && to in k'.tables && |k'.tables[from]| == |k.tables[from]|
      && Keeps(k.tables[to], k'.tables[to])
      && (forall n: nat, i: nat :: n < 2 && n < |hs| && NamedBy(k.tables[from], i, hs[n]) ==>
            var s := k.tables[from][i].value;
            Stands(k'.tables[to], s.obj, s.rights) && (!s.obj.kind.VmoKind? ==> Gone(k'.tables[from], s.obj)))
      && (forall i :: 0 <= i < |k.tables[from]| && !NamedByFirstTwo(k.tables[from], i, hs) ==>
            k'.tables[from][i] == k.tables[from][i])
  {
    hide CInv, TransferAll, Room, S.Inv, S.Wake, Rendezvous.KInv, Moved;
    var from, to := k.ipc[w].table.value, k.ipc[r].table.value;
    var k1 := HandOver(k, c, p, w, data);
    CapsSameKeeps(k, k1);
    assert k1.tables == k.tables && k1.ipc[w].table == k.ipc[w].table && k1.ipc[r].table == k.ipc[r].table;
    TwoEmpty(k.tables[to], a, b);
    TwoTransfers(k1, from, to, hs);
    var k2 := TransferAll(k1, from, to, FirstTwo(hs));
    assert Write(k, c, data, hs).0 == Wake(k2, r);
    forall n: nat, i: nat | n < 2 && n < |hs| && NamedBy(k.tables[from], i, hs[n])
      ensures var s := k.tables[from][i].value;
        Stands(k2.tables[to], s.obj, s.rights) && (!s.obj.kind.VmoKind? ==> Gone(k2.tables[from], s.obj))
    {
      assert Moved(k1, k2, from, to, i);
      MovedIs(k1, k2, from, to, i);
    }
  }

  lemma MovedIs(k: State, k': State, from: nat, to: nat, i: nat)
    requires CInv(k') && from in k.tables && from in k'.tables && to in k'.tables && from != to
    requires i < |k.tables[from]| && k.tables[from][i].Some? && Moved(k, k', from, to, i)
    ensures var s := k.tables[from][i].value;
      Stands(k'.tables[to], s.obj, s.rights) && (!s.obj.kind.VmoKind? ==> Gone(k'.tables[from], s.obj))
  {
    hide CInv, Stands, Gone;
    var s := k.tables[from][i].value;
    if !s.obj.kind.VmoKind? {
      LeftIsGone(k', from, to, s.obj, s.rights);
    }
  }

  /** Within one table a handle may change its slot and its value, but everything that stood there still does. */
  lemma TransferWithin(k: State, t: nat, hv: nat)
    requires Numbered(k) && t in k.tables
    ensures var k' := Transfer(k, t, t, hv);
      && k' == k.(tables := k'.tables, nextHandle := k'.nextHandle) && t in k'.tables
      && (forall obj: Obj, rights: nat :: Stands(k.tables[t], obj, rights) ==> Stands(k'.tables[t], obj, rights))
  {
    hide TakeOut, Give, Room, Numbered;
    var i := NamedOrUnknown(k.tables[t], hv);
    if NamedBy(k.tables[t], i, hv) {
      TakesNamed(k, t, hv, i);
      TakeOutRoom(k, t, hv);
      var (k1, c) := TakeOut(k, t, hv);
      GiveFills(k1, t, c.value);
      var k' := Transfer(k, t, t, hv);
      forall obj: Obj, rights: nat | Stands(k.tables[t], obj, rights) ensures Stands(k'.tables[t], obj, rights) {
        var j :| 0 <= j < |k.tables[t]| && k.tables[t][j].Some? && k.tables[t][j].value.obj == obj
          && k.tables[t][j].value.rights == rights;
        if j != i {
          assert k1.tables[t][j] == k.tables[t][j];
          assert k'.tables[t][j] == k.tables[t][j];
        }
      }
    } else {
      TakesUnknown(k, t, hv);
    }
  }

  lemma {:induction false} TransferAllWithin(k: State, t: nat, hs: seq<nat>)
    requires CInv(k) && t in k.tables
    ensures var k' := TransferAll(k, t, t, hs);
      && k'.chans == k.chans && k'.sched == k.sched && t in k'.tables
      && (forall obj: Obj, rights: nat :: Stands(k.tables[t], obj, rights) ==> Stands(k'.tables[t], obj, rights))
    decreases |hs|
  {
    hide CInv, Transfer, Stands;
    if hs != [] {
      NumberedOf(k);
      TransferWithin(k, t, hs[0]);
      TransferMoves(k, t, t, hs[0]);
      TransferAllWithin(Transfer(k, t, t, hs[0]), t, hs[1..]);
    }
  }

  /** Between two threads of one process a delivery leaves every object in their table, with its rights. */
  lemma WriteWithin(k: State, c: nat, w: nat, p: nat, r: nat, data: Bytes, hs: seq<nat>, t: nat)
    requires Rendezvous.KInv(k) && CInv(k) && O.FindsReceiver(k, c, w, p, r) && r in k.ipc
    requires k.ipc[w].table == Some(t) && k.ipc[r].table == Some(t) && t in k.tables
    ensures var k' := Write(k, c, data, hs).0;
      && t in k'.tables
      && (forall obj: Obj, rights: nat :: Stands(k.tables[t], obj, rights) ==> Stands(k'.tables[t], obj, rights))
  {
    hide CInv, TransferAll, S.Inv, S.Wake, Rendezvous.KInv, Stands;
    var k1 := HandOver(k, c, p, w, data);
    CapsSameKeeps(k, k1);
    assert k1.tables == k.tables && k1.ipc[w].table == k.ipc[w].table && k1.ipc[r].table == k.ipc[r].table;
    TransferAllWithin(k1, t, FirstTwo(hs));
  }

  // ----- a write that blocks -----

  lemma StashNone(k: State, tid: nat, t: nat, j: nat)
    ensures Stash(k, tid, t, [], j) == k
  {
  }

  lemma StashFirst(k: State, tid: nat, t: nat, hv: nat, rest: seq<nat>, j: nat)
    requires tid in k.ipc && t in k.tables && j < 2
    ensures var (k1, c) := TakeOut(k, t, hv);
      Stash(k, tid, t, [hv] + rest, j)
      == if c.Some? && tid in k1.ipc then Stash(SetSlot(k1, tid, j, c), tid, t, rest, j + 1)
        else Stash(k1, tid, t, rest, j)
  {
    assert ([hv] + rest)[0] == hv && ([hv] + rest)[1..] == rest;
  }

  function CapIn(t: Table, i: nat): Cap
    requires i < |t| && t[i].Some?
  {
    Cap(t[i].value.obj, t[i].value.rights)
  }

  /** Both of the first two handles are known: their objects fill the two slots in order, and no third one moves. */
  lemma StashBoth(k: State, tid: nat, t: nat, hs: seq<nat>, i: nat, j: nat)
    requires Numbered(k) && tid in k.ipc && t in k.tables && k.ipc[tid].slots == [None, None]
    requires |hs| >= 2 && hs[0] != hs[1] && NamedBy(k.tables[t], i, hs[0]) && NamedBy(k.tables[t], j, hs[1])
    ensures var k' := Stash(k, tid, t, FirstTwo(hs), 0);
      && tid in k'.ipc && k'.ipc[tid].slots == [Some(CapIn(k.tables[t], i)), Some(CapIn(k.tables[t], j))]
      && t in k'.tables && |k'.tables[t]| == |k.tables[t]|
      && (!k.tables[t][i].value.obj.kind.VmoKind? ==> k'.tables[t][i].None?)
      && (!k.tables[t][j].value.obj.kind.VmoKind? ==> k'.tables[t][j].None?)
      && (forall x :: 0 <= x < |k.tables[t]| && x != i && x != j ==> k'.tables[t][x] == k.tables[t][x])
  {
    hide TakeOut, Stash, Numbered;
    assert FirstTwo(hs) == [hs[0]] + [hs[1]] && [hs[1]] + [] == [hs[1]];
    TakesNamed(k, t, hs[0], i);
    var (k1, c) := TakeOut(k, t, hs[0]);
    StashFirst(k, tid, t, hs[0], [hs[1]], 0);
    var k2 := SetSlot(k1, tid, 0, c);
    TakeOutNumbered(k, t, hs[0]);
    NumberedAt(k, t, i);
    SetSlotNumbered(k1, tid, 0, c);
    assert k2.tables[t][j] == k.tables[t][j];
    assert NamedBy(k2.tables[t], j, hs[1]);
    TakesNamed(k2, t, hs[1], j);
    StashFirst(k2, tid, t, hs[1], [], 1);
    var (k3, d) := TakeOut(k2, t, hs[1]);
    StashNone(SetSlot(k3, tid, 1, d), tid, t, 2);
  }

  /** Only one of the first two handles names an object: it fills the first slot. */
  lemma StashOne(k: State, tid: nat, t: nat, hs: seq<nat>, n: nat, i: nat)
    requires Numbered(k) && tid in k.ipc && t in k.tables && k.ipc[tid].slots == [None, None]
    requires n < 2 && n < |hs| && NamedBy(k.tables[t], i, hs[n])
    requires |hs| >= 2 ==> Unknown(k.tables[t], hs[1 - n])
    ensures var k' := Stash(k, tid, t, FirstTwo(hs), 0);
      && tid in k'.ipc && k'.ipc[tid].slots == [Some(CapIn(k.tables[t], i)), None]
      && t in k'.tables && |k'.tables[t]| == |k.tables[t]|
      && (!k.tables[t][i].value.obj.kind.VmoKind? ==> k'.tables[t][i].None?)
      && (forall x :: 0 <= x < |k.tables[t]| && x != i ==> k'.tables[t][x] == k.tables[t][x])
  {
    hide TakeOut, Stash, Numbered;
    TakesNamed(k, t, hs[n], i);
    var (k1, c) := TakeOut(k, t, hs[n]);
    var k2 := SetSlot(k1, tid, 0, c);
    if |hs| == 1 {
      assert FirstTwo(hs) == [hs[0]] + [];
      StashFirst(k, tid, t, hs[0], [], 0);
      StashNone(k2, tid, t, 1);
    } else {
      assert FirstTwo(hs) == [hs[0]] + [hs[1]] && [hs[1]] + [] == [hs[1]];
      StashFirst(k, tid, t, hs[0], [hs[1]], 0);
      if n == 0 {
        assert Unknown(k2.tables[t], hs[1]);
        TakesUnknown(k2, t, hs[1]);
        StashFirst(k2, tid, t, hs[1], [], 1);
        StashNone(k2, tid, t, 1);
      } else {
        TakesUnknown(k, t, hs[0]);
        StashFirst(k, tid, t, hs[1], [], 0);
        StashNone(k2, tid, t, 1);
      }
    }
  }

  lemma TakeOutNumbered(k: State, t: nat, hv: nat)
    requires Numbered(k) && t in k.tables
    ensures Numbered(TakeOut(k, t, hv).0)
  {
    var i := Find(k.tables[t], hv, 0);
    if i.Some? {
      assert CapAt(k, InTable(t, i.value)).Some?;
      var c := CapOf(k.tables[t][i.value].value);
      AddCapNumbers(k, t, c);
      var (k1, dup) := Duplicate(k, t, hv);
      RemovePlaces(k1, t, if dup.Some? then dup.value else hv);
    }
  }

  lemma SetSlotNumbered(k: State, tid: nat, j: nat, c: Option<Cap>)
    requires Numbered(k) && tid in k.ipc && j < 2 && (c.Some? ==> c.value.obj.oid < k.nextOid)
    ensures Numbered(SetSlot(k, tid, j, c))
  {
    SetSlotPlaces(k, tid, j, c);
  }

  lemma NumberedAt(k: State, t: nat, i: nat)
    requires Numbered(k) && t in k.tables && i < |k.tables[t]| && k.tables[t][i].Some?
    ensures k.tables[t][i].value.obj.oid < k.nextOid
  {
    assert CapAt(k, InTable(t, i)).Some?;
  }

  /** The first two handles name different slots. */
  predicate BothKnown(t: Table, hs: seq<nat>, i: nat, j: nat) {
    |hs| >= 2 && hs[0] != hs[1] && NamedBy(t, i, hs[0]) && NamedBy(t, j, hs[1])
  }

  /** One of the first two names slot `i`; the other names nothing or is missing. */
  predicate OneKnown(t: Table, hs: seq<nat>, i: nat) {
    || (|hs| == 1 && NamedBy(t, i, hs[0]))
    || (|hs| >= 2 && NamedBy(t, i, hs[0]) && Unknown(t, hs[1]))
    || (|hs| >= 2 && Unknown(t, hs[0]) && NamedBy(t, i, hs[1]))
  }

  /** The transfer slots hold the objects of the first two handles, in order. */
  ghost predicate Holding(t: Table, hs: seq<nat>, slots: Pair) {
    && (forall i: nat, j: nat :: BothKnown(t, hs, i, j) ==> slots == [Some(CapIn(t, i)), Some(CapIn(t, j))])
    && (forall i: nat :: OneKnown(t, hs, i) ==> slots == [Some(CapIn(t, i)), None])
  }

  predicate Kept(t: Table, t': Table, i: nat, j: nat)
    requires i < |t| && j < |t| && t[i].Some? && t[j].Some?
  {
    && |t'| == |t|
    && (!t[i].value.obj.kind.VmoKind? ==> t'[i].None?) && (!t[j].value.obj.kind.VmoKind? ==> t'[j].None?)
    && (forall x :: 0 <= x < |t| && x != i && x != j ==> t'[x] == t[x])
  }

  /** Anything but a memory object has gone from the table it was taken out of, and no third object has. */
  ghost predicate Parted(t: Table, t': Table, hs: seq<nat>) {
    && (forall i: nat, j: nat :: BothKnown(t, hs, i, j) ==> Kept(t, t', i, j))
    && (forall i: nat :: OneKnown(t, hs, i) ==> Kept(t, t', i, i))
  }

  lemma StashHolds(k: State, tid: nat, t: nat, hs: seq<nat>)
    requires Numbered(k) && tid in k.ipc && t in k.tables && k.ipc[tid].slots == [None, None]
    ensures var k' := Stash(k, tid, t, FirstTwo(hs), 0);
      && tid in k'.ipc && t in k'.tables
      && Holding(k.tables[t], hs, k'.ipc[tid].slots) && Parted(k.tables[t], k'.tables[t], hs)
  {
    hide Stash, Numbered, Unknown;
    var k' := Stash(k, tid, t, FirstTwo(hs), 0);
    StashCapsOnly(k, tid, t, FirstTwo(hs), 0);
    StashTables(k, tid, t, FirstTwo(hs), 0);
    var table := k.tables[t];
    forall i: nat, j: nat | BothKnown(table, hs, i, j)
      ensures k'.ipc[tid].slots == [Some(CapIn(table, i)), Some(CapIn(table, j))] && Kept(table, k'.tables[t], i, j)
    {
      NamedAt(table, i, hs[0]);
      NamedAt(table, j, hs[1]);
      StashBoth(k, tid, t, hs, i, j);
    }
    forall i: nat | OneKnown(table, hs, i)
      ensures k'.ipc[tid].slots == [Some(CapIn(table, i)), None] && Kept(table, k'.tables[t], i, i)
    {
      var n := if NamedBy(table, i, hs[0]) then 0 else 1;
      NamedAt(table, i, hs[n]);
      NotBoth(table, i, hs);
      StashOne(k, tid, t, hs, n, i);
    }
  }

  lemma NotBoth(t: Table, i: nat, hs: seq<nat>)
    requires OneKnown(t, hs, i)
    ensures |hs| >= 1 && (|hs| >= 2 && NamedBy(t, i, hs[0]) ==> Unknown(t, hs[1]))
    ensures !NamedBy(t, i, hs[0]) ==> |hs| >= 2 && NamedBy(t, i, hs[1]) && Unknown(t, hs[0])
  {
  }

  lemma {:induction false} StashTables(k: State, tid: nat, t: nat, hs: seq<nat>, j: nat)
    ensures Stash(k, tid, t, hs, j).tables.Keys == k.tables.Keys
    decreases |hs|
  {
    if hs != [] && t in k.tables && tid in k.ipc && j < |k.ipc[tid].slots| {
      TakeOutCapsOnly(k, t, hs[0]);
      var (k1, c) := TakeOut(k, t, hs[0]);
      if c.Some? {
        StashTables(SetSlot(k1, tid, j, c), tid, t, hs[1..], j + 1);
      } else {
        StashTables(k1, tid, t, hs[1..], j);
      }
    }
  }

  lemma NamedAt(t: Table, i: nat, hv: nat)
    requires NamedBy(t, i, hv)
    ensures i < |t| && t[i].Some?
  {
  }

  /**
   * A write that blocks: the objects of its first two handles stand in the writer's transfer slots, in
   * order, with their rights, and no third one has left the table.
   */
  lemma WriteStashes(k: State, c: nat, data: Bytes, hs: seq<nat>)
    requires Rendezvous.KInv(k) && CInv(k) && O.MayCall(k, c) && O.NothingStale(k) && Write(k, c, data, hs).1 == Blocks
    requires k.ipc[CurTid(k).value].table.Some? && k.ipc[CurTid(k).value].table.value in k.tables
    ensures var w, k' := CurTid(k).value, Write(k, c, data, hs).0; var t := k.ipc[w].table.value;
      && w in k'.ipc && t in k'.tables
      && Holding(k.tables[t], hs, k'.ipc[w].slots) && Parted(k.tables[t], k'.tables[t], hs)
  {
    hide CInv, S.Inv, S.Schedule, S.BlockCurrent, Stash, UnstashAll, TransferAll, Holding, Parted, Rendezvous.KInv;
    hide FirstTwo;
    var w := CurTid(k).value;
    var t := k.ipc[w].table.value;
    O.WriteOutcomes(k, c, data, hs);
    var k0 := SetCurState(SetIpc(k, w, data, 0), S.Blocked);
    CapsSameKeeps(k, k0);
    NumberedOf(k0);
    assert ClearSlots(k0, w) == k0;
    StashHolds(k0, w, t, hs);
    StashCapsOnly(k0, w, t, FirstTwo(hs), 0);
  }

  /** Room for one, or an object whose dropping closes nothing: giving it disturbs no channel. */
  lemma GiveDisturbsNothing(k: State, t: nat, c: Cap)
    requires t in k.tables && (Movable(c) ==> Room(k.tables[t]) >= 1)
    ensures Give(k, t, c).chans == k.chans && Give(k, t, c).sched == k.sched
  {
    HasRoomIff(k, t);
  }

  lemma RestoreDisturbsNothing(k: State, tid: nat, t: nat)
    requires tid in k.ipc && t in k.tables && CanRestore(k, tid, t)
    ensures UnstashAll(k, tid, t).chans == k.chans && UnstashAll(k, tid, t).sched == k.sched
  {
    hide Give, Room;
    var k1 := Unstash(k, tid, t, 0);
    if k.ipc[tid].slots[0].Some? {
      var c := k.ipc[tid].slots[0].value;
      var k0 := SetSlot(k, tid, 0, None);
      GiveDisturbsNothing(k0, t, c);
      GiveRoom(k0, t, c);
      GiveFrame(k0, t, c);
    }
    if k1.ipc[tid].slots[1].Some? {
      GiveDisturbsNothing(SetSlot(k1, tid, 1, None), t, k1.ipc[tid].slots[1].value);
    }
  }

  /**
   * A write refused behind eight other senders leaves every line, every log and every thread record as they
   * were, and (`RestoreLosesNothing`) every object with its thread.
   */
  lemma WriteRefused(k: State, c: nat, data: Bytes, hs: seq<nat>)
    requires Rendezvous.KInv(k) && CInv(k) && IpcRuns.Executing(k) && O.MayCall(k, c) && O.NothingStale(k)
    requires Write(k, c, data, hs).1 == Fail(NoMemory)
    ensures var k' := Write(k, c, data, hs).0; k'.chans == k.chans && k'.sched == k.sched
    ensures LostInWrite(k, c, data, hs) == {}
  {
    hide CInv, S.Inv, S.Schedule, Stash, UnstashAll, TransferAll, Rendezvous.KInv, FirstTwo, CanRestore;
    var w := CurTid(k).value;
    O.WriteOutcomes(k, c, data, hs);
    O.BlockedAndBack(k);
    var k0 := SetCurState(SetIpc(k, w, data, 0), S.Blocked);
    CapsSameKeeps(k, k0);
    assert ClearSlots(k0, w) == k0;
    if k0.ipc[w].table.Some? {
      var t := k0.ipc[w].table.value;
      StashCapsOnly(k0, w, t, AtMostTwo(hs), 0);
      if t in k0.tables {
        StashLeavesRoom(k0, w, t, AtMostTwo(hs));
        RestoreDisturbsNothing(Stash(k0, w, t, AtMostTwo(hs), 0), w, t);
      } else {
        UnstashNowhere(Stash(k0, w, t, AtMostTwo(hs), 0), k0, w, t, AtMostTwo(hs));
      }
    }
  }

  /** The first two handles, as a list of at most two. */
  function AtMostTwo(hs: seq<nat>): (r: seq<nat>)
    ensures r == FirstTwo(hs) && |r| <= 2
  {
    FirstTwo(hs)
  }

  lemma UnstashNowhere(k: State, k0: State, w: nat, t: nat, hs: seq<nat>)
    requires t !in k0.tables && k == Stash(k0, w, t, hs, 0)
    ensures UnstashAll(k, w, t) == k0
  {
  }

  // ----- a read that finds a sender -----

  lemma UnstashGives(k: State, from: nat, t: nat, j: nat)
    requires from in k.ipc && t in k.tables && j < 2 && Room(k.tables[t]) >= 1
    ensures var k' := Unstash(k, from, t, j);
      && from in k'.ipc && k'.ipc[from].slots == k.ipc[from].slots[j := None]
      && t in k'.tables && Keeps(k.tables[t], k'.tables[t]) && Room(k'.tables[t]) >= Room(k.tables[t]) - 1
      && (k.ipc[from].slots[j].Some? ==>
            Stands(k'.tables[t], k.ipc[from].slots[j].value.obj, k.ipc[from].slots[j].value.rights))
  {
    hide Give, Room, Stands, Keeps;
    if k.ipc[from].slots[j].Some? {
      GiveFills(SetSlot(k, from, j, None), t, k.ipc[from].slots[j].value);
      GiveFrame(SetSlot(k, from, j, None), t, k.ipc[from].slots[j].value);
    } else {
      assert k.ipc[from].slots[j := None] == k.ipc[from].slots;
      KeepsSame(k.tables[t]);
    }
  }

  lemma KeepsSame(t: Table)
    ensures Keeps(t, t)
  {
  }

  /**
   * A pick-up with room for two: what stood in the sender's transfer slots stands in the reader's table with
   * its rights, both slots are empty, and nothing in the table was displaced.
   */
  lemma ReadCollects(k: State, c: nat, r: nat, p: nat, s: nat, buf: Bytes, a: nat, b: nat)
    requires Rendezvous.KInv(k) && O.FindsSender(k, c, r, p, s) && s in k.ipc
    requires k.ipc[r].table.Some? && k.ipc[r].table.value in k.tables
    requires var into := k.tables[k.ipc[r].table.value]; a < b < |into| && into[a].None? && into[b].None?
    ensures var t, k' := k.ipc[r].table.value, Read(k, c, buf).0;
      && s in k'.ipc && k'.ipc[s].slots == [None, None]
      && t in k'.tables && Keeps(k.tables[t], k'.tables[t])
      && (forall j :: 0 <= j < 2 && k.ipc[s].slots[j].Some? ==>
            Stands(k'.tables[t], k.ipc[s].slots[j].value.obj, k.ipc[s].slots[j].value.rights))
  {
    hide S.Inv, S.Wake, Unstash, Room, Stands, Keeps, Rendezvous.KInv;
    var t := k.ipc[r].table.value;
    var k1 := PickUp(k, c, p, r, |buf|);
    assert k1.tables == k.tables && k1.ipc[r].table == k.ipc[r].table && k1.ipc[s].slots == k.ipc[s].slots;
    TwoEmpty(k.tables[t], a, b);
    var k2 := Unstash(k1, s, t, 0);
    UnstashGives(k1, s, t, 0);
    var k3 := Unstash(k2, s, t, 1);
    UnstashGives(k2, s, t, 1);
    KeepsTrans(k1.tables[t], k2.tables[t], k3.tables[t]);
    if k.ipc[s].slots[0].Some? {
      StandsOn(k2.tables[t], k3.tables[t], k.ipc[s].slots[0].value.obj, k.ipc[s].slots[0].value.rights);
    }
    assert Read(k, c, buf).0 == Wake(k3, s);
  }

  lemma KeepsTrans(a: Table, b: Table, c: Table)
    requires Keeps(a, b) && Keeps(b, c)
    ensures Keeps(a, c)
  {
  }
}
