/**
 * What the pipe calls do (kernel/src/syscall/handlers/process.rs, kernel/src/vfs/pipe.rs): which descriptors
 * change and by how much each count does, and that what one process writes another one reads.
 */
module PipeEffects {
  import opened Common
  import opened T = PipeTable
  import P = PipeRuns

  // ----- descriptors -----

  /** The first free descriptor from the starting point on, and only then the first free one from 0. */
  lemma AllocFdIsFirst(p: Process)
    requires |p.fds| == 16 && p.nextFd < 16
    ensures var start := if p.nextFd >= 3 then p.nextFd else 3;
      && (AllocFd(p).Some? <==> !Taken(p.fds, 0, 16))
      && (AllocFd(p).Some? ==> (
            var fd := AllocFd(p).value;
            && fd < 16 && p.fds[fd].None?
            && (if start <= fd then Taken(p.fds, start, fd) else Taken(p.fds, start, 16) && Taken(p.fds, 0, fd))))
  {
    hide Probe;
    var start := FirstTry(p);
    ProbeUp(p.fds, start, FD_TABLE_SIZE);
    ProbeLow(p.fds, 0, start);
  }

  /** The second search starts behind the first result, with that descriptor still free. */
  function Second(p: Process, rd: nat): Option<nat>
    requires |p.fds| == FD_TABLE_SIZE
  {
    AllocFd(p.(nextFd := (rd + 1) % 16))
  }

  /** A new pipe: its reader at the first descriptor found, its writer at the second, nothing else changed. */
  lemma SysPipeEffect(s: State, p: nat)
    requires Inv(s) && p < |s.procs|
    ensures SysPipe(s, p).nextId == s.nextId + 1
    ensures forall q :: 0 <= q < |s.procs| && q != p ==> SysPipe(s, p).procs[q] == s.procs[q]
    ensures SysPipe(s, p).pipes == if s.nextId < 16 then s.pipes[s.nextId := Some(Counts(1, 1))] else s.pipes
    ensures SysPipe(s, p).procs[p].fds == s.procs[p].fds
      <== s.nextId >= 16 || Taken(s.procs[p].fds, 0, 16)
    ensures s.nextId < 16 && !Taken(s.procs[p].fds, 0, 16) ==> (
      var rd := AllocFd(s.procs[p]);
      && rd.Some? && rd.value < 16 && Second(s.procs[p], rd.value).Some?
      && var wr := Second(s.procs[p], rd.value).value;
         && wr < 16
         && SysPipe(s, p).procs[p]
           == Process(s.procs[p].fds[rd.value := Some(End(s.nextId, Reader))][wr := Some(End(s.nextId, Writer))],
                      (wr + 1) % 16))
  {
    hide Inv, AllocFd, Taken, Holders;
    InvFacts(s, p);
    AllocFdFinds(s.procs[p]);
    if s.nextId < 16 && !Taken(s.procs[p].fds, 0, 16) {
      var rd := AllocFd(s.procs[p]).value;
      AllocFdFinds(s.procs[p].(nextFd := (rd + 1) % 16));
    }
  }

  /**
   * Neither descriptor is filled before both are found.  The two searches end at the same one exactly when
   * it is the only free user descriptor and either no console descriptor is free or it is a console
   * descriptor or the last of the table; the writing end then replaces the reading end.
   */
  lemma EndsCoincideIff(p: Process)
    requires |p.fds| == 16 && p.nextFd < 16 && !Taken(p.fds, 0, 16)
    ensures AllocFd(p).Some? && Second(p, AllocFd(p).value).Some?
    ensures var rd := AllocFd(p).value;
      Second(p, rd).value == rd
      <==> (forall f :: 3 <= f < 16 && f != rd ==> p.fds[f].Some?) && (rd < 3 || rd == 15 || Taken(p.fds, 0, 3))
  {
    hide AllocFd;
    AllocFdIsFirst(p);
    AllocFdIsFirst(p.(nextFd := (AllocFd(p).value + 1) % 16));
  }

  /** Descriptor 15 is free and so is the console: the pipe has one descriptor, and no reader. */
  lemma EndsCoincideExample(s: State)
    requires Shaped(s) && Inv(s) && |s.procs| == 1 && s.nextId < 16 && s.procs[0].nextFd == 3
    requires s.procs[0].fds[0].None? && s.procs[0].fds[15].None? && Taken(s.procs[0].fds, 3, 15)
    ensures SysPipe(s, 0).procs[0].fds == s.procs[0].fds[15 := Some(End(s.nextId, Writer))]
    ensures Shaped(SysPipe(s, 0)) && Holders(SysPipe(s, 0), End(s.nextId, Reader)) == {}
  {
    hide AllocFd, Inv, Holders;
    InvShaped(s);
    InvFacts(s, 0);
    var q := s.procs[0];
    AllocFdIsFirst(q);
    assert q.fds[15].None? && AllocFd(q) == Some(15);
    EndsCoincideIff(q);
    SysPipeEffect(s, 0);
    assert SysPipe(s, 0).procs[0].fds == q.fds[15 := Some(End(s.nextId, Writer))];
    OnlyWriter(s);
  }

  lemma OnlyWriter(s: State)
    requires Inv(s) && |s.procs| == 1 && s.nextId < 16 && |SysPipe(s, 0).procs| == 1
    requires SysPipe(s, 0).procs[0].fds == s.procs[0].fds[15 := Some(End(s.nextId, Writer))]
    ensures Shaped(SysPipe(s, 0)) && Holders(SysPipe(s, 0), End(s.nextId, Reader)) == {}
  {
    hide SysPipe, Slots, Counted;
    var e := End(s.nextId, Reader);
    SysPipeKeeps(s, 0);
    InvShaped(SysPipe(s, 0));
    assert Holders(s, e) == {};
    NoMoreHolders(s, SysPipe(s, 0), End(s.nextId, Writer), e);
  }

  lemma NoMoreHolders(s: State, t: State, w: End, e: End)
    requires Shaped(s) && Shaped(t) && |s.procs| == |t.procs| == 1 && w != e
    requires t.procs[0].fds == s.procs[0].fds[15 := Some(w)]
    ensures Holders(t, e) <= Holders(s, e)
  {
    hide Slots;
    forall x | x in Holders(t, e) ensures x in Holders(s, e) {
      assert HoldsAt(t, x, e) && x.1 != 15;
    }
  }

  // ----- duplicates -----

  /** The references counted for an end. */
  function Count(s: State, e: End): nat
    requires Shaped(s) && e.pipe < MAX_PIPES
  {
    if s.pipes[e.pipe].None? then 0 else CountOf(s.pipes[e.pipe].value, e.role)
  }

  predicate Freed(s: State, id: nat)
    requires Shaped(s) && id < MAX_PIPES
  {
    s.pipes[id].None?
  }

  /**
   * A duplicate: `newFd` holds what `oldFd` holds and no other descriptor changes; the end copied has one
   * reference more, the end displaced one less, and a pipe is freed only when neither of its ends is left.
   */
  lemma Dup2Effect(s: State, p: nat, oldFd: nat, newFd: nat)
    requires Inv(s) && p < |s.procs| && oldFd < 16 && 3 <= newFd < 16 && oldFd != newFd
      && s.procs[p].fds[oldFd].Some?
    ensures EndsExist(s, p) && Dup2(s, p, oldFd, newFd).Ok?
    ensures var t := Dup2(s, p, oldFd, newFd).value;
      var copied, displaced := s.procs[p].fds[oldFd].value, s.procs[p].fds[newFd];
      && Shaped(t) && t.nextId == s.nextId && |t.procs| == |s.procs| && t.procs[p].nextFd == s.procs[p].nextFd
      && t.procs[p].fds == s.procs[p].fds[newFd := s.procs[p].fds[oldFd]]
      && (forall q :: 0 <= q < |s.procs| && q != p ==> t.procs[q] == s.procs[q])
      && (forall e: End :: e.pipe < MAX_PIPES ==>
            Count(t, e) == Count(s, e) + (if e == copied then 1 else 0) - (if displaced == Some(e) then 1 else 0))
      && (forall id: nat :: id < MAX_PIPES ==>
            (Freed(t, id) <==>
              (Freed(s, id) || (displaced.Some? && displaced.value.pipe == id
                && Count(t, End(id, Reader)) == 0 == Count(t, End(id, Writer))))))
  {
    hide Holders, Inv, Slots;
    InvFacts(s, p);
    var copied, displaced := s.procs[p].fds[oldFd].value, s.procs[p].fds[newFd];
    NoDanglingEnd(s, p, oldFd);
    if displaced.Some? {
      NoDanglingEnd(s, p, newFd);
      if displaced.value == copied {
        TwoHolders(s, p, oldFd, newFd);
      }
    }
  }

  /** An end at two descriptors has two references. */
  lemma TwoHolders(s: State, p: nat, f: nat, g: nat)
    requires Inv(s) && p < |s.procs| && f < 16 && g < 16 && f != g
      && s.procs[p].fds[f].Some? && s.procs[p].fds[f] == s.procs[p].fds[g]
    ensures var e := s.procs[p].fds[f].value; e.pipe < MAX_PIPES && Count(s, e) >= 2
  {
    hide Holders, Slots;
    var e := s.procs[p].fds[f].value;
    HolderIs(s, p, f);
    HolderIs(s, p, g);
    assert EndsExist(s, p);
    assert Counted(s, e);
    SubsetSize({(p, f), (p, g)}, Holders(s, e));
    assert |{(p, f), (p, g)}| == 2;
  }

  /** The calls that change nothing: a descriptor onto itself, onto the console, and from an empty one. */
  lemma Dup2Refusals(s: State, p: nat, oldFd: nat, newFd: nat)
    requires Shaped(s) && p < |s.procs| && EndsExist(s, p)
    requires oldFd == newFd || newFd < 3 || oldFd >= 16 || s.procs[p].fds[oldFd].None?
    ensures Dup2(s, p, oldFd, newFd)
      == if oldFd == newFd then Ok(s) else if newFd < 3 then Err(NotAllowed) else Err(BadHandle)
  {
  }

  /** A process slot set up anew: its sixteen descriptors are empty, and the rest stays. */
  lemma InitEffect(s: State, p: nat)
    requires Inv(s) && p < |s.procs|
    ensures var t := InitProcess(s, p);
      && t.pipes == s.pipes && t.nextId == s.nextId && |t.procs| == |s.procs|
      && |t.procs[p].fds| == 16 && t.procs[p].nextFd == 3 && (forall f :: 0 <= f < 16 ==> t.procs[p].fds[f].None?)
      && (forall q :: 0 <= q < |s.procs| && q != p ==> t.procs[q] == s.procs[q])
  {
    hide Holders;
  }

  // ----- bytes -----

  /** A write through a writing end appends what fits, up to 4095 bytes, if a reader is left. */
  lemma WriteAppends(w: P.World, p: nat, fd: nat, data: seq<nat>, id: nat)
    requires P.Inv(w) && p < |w.table.procs| && 3 <= fd < 16
      && w.table.procs[p].fds[fd] == Some(End(id, Writer))
    ensures id < 16 && w.table.pipes[id].Some? && |w.held[id]| <= 4095
    ensures var n := Min(Min(|data|, 4096), 4095 - |w.held[id]|);
      P.Step(w, P.WriteFd(p, fd, data))
      == if Count(w.table, End(id, Reader)) == 0 then w else w.(held := w.held[id := w.held[id] + data[..n]])
  {
    hide T.Inv, T.Step;
    NoDanglingEnd(w.table, p, fd);
    assert w.held[id][0..] == w.held[id] && w.held[id] + [] == w.held[id];
    assert w.held[id := w.held[id]] == w.held;
  }

  /** A read through a reading end takes the oldest bytes, at most 4096 at a time. */
  lemma ReadTakes(w: P.World, p: nat, fd: nat, len: nat, id: nat)
    requires P.Inv(w) && p < |w.table.procs| && 3 <= fd < 16
      && w.table.procs[p].fds[fd] == Some(End(id, Reader))
    ensures id < 16
    ensures var n := Min(Min(len, 4096), |w.held[id]|);
      && P.Out(w, P.ReadFd(p, fd, len), id) == w.held[id][..n]
      && P.Step(w, P.ReadFd(p, fd, len)) == w.(held := w.held[id := w.held[id][n..]])
  {
    hide T.Inv, T.Step;
    NoDanglingEnd(w.table, p, fd);
    var n := Min(Min(len, 4096), |w.held[id]|);
    assert w.held[id][n..] + [] == w.held[id][n..];
  }

  /** What one process writes into an empty pipe another one reads out of it, and the pipe is empty again. */
  lemma WrittenIsRead(w: P.World, p: nat, fd: nat, data: seq<nat>, q: nat, gd: nat, len: nat, id: nat)
    requires P.Inv(w) && p < |w.table.procs| && 3 <= fd < 16 && q < |w.table.procs| && 3 <= gd < 16
    requires w.table.procs[p].fds[fd] == Some(End(id, Writer)) && w.table.procs[q].fds[gd] == Some(End(id, Reader))
    requires id < |w.held| && w.held[id] == [] && |data| <= 4095 && |data| <= len
    ensures P.Inv(P.Step(w, P.WriteFd(p, fd, data)))
    ensures P.Out(P.Step(w, P.WriteFd(p, fd, data)), P.ReadFd(q, gd, len), id) == data
    ensures P.Step(P.Step(w, P.WriteFd(p, fd, data)), P.ReadFd(q, gd, len)) == w
  {
    hide P.Step, P.Out, P.Inv, T.Inv;
    P.StepKeeps(w, P.WriteFd(p, fd, data));
    InTable(w);
    WriteAppends(w, p, fd, data, id);
    NoDanglingEnd(w.table, q, gd);
    var v := P.Step(w, P.WriteFd(p, fd, data));
    assert v.held[id] == data;
    ReadTakes(v, q, gd, len, id);
    assert v.held[id][|data|..] == [];
    assert v.held[id := []] == w.held;
  }

  lemma InTable(w: P.World)
    requires P.Inv(w)
    ensures T.Inv(w.table) && P.Shaped(w)
  {
  }

  /** Descriptors in the other role, the console's, and those out of range move no byte. */
  lemma NoEndNoBytes(w: P.World, op: P.Op)
    requires P.Inv(w) && !op.OnTable?
    requires op.fd < 3 || op.fd >= 16 || op.p >= |w.table.procs| || w.table.procs[op.p].fds[op.fd].None?
      || w.table.procs[op.p].fds[op.fd].value.role != (if op.ReadFd? then Reader else Writer)
    ensures P.Step(w, op) == w && forall id: nat :: id < 16 ==> P.Out(w, op, id) == [] == P.In(w, op, id)
  {
    hide T.Inv, T.Step;
  }
}
