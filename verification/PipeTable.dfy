/**
 * Pipe ends in file descriptor tables and their reference counts: `sys_pipe`, `dup2` and the
 * descriptor search (kernel/src/syscall/handlers/process.rs, kernel/src/vfs/pipe.rs).
 */
module PipeTable {
  import opened Common

  const MAX_PIPES: nat := 16
  const FD_TABLE_SIZE: nat := 16
  const USER_FD_BASE: nat := 3

  datatype Role = Reader | Writer

  datatype End = End(pipe: nat, role: Role)

  datatype Counts = Counts(readers: nat, writers: nat)

  datatype Process = Process(fds: seq<Option<End>>, nextFd: nat)

  datatype State = State(pipes: seq<Option<Counts>>, nextId: nat, procs: seq<Process>)

  // ----- reference counts -----

  function CountOf(c: Counts, role: Role): nat {
    if role == Reader then c.readers else c.writers
  }

  function Other(role: Role): Role {
    if role == Reader then Writer else Reader
  }

  function More(c: Counts, role: Role): Counts {
    if role == Reader then c.(readers := c.readers + 1) else c.(writers := c.writers + 1)
  }

  function Less(c: Counts, role: Role): Counts {
    if role == Reader then c.(readers := if c.readers > 0 then c.readers - 1 else 0)
    else c.(writers := if c.writers > 0 then c.writers - 1 else 0)
  }

  function CloneRole(pipes: seq<Option<Counts>>, e: End): seq<Option<Counts>>
    requires e.pipe < |pipes|
  {
    if pipes[e.pipe].None? then pipes else pipes[e.pipe := Some(More(pipes[e.pipe].value, e.role))]
  }

  /** Drops a reference and frees the pipe when neither end is held. */
  function CloseRole(pipes: seq<Option<Counts>>, e: End): seq<Option<Counts>>
    requires e.pipe < |pipes|
  {
    if pipes[e.pipe].None? then pipes
    else
      var c := Less(pipes[e.pipe].value, e.role);
      pipes[e.pipe := if c.readers == 0 && c.writers == 0 then None else Some(c)]
  }

  // ----- descriptor search -----

  /** First free descriptor in `tries` steps around the table from `start`. */
  function Probe(fds: seq<Option<End>>, start: nat, tries: nat): Option<nat>
    requires |fds| == FD_TABLE_SIZE
    decreases tries
  {
    if tries == 0 then None
    else
      var at := if start >= FD_TABLE_SIZE then USER_FD_BASE else start;
      if fds[at].None? then Some(at) else Probe(fds, (at + 1) % FD_TABLE_SIZE, tries - 1)
  }

  function FirstTry(p: Process): nat {
    if p.nextFd >= USER_FD_BASE then p.nextFd else USER_FD_BASE
  }

  function AllocFd(p: Process): Option<nat>
    requires |p.fds| == FD_TABLE_SIZE
  {
    Probe(p.fds, FirstTry(p), FD_TABLE_SIZE)
  }

  function Bumped(p: Process, fd: nat): Process {
    p.(nextFd := (fd + 1) % FD_TABLE_SIZE)
  }

  /** The search loop itself. */
  method AllocUserFd(p: Process) returns (r: Option<nat>, after: Process)
    requires |p.fds| == FD_TABLE_SIZE
    ensures r == AllocFd(p) && after == if r.Some? then Bumped(p, r.value) else p
  {
    var start: nat := FirstTry(p);
    for k := 0 to FD_TABLE_SIZE
      invariant AllocFd(p) == Probe(p.fds, start, FD_TABLE_SIZE - k)
    {
      if start >= FD_TABLE_SIZE {
        start := USER_FD_BASE;
      }
      if p.fds[start].None? {
        return Some(start), Bumped(p, start);
      }
      start := (start + 1) % FD_TABLE_SIZE;
    }
    return None, p;
  }

  predicate Taken(fds: seq<Option<End>>, from: nat, to: nat)
    requires to <= |fds|
  {
    forall i :: from <= i < to ==> fds[i].Some?
  }

  lemma ProbeStep(fds: seq<Option<End>>, at: nat, tries: nat)
    requires |fds| == FD_TABLE_SIZE && at < FD_TABLE_SIZE && tries > 0
    ensures fds[at].None? ==> Probe(fds, at, tries) == Some(at)
    ensures fds[at].Some? ==>
      Probe(fds, at, tries) == Probe(fds, if at + 1 < FD_TABLE_SIZE then at + 1 else 0, tries - 1)
  {
  }

  /** Up to the end of the table the search is a plain scan. */
  lemma {:induction false} ProbeUp(fds: seq<Option<End>>, start: nat, tries: nat)
    requires |fds| == FD_TABLE_SIZE && start < FD_TABLE_SIZE && FD_TABLE_SIZE - start <= tries
    ensures var r := Probe(fds, start, tries);
      if Taken(fds, start, FD_TABLE_SIZE) then r == Probe(fds, 0, tries - (FD_TABLE_SIZE - start))
      else r.Some? && start <= r.value < FD_TABLE_SIZE && fds[r.value].None? && Taken(fds, start, r.value)
    decreases FD_TABLE_SIZE - start
  {
    hide Probe;
    ProbeStep(fds, start, tries);
    if fds[start].Some? {
      if start + 1 < FD_TABLE_SIZE {
        ProbeUp(fds, start + 1, tries - 1);
      }
    } else {
      assert !Taken(fds, start, FD_TABLE_SIZE);
    }
  }

  lemma NoProbe(fds: seq<Option<End>>, at: nat)
    requires |fds| == FD_TABLE_SIZE
    ensures Probe(fds, at, 0).None?
  {
  }

  lemma {:induction false} ProbeLow(fds: seq<Option<End>>, at: nat, tries: nat)
    requires |fds| == FD_TABLE_SIZE && at + tries <= FD_TABLE_SIZE
    ensures var r := Probe(fds, at, tries);
      if Taken(fds, at, at + tries) then r.None?
        else r.Some? && at <= r.value < at + tries && fds[r.value].None? && Taken(fds, at, r.value)
    decreases tries
  {
    hide Probe;
    if tries == 0 {
      NoProbe(fds, at);
    } else {
      ProbeStep(fds, at, tries);
      if fds[at].Some? {
        if at + 1 < FD_TABLE_SIZE {
          ProbeLow(fds, at + 1, tries - 1);
        } else {
          NoProbe(fds, 0);
        }
      } else {
        assert !Taken(fds, at, at + tries);
      }
    }
  }

  /** A free descriptor is found exactly when there is one. */
  lemma AllocFdFinds(p: Process)
    requires |p.fds| == FD_TABLE_SIZE && p.nextFd < FD_TABLE_SIZE
    ensures AllocFd(p).None? <==> Taken(p.fds, 0, FD_TABLE_SIZE)
    ensures AllocFd(p).Some? ==> AllocFd(p).value < FD_TABLE_SIZE && p.fds[AllocFd(p).value].None?
  {
    var start := FirstTry(p);
    ProbeUp(p.fds, start, FD_TABLE_SIZE);
    ProbeLow(p.fds, 0, start);
  }

  /**
   * The search is meant to skip the three console descriptors.  It hands one out exactly when every
   * descriptor from its starting point to the end of the table is taken and a console one is free.
   */
  lemma ConsoleFdIff(p: Process)
    requires |p.fds| == FD_TABLE_SIZE && p.nextFd < FD_TABLE_SIZE
    ensures AllocFd(p).Some? && AllocFd(p).value < USER_FD_BASE
      <==> Taken(p.fds, FirstTry(p), FD_TABLE_SIZE) && !Taken(p.fds, 0, USER_FD_BASE)
  {
    var start := FirstTry(p);
    ProbeUp(p.fds, start, FD_TABLE_SIZE);
    ProbeLow(p.fds, 0, start);
  }

  /** All thirteen user descriptors taken, the console ones unused: the next pipe gets descriptor 0. */
  lemma ConsoleFdExample()
    ensures var p := Process(seq(FD_TABLE_SIZE, i => if i < USER_FD_BASE then None else Some(End(0, Reader))),
      USER_FD_BASE);
      AllocFd(p) == Some(0)
  {
    var p := Process(seq(FD_TABLE_SIZE, i => if i < USER_FD_BASE then None else Some(End(0, Reader))), USER_FD_BASE);
    ProbeUp(p.fds, USER_FD_BASE, FD_TABLE_SIZE);
    assert Probe(p.fds, 0, USER_FD_BASE) == Some(0);
  }

  // ----- steps -----

  predicate Shaped(s: State) {
    && |s.pipes| == MAX_PIPES
    && (forall p :: 0 <= p < |s.procs| ==> |s.procs[p].fds| == FD_TABLE_SIZE)
  }

  function WithFd(q: Process, fd: nat, e: End): Process
    requires fd < |q.fds|
  {
    q.(fds := q.fds[fd := Some(e)])
  }

  /** Takes the next pipe number; past the sixteenth there are no more. */
  function NewPipe(s: State): State
    requires Shaped(s)
  {
    if s.nextId >= MAX_PIPES then s.(nextId := s.nextId + 1)
    else s.(pipes := s.pipes[s.nextId := Some(Counts(1, 1))], nextId := s.nextId + 1)
  }

  /** Both searches run before either descriptor is filled in. */
  function SysPipe(s: State, p: nat): State
    requires Shaped(s) && p < |s.procs|
  {
    var t := NewPipe(s);
    if s.nextId >= MAX_PIPES then t
    else match AllocFd(t.procs[p])
      case None => t
      case Some(rd) =>
        var q := Bumped(t.procs[p], rd);
        match AllocFd(q)
        case None => t.(procs := t.procs[p := q])
        case Some(wr) =>
          var q2 := Bumped(q, wr);
          if rd < FD_TABLE_SIZE && wr < FD_TABLE_SIZE then
            t.(procs := t.procs[p := WithFd(WithFd(q2, rd, End(s.nextId, Reader)), wr, End(s.nextId, Writer))])
          else t
  }

  /** The call gets as far as the entry for `newFd`, where an index past the table would panic. */
  predicate ReachesEntry(s: State, p: nat, oldFd: nat, newFd: nat)
    requires Shaped(s) && p < |s.procs|
  {
    oldFd != newFd && newFd >= USER_FD_BASE && oldFd < FD_TABLE_SIZE && s.procs[p].fds[oldFd].Some?
  }

  /** Duplicates `oldFd` onto `newFd`, closing what was there; the console descriptors are refused. */
  function Dup2(s: State, p: nat, oldFd: nat, newFd: nat): Result<State>
    requires Shaped(s) && p < |s.procs| && EndsExist(s, p)
    requires ReachesEntry(s, p, oldFd, newFd) ==> newFd < FD_TABLE_SIZE
  {
    var q := s.procs[p];
    if oldFd == newFd then Ok(s)
    else if newFd < USER_FD_BASE then Err(NotAllowed)
    else if oldFd >= FD_TABLE_SIZE || q.fds[oldFd].None? then Err(BadHandle)
    else
      var e := q.fds[oldFd].value;
      var closed := if q.fds[newFd].Some? then CloseRole(s.pipes, q.fds[newFd].value) else s.pipes;
      Ok(s.(pipes := CloneRole(closed, e), procs := s.procs[p := WithFd(q, newFd, e)]))
  }

  /** Every descriptor of `p` names a pipe number within the table. */
  predicate EndsExist(s: State, p: nat)
    requires Shaped(s) && p < |s.procs|
  {
    forall f :: 0 <= f < FD_TABLE_SIZE && s.procs[p].fds[f].Some? ==> s.procs[p].fds[f].value.pipe < MAX_PIPES
  }

  // ----- the invariant -----

  /** All process and descriptor numbers. */
  ghost function Slots(n: nat): set<(nat, nat)> {
    set p, f | p in Below(n) && f in Below(FD_TABLE_SIZE) :: (p, f)
  }

  predicate HoldsAt(s: State, x: (nat, nat), e: End) {
    x.0 < |s.procs| && x.1 < |s.procs[x.0].fds| && s.procs[x.0].fds[x.1] == Some(e)
  }

  ghost function Holders(s: State, e: End): set<(nat, nat)>
    requires Shaped(s)
  {
    set x | x in Slots(|s.procs|) && HoldsAt(s, x, e)
  }

  lemma InSlots(n: nat, p: nat, f: nat)
    ensures (p, f) in Slots(n) <==> p < n && f < FD_TABLE_SIZE
  {
    if p < n && f < FD_TABLE_SIZE {
      assert p in Below(n) && f in Below(FD_TABLE_SIZE);
    }
  }

  /** The count of a role is at least the number of descriptors holding it, and a held pipe exists. */
  ghost predicate Counted(s: State, e: End)
    requires Shaped(s) && e.pipe < MAX_PIPES
  {
    && (Holders(s, e) != {} ==> s.pipes[e.pipe].Some?)
    && (s.pipes[e.pipe].Some? ==> |Holders(s, e)| <= CountOf(s.pipes[e.pipe].value, e.role))
  }

  ghost predicate Inv(s: State) {
    && Shaped(s)
    && (forall e: End :: e.pipe < MAX_PIPES ==> Counted(s, e))
    && (forall p: nat :: p < |s.procs| ==> EndsExist(s, p) && s.procs[p].nextFd < FD_TABLE_SIZE)
    && (forall e: End :: s.nextId <= e.pipe ==> Holders(s, e) == {})
  }

  /** What the counts are for: no descriptor ever names a freed pipe. */
  lemma NoDanglingEnd(s: State, p: nat, f: nat)
    requires Inv(s) && p < |s.procs| && f < FD_TABLE_SIZE && s.procs[p].fds[f].Some?
    ensures var e := s.procs[p].fds[f].value;
      && e.pipe < MAX_PIPES && e.pipe < s.nextId && s.pipes[e.pipe].Some? && CountOf(s.pipes[e.pipe].value, e.role) > 0
  {
    var e := s.procs[p].fds[f].value;
    assert EndsExist(s, p);
    HolderIs(s, p, f);
    assert Counted(s, e);
  }

  // ----- every step keeps it -----

  function SetEntry(s: State, p: nat, f: nat, x: Option<End>): State
    requires Shaped(s) && p < |s.procs| && f < FD_TABLE_SIZE
  {
    s.(procs := s.procs[p := s.procs[p].(fds := s.procs[p].fds[f := x])])
  }

  lemma SetEntryHolders(s: State, p: nat, f: nat, x: Option<End>, e: End)
    requires Shaped(s) && p < |s.procs| && f < FD_TABLE_SIZE
    ensures Shaped(SetEntry(s, p, f, x))
    ensures Holders(SetEntry(s, p, f, x), e) == (Holders(s, e) - {(p, f)}) + if x == Some(e) then {(p, f)} else {}
  {
    hide Slots;
    var t := SetEntry(s, p, f, x);
    InSlots(|s.procs|, p, f);
    forall y | y in Slots(|s.procs|)
      ensures HoldsAt(t, y, e) <==> if y == (p, f) then x == Some(e) else HoldsAt(s, y, e)
    {
    }
  }

  lemma PipesOnly(s: State, pipes: seq<Option<Counts>>, id: nat, e: End)
    requires Shaped(s) && |pipes| == MAX_PIPES
    ensures Shaped(s.(pipes := pipes, nextId := id)) && Holders(s.(pipes := pipes, nextId := id), e) == Holders(s, e)
  {
  }

  /** Emptying a descriptor and dropping its reference. */
  lemma CloseKeeps(s: State, p: nat, f: nat)
    requires Inv(s) && p < |s.procs| && f < FD_TABLE_SIZE && s.procs[p].fds[f].Some?
      && s.procs[p].fds[f].value.pipe < MAX_PIPES
    ensures Inv(SetEntry(s, p, f, None).(pipes := CloseRole(s.pipes, s.procs[p].fds[f].value)))
  {
    hide Holders;
    var o := s.procs[p].fds[f].value;
    var u := SetEntry(s, p, f, None);
    var t := u.(pipes := CloseRole(s.pipes, o));
    HolderIs(s, p, f);
    forall e: End ensures Holders(t, e) == Holders(s, e) - {(p, f)} {
      SetEntryHolders(s, p, f, None, e);
      PipesOnly(u, t.pipes, u.nextId, e);
    }
    assert Counted(s, o);
    forall e: End | e.pipe < MAX_PIPES ensures Counted(t, e) {
      assert Counted(s, e);
      ClosedCount(s.pipes, o, e, Holders(s, e), Holders(s, o), (p, f));
    }
    forall e: End | t.nextId <= e.pipe ensures Holders(t, e) == {} {
      assert Holders(s, e) == {};
    }
    forall q: nat | q < |t.procs| ensures EndsExist(t, q) && t.procs[q].nextFd < FD_TABLE_SIZE {
      assert EndsExist(s, q);
    }
  }

  lemma HolderIs(s: State, p: nat, f: nat)
    requires Shaped(s) && p < |s.procs| && f < FD_TABLE_SIZE && s.procs[p].fds[f].Some?
    ensures (p, f) in Holders(s, s.procs[p].fds[f].value)
    ensures forall e: End :: e != s.procs[p].fds[f].value ==> (p, f) !in Holders(s, e)
  {
    hide Slots;
    InSlots(|s.procs|, p, f);
  }

  /** The counting argument of a close: `hs` holders of `e`, `ho` of the closed end `o`. */
  lemma ClosedCount(pipes: seq<Option<Counts>>, o: End, e: End, hs: set<(nat, nat)>, ho: set<(nat, nat)>, x: (nat, nat))
    requires |pipes| == MAX_PIPES && o.pipe < MAX_PIPES && e.pipe < MAX_PIPES
    requires x in ho && pipes[o.pipe].Some? && |ho| <= CountOf(pipes[o.pipe].value, o.role)
    requires (hs != {} ==> pipes[e.pipe].Some?)
      && (pipes[e.pipe].Some? ==> |hs| <= CountOf(pipes[e.pipe].value, e.role))
    requires e == o ==> hs == ho
    requires e != o ==> x !in hs
    ensures var after := CloseRole(pipes, o);
      && (hs - {x} != {} ==> after[e.pipe].Some?)
      && (after[e.pipe].Some? ==> |hs - {x}| <= CountOf(after[e.pipe].value, e.role))
  {
    assert |ho - {x}| == |ho| - 1;
    if e != o {
      assert hs - {x} == hs;
    }
    if hs - {x} != {} {
      var y :| y in hs - {x};
      assert |hs - {x}| >= 1 by {
        SubsetSize({y}, hs - {x});
      }
    }
  }

  /** Filling an empty descriptor with an end that somebody holds, and raising its count. */
  lemma CloneKeeps(s: State, p: nat, f: nat, e: End)
    requires Inv(s) && p < |s.procs| && f < FD_TABLE_SIZE && s.procs[p].fds[f].None? && e.pipe < MAX_PIPES
      && Holders(s, e) != {}
    ensures Inv(SetEntry(s, p, f, Some(e)).(pipes := CloneRole(s.pipes, e)))
  {
    hide Holders;
    var u := SetEntry(s, p, f, Some(e));
    var t := u.(pipes := CloneRole(s.pipes, e));
    assert Counted(s, e);
    NoHolder(s, p, f);
    forall x: End ensures Holders(t, x) == Holders(s, x) + if x == e then {(p, f)} else {} {
      SetEntryHolders(s, p, f, Some(e), x);
      PipesOnly(u, t.pipes, u.nextId, x);
      assert Holders(s, x) - {(p, f)} == Holders(s, x);
    }
    forall x: End | x.pipe < MAX_PIPES ensures Counted(t, x) {
      assert Counted(s, x);
    }
    forall x: End | t.nextId <= x.pipe ensures Holders(t, x) == {} {
      assert Holders(s, x) == {};
    }
    forall q: nat | q < |t.procs| ensures EndsExist(t, q) && t.procs[q].nextFd < FD_TABLE_SIZE {
      assert EndsExist(s, q);
    }
  }

  lemma NoHolder(s: State, p: nat, f: nat)
    requires Shaped(s) && p < |s.procs| && f < FD_TABLE_SIZE && s.procs[p].fds[f].None?
    ensures forall e: End :: (p, f) !in Holders(s, e)
  {
  }

  lemma Dup2Keeps(s: State, p: nat, oldFd: nat, newFd: nat)
    requires Inv(s) && p < |s.procs| && (ReachesEntry(s, p, oldFd, newFd) ==> newFd < FD_TABLE_SIZE)
    ensures EndsExist(s, p) && (Dup2(s, p, oldFd, newFd).Ok? ==> Inv(Dup2(s, p, oldFd, newFd).value))
  {
    hide Inv, Holders, CloseRole, CloneRole;
    InvFacts(s, p);
    var r := Dup2(s, p, oldFd, newFd);
    if r.Ok? && oldFd != newFd {
      var e := s.procs[p].fds[oldFd].value;
      var t := s;
      if s.procs[p].fds[newFd].Some? {
        CloseKeeps(s, p, newFd);
        t := SetEntry(s, p, newFd, None).(pipes := CloseRole(s.pipes, s.procs[p].fds[newFd].value));
      }
      InvFacts(t, p);
      assert t.procs[p].fds[oldFd] == Some(e);
      HolderIs(t, p, oldFd);
      CloneKeeps(t, p, newFd, e);
      var u := SetEntry(t, p, newFd, Some(e)).(pipes := CloneRole(t.pipes, e));
      assert u.procs[p].fds == s.procs[p].fds[newFd := Some(e)];
      assert u.procs == r.value.procs;
    }
  }

  lemma InvShaped(s: State)
    requires Inv(s)
    ensures Shaped(s)
  {
  }

  lemma InvFacts(s: State, p: nat)
    requires Inv(s) && p < |s.procs|
    ensures Shaped(s) && EndsExist(s, p) && s.procs[p].nextFd < FD_TABLE_SIZE
  {
  }

  lemma NewPipeKeeps(s: State)
    requires Inv(s)
    ensures Inv(NewPipe(s)) && NewPipe(s).procs == s.procs
    ensures forall role :: Holders(NewPipe(s), End(s.nextId, role)) == {} == Holders(s, End(s.nextId, role))
  {
    hide Holders;
    var t := NewPipe(s);
    forall e: End ensures Holders(t, e) == Holders(s, e) {
      PipesOnly(s, t.pipes, t.nextId, e);
    }
    forall e: End | e.pipe < MAX_PIPES ensures Counted(t, e) {
      assert Counted(s, e);
    }
    forall p: nat | p < |t.procs| ensures EndsExist(t, p) {
      assert EndsExist(s, p);
    }
  }

  /** Moving a process's search position touches no end. */
  lemma BumpKeeps(s: State, p: nat, q: Process)
    requires Inv(s) && p < |s.procs| && q.fds == s.procs[p].fds && q.nextFd < FD_TABLE_SIZE
    ensures Inv(s.(procs := s.procs[p := q]))
    ensures forall e: End :: Holders(s.(procs := s.procs[p := q]), e) == Holders(s, e)
  {
    hide Holders;
    var t := s.(procs := s.procs[p := q]);
    assert forall k :: 0 <= k < |t.procs| ==> t.procs[k].fds == s.procs[k].fds;
    forall e: End ensures Holders(t, e) == Holders(s, e) {
      BumpHolders(s, p, q, e);
    }
    forall e: End | e.pipe < MAX_PIPES ensures Counted(t, e) {
      assert Counted(s, e);
    }
    forall k: nat | k < |t.procs| ensures EndsExist(t, k) {
      assert EndsExist(s, k);
    }
  }

  lemma BumpHolders(s: State, p: nat, q: Process, e: End)
    requires Shaped(s) && p < |s.procs| && q.fds == s.procs[p].fds
    ensures Shaped(s.(procs := s.procs[p := q])) && Holders(s.(procs := s.procs[p := q]), e) == Holders(s, e)
  {
    hide Slots;
    var t := s.(procs := s.procs[p := q]);
    assert |t.procs| == |s.procs|;
    forall x | x in Slots(|s.procs|) ensures HoldsAt(t, x, e) <==> HoldsAt(s, x, e) {
      assert x.0 < |s.procs| ==> t.procs[x.0].fds == s.procs[x.0].fds;
    }
  }

  /** A new pipe's own two descriptors are covered by its initial counts, even if they coincide. */
  lemma InstallKeeps(s: State, p: nat, f: nat, e: End)
    requires Inv(s) && p < |s.procs| && f < FD_TABLE_SIZE && e.pipe < MAX_PIPES && e.pipe < s.nextId
    requires s.pipes[e.pipe] == Some(Counts(1, 1)) && Holders(s, e) == {}
    ensures Inv(SetEntry(s, p, f, Some(e)))
    ensures forall x: End :: x != e && Holders(s, x) == {} ==> Holders(SetEntry(s, p, f, Some(e)), x) == {}
  {
    hide Holders;
    var t := SetEntry(s, p, f, Some(e));
    forall x: End ensures Holders(t, x) == (Holders(s, x) - {(p, f)}) + if x == e then {(p, f)} else {} {
      SetEntryHolders(s, p, f, Some(e), x);
    }
    forall x: End | x.pipe < MAX_PIPES ensures Counted(t, x) {
      assert Counted(s, x);
      if x == e {
        assert Holders(t, x) == {(p, f)};
      } else {
        assert Holders(t, x) == Holders(s, x) - {(p, f)};
        SubsetSize(Holders(s, x) - {(p, f)}, Holders(s, x));
      }
    }
    forall x: End | t.nextId <= x.pipe ensures Holders(t, x) == {} {
      assert Holders(s, x) == {};
    }
    forall q: nat | q < |t.procs| ensures EndsExist(t, q) && t.procs[q].nextFd < FD_TABLE_SIZE {
      assert EndsExist(s, q);
    }
  }

  lemma SysPipeKeeps(s: State, p: nat)
    requires Inv(s) && p < |s.procs|
    ensures Inv(SysPipe(s, p)) && |SysPipe(s, p).procs| == |s.procs|
  {
    hide Inv, Holders, AllocFd;
    InvFacts(s, p);
    var t := NewPipe(s);
    NewPipeKeeps(s);
    InvFacts(t, p);
    if s.nextId < MAX_PIPES && AllocFd(t.procs[p]).Some? {
      var rd := AllocFd(t.procs[p]).value;
      var q := Bumped(t.procs[p], rd);
      BumpKeeps(t, p, q);
      AllocFdFinds(t.procs[p]);
      if AllocFd(q).Some? {
        var wr := AllocFd(q).value;
        AllocFdFinds(q);
        var q2 := Bumped(q, wr);
        BumpKeeps(t, p, q2);
        var u := t.(procs := t.procs[p := q2]);
        InvFacts(u, p);
        InstallKeeps(u, p, rd, End(s.nextId, Reader));
        var v := SetEntry(u, p, rd, Some(End(s.nextId, Reader)));
        InvFacts(v, p);
        InstallKeeps(v, p, wr, End(s.nextId, Writer));
        var w := SetEntry(v, p, wr, Some(End(s.nextId, Writer)));
        assert w.procs == SysPipe(s, p).procs;
      }
    }
  }

  /** A process slot set up for a new process: its descriptors are forgotten, and no count is lowered. */
  function InitProcess(s: State, p: nat): State
    requires p < |s.procs|
  {
    s.(procs := s.procs[p := Process(NoFds(), USER_FD_BASE)])
  }

  function NoFds(): (fds: seq<Option<End>>)
    ensures |fds| == FD_TABLE_SIZE && forall f :: 0 <= f < |fds| ==> fds[f].None?
  {
    seq(FD_TABLE_SIZE, _ => None)
  }

  /** Forgotten descriptors hold nothing, so the counts cover those that are left. */
  lemma InitKeeps(s: State, p: nat)
    requires Inv(s) && p < |s.procs|
    ensures Inv(InitProcess(s, p))
  {
    hide Holders;
    var t := InitProcess(s, p);
    forall e: End ensures Holders(t, e) <= Holders(s, e) {
      FewerHolders(s, t, p, e);
    }
    forall e: End | e.pipe < MAX_PIPES ensures Counted(t, e) {
      assert Counted(s, e);
      SubsetSize(Holders(t, e), Holders(s, e));
    }
    forall e: End | t.nextId <= e.pipe ensures Holders(t, e) == {} {
      assert Holders(s, e) == {};
    }
    forall q: nat | q < |t.procs| ensures EndsExist(t, q) && t.procs[q].nextFd < FD_TABLE_SIZE {
      assert EndsExist(s, q);
    }
  }

  lemma FewerHolders(s: State, t: State, p: nat, e: End)
    requires Shaped(s) && p < |s.procs| && t == InitProcess(s, p)
    ensures Shaped(t) && Holders(t, e) <= Holders(s, e)
  {
    hide Slots;
    forall x | x in Holders(t, e) ensures x in Holders(s, e) {
      assert HoldsAt(t, x, e) && x.0 != p;
    }
  }

  // ----- runs -----

  datatype Op = MakePipe(p: nat) | Duplicate(p: nat, oldFd: nat, newFd: nat) | Init(p: nat)

  /** The calling process exists and the call does not panic. */
  predicate Allowed(s: State, op: Op)
    requires Shaped(s)
  {
    op.p < |s.procs| && (op.Duplicate? && ReachesEntry(s, op.p, op.oldFd, op.newFd) ==> op.newFd < FD_TABLE_SIZE)
  }

  ghost function Step(s: State, op: Op): State
    requires Inv(s)
  {
    if !Allowed(s, op) then s
    else match op
      case MakePipe(p) => SysPipe(s, p)
      case Init(p) => InitProcess(s, p)
      case Duplicate(p, o, n) => if Dup2(s, p, o, n).Ok? then Dup2(s, p, o, n).value else s
  }

  ghost predicate Run(states: seq<State>, ops: seq<Op>) {
    && |states| == |ops| + 1
    && (forall i :: 0 <= i < |ops| ==> Inv(states[i]) ==> states[i + 1] == Step(states[i], ops[i]))
  }

  /** Along every run the counts cover the descriptors. */
  lemma {:induction false} InvOverRuns(states: seq<State>, ops: seq<Op>, k: nat)
    requires Run(states, ops) && Inv(states[0]) && k <= |ops|
    ensures Inv(states[k])
    decreases k
  {
    if k > 0 {
      InvOverRuns(states, ops, k - 1);
      StepKeeps(states[k - 1], ops[k - 1]);
      assert states[k - 1 + 1] == Step(states[k - 1], ops[k - 1]);
    }
  }

  lemma StepKeeps(s: State, op: Op)
    requires Inv(s)
    ensures Inv(Step(s, op))
  {
    if Allowed(s, op) {
      match op
      case MakePipe(p) => SysPipeKeeps(s, p);
      case Duplicate(p, o, n) => Dup2Keeps(s, p, o, n);
      case Init(p) => InitKeeps(s, p);
    }
  }

  /** No two pipes of a run get the same number. */
  lemma {:induction false} NumbersGrow(states: seq<State>, ops: seq<Op>, i: nat, j: nat)
    requires Run(states, ops) && Inv(states[0]) && i < j <= |ops|
    ensures states[i].nextId <= states[j].nextId
    ensures ops[i].MakePipe? && ops[i].p < |states[i].procs| ==> states[i].nextId < states[j].nextId
    decreases j
  {
    hide Inv;
    InvOverRuns(states, ops, j - 1);
    StepGrows(states[j - 1], ops[j - 1]);
    assert states[j - 1 + 1] == Step(states[j - 1], ops[j - 1]);
    if i < j - 1 {
      NumbersGrow(states, ops, i, j - 1);
    } else {
      InvOverRuns(states, ops, i);
    }
  }

  lemma StepGrows(s: State, op: Op)
    requires Inv(s)
    ensures s.nextId <= Step(s, op).nextId
    ensures op.MakePipe? && op.p < |s.procs| ==> Step(s, op).nextId == s.nextId + 1
  {
    hide AllocFd, Counted, Holders;
  }

  /** Processes without open pipes, no pipe made yet. */
  lemma FreshInv(s: State)
    requires Shaped(s) && s.nextId == 0 && (forall i :: 0 <= i < MAX_PIPES ==> s.pipes[i].None?)
    requires forall p: nat :: p < |s.procs| ==>
      s.procs[p].nextFd == USER_FD_BASE && forall f :: 0 <= f < FD_TABLE_SIZE ==> s.procs[p].fds[f].None?
    ensures Inv(s)
  {
    forall e: End ensures Holders(s, e) == {} {
      forall x | x in Slots(|s.procs|) ensures !HoldsAt(s, x, e) {
      }
    }
  }

  // ----- the code -----

  /** The kernel's pipe table and the processes' descriptor tables, updated in place. */
  class PipeSystem {
    var pipes: seq<Option<Counts>>
    var nextId: nat
    var procs: seq<Process>

    ghost function View(): State
      reads this
    {
      State(pipes, nextId, procs)
    }

    constructor (count: nat)
      ensures Inv(View()) && |procs| == count
    {
      pipes := seq(MAX_PIPES, _ => None);
      nextId := 0;
      procs := seq(count, _ => Process(seq(FD_TABLE_SIZE, _ => None), USER_FD_BASE));
      new;
      FreshInv(View());
    }

    /** Hands out the next number, which nobody holds and nobody was given before, with one reader and one writer. */
    method AllocPipe() returns (r: Result<nat>)
      requires Inv(View())
      modifies this`pipes, this`nextId
      ensures nextId == old(nextId) + 1 && Inv(View())
      ensures r.Ok? <==> old(nextId) < MAX_PIPES
      ensures r.Err? ==> r.error == NoMemory && pipes == old(pipes)
      ensures r.Ok? ==>
        && old(nextId) <= r.value < nextId && r.value < |pipes| == |old(pipes)|
        && (forall role :: Holders(old(View()), End(r.value, role)) == {})
        && pipes[r.value].Some? && (forall role :: CountOf(pipes[r.value].value, role) == 1)
        && (forall i :: 0 <= i < |pipes| && i != r.value ==> pipes[i] == old(pipes)[i])
    {
      hide Inv, Holders;
      InvShaped(View());
      NewPipeKeeps(View());
      var id := nextId;
      nextId := nextId + 1;
      if id >= MAX_PIPES {
        return Err(NoMemory);
      }
      pipes := pipes[id := Some(Counts(1, 1))];
      return Ok(id);
    }

    method PipeCloneRole(e: End)
      requires e.pipe < |pipes|
      modifies this`pipes
      ensures pipes == CloneRole(old(pipes), e)
    {
      if pipes[e.pipe].Some? {
        pipes := pipes[e.pipe := Some(More(pipes[e.pipe].value, e.role))];
      }
    }

    /** Drops one reference; the pipe is freed exactly when neither end is held any more. */
    method PipeCloseRole(e: End)
      requires e.pipe < |pipes|
      modifies this`pipes
      ensures |pipes| == |old(pipes)| && forall i :: 0 <= i < |pipes| && i != e.pipe ==> pipes[i] == old(pipes)[i]
      ensures old(pipes)[e.pipe].None? ==> pipes[e.pipe].None?
      ensures old(pipes)[e.pipe].Some? ==>
        var before := old(pipes)[e.pipe].value;
        && (pipes[e.pipe].None? <==> CountOf(before, e.role) <= 1 && CountOf(before, Other(e.role)) == 0)
        && (pipes[e.pipe].Some? ==>
              && CountOf(pipes[e.pipe].value, Other(e.role)) == CountOf(before, Other(e.role))
              && CountOf(pipes[e.pipe].value, e.role) == if CountOf(before, e.role) == 0 then 0
                else CountOf(before, e.role) - 1)
    {
      if pipes[e.pipe].Some? {
        var c := Less(pipes[e.pipe].value, e.role);
        pipes := pipes[e.pipe := Some(c)];
        if c.readers == 0 && c.writers == 0 {
          pipes := pipes[e.pipe := None];
        }
      }
    }

    /** Makes a pipe and gives process `p` its two ends. */
    method MakePipe(p: nat) returns (r: Result<(nat, nat)>)
      requires Inv(View()) && p < |procs|
      modifies this
      ensures View() == SysPipe(old(View()), p) && Inv(View())
      ensures r.Ok? ==> r.value.0 < FD_TABLE_SIZE && r.value.1 < FD_TABLE_SIZE
      ensures r.Ok? ==> procs[p].fds[r.value.1] == Some(End(old(nextId), Writer))
      ensures r.Ok? && r.value.0 != r.value.1 ==> procs[p].fds[r.value.0] == Some(End(old(nextId), Reader))
      ensures r.Err? ==> r.error == NoMemory && forall q :: 0 <= q < |procs| ==> procs[q].fds == old(procs)[q].fds
    {
      hide Inv, AllocFd;
      ghost var s := View();
      InvFacts(s, p);
      SysPipeKeeps(s, p);
      NewPipeKeeps(s);
      var id := AllocPipe();
      if id.Err? {
        return Err(NoMemory);
      }
      assert CountOf(pipes[id.value].value, Reader) == 1 && CountOf(pipes[id.value].value, Writer) == 1;
      assert pipes == NewPipe(s).pipes;
      InvFacts(View(), p);
      AllocFdFinds(procs[p]);
      var rd, q := AllocUserFd(procs[p]);
      if rd.None? {
        return Err(NoMemory);
      }
      procs := procs[p := q];
      AllocFdFinds(procs[p]);
      var wr, q2 := AllocUserFd(procs[p]);
      if wr.None? {
        return Err(NoMemory);
      }
      procs := procs[p := q2];
      procs := procs[p := WithFd(procs[p], rd.value, End(id.value, Reader))];
      procs := procs[p := WithFd(procs[p], wr.value, End(id.value, Writer))];
      return Ok((rd.value, wr.value));
    }

    /** Duplicates a descriptor of process `p`. */
    method DupTo(p: nat, oldFd: nat, newFd: nat) returns (r: Result<nat>)
      requires Inv(View()) && p < |procs| && (ReachesEntry(View(), p, oldFd, newFd) ==> newFd < FD_TABLE_SIZE)
      modifies this
      ensures EndsExist(old(View()), p) && Inv(View())
      ensures Dup2(old(View()), p, oldFd, newFd).Ok? ==>
        View() == Dup2(old(View()), p, oldFd, newFd).value && r == Ok(newFd)
      ensures Dup2(old(View()), p, oldFd, newFd).Err? ==>
        View() == old(View()) && r == Err(Dup2(old(View()), p, oldFd, newFd).error)
    {
      hide Inv;
      ghost var s := View();
      InvFacts(s, p);
      Dup2Keeps(s, p, oldFd, newFd);
      if oldFd == newFd {
        return Ok(newFd);
      }
      if newFd == 0 || newFd == 1 || newFd == 2 {
        return Err(NotAllowed);
      }
      if oldFd >= FD_TABLE_SIZE || procs[p].fds[oldFd].None? {
        return Err(BadHandle);
      }
      var e := procs[p].fds[oldFd].value;
      if procs[p].fds[newFd].Some? {
        PipeCloseRole(procs[p].fds[newFd].value);
        assert pipes == CloseRole(s.pipes, s.procs[p].fds[newFd].value);
      }
      procs := procs[p := WithFd(procs[p], newFd, e)];
      PipeCloneRole(e);
      return Ok(newFd);
    }

    /** Sets up the slot of process `p`. */
    method Init(p: nat)
      requires Inv(View()) && p < |procs|
      modifies this`procs
      ensures View() == InitProcess(old(View()), p) && Inv(View())
      ensures |procs[p].fds| == FD_TABLE_SIZE && forall f :: 0 <= f < FD_TABLE_SIZE ==> procs[p].fds[f].None?
      ensures |procs| == |old(procs)| && forall q :: 0 <= q < |procs| && q != p ==> procs[q] == old(procs)[q]
    {
      InitKeeps(View(), p);
      procs := procs[p := Process(NoFds(), USER_FD_BASE)];
    }
  }
}
