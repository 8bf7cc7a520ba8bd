/**
 * Pipe input and output through descriptors (kernel/src/syscall/handlers/process.rs): whatever processes
 * make, duplicate, read and write, the bytes that come out of a pipe are those that went in, in order.
 */
module PipeRuns {
  import opened Common
  import T = PipeTable
  import R = PipeRing

  /** The descriptor tables, and what each pipe's ring holds. */
  datatype World = World(table: T.State, held: seq<seq<nat>>)

  datatype Op = OnTable(op: T.Op) | ReadFd(p: nat, fd: nat, len: nat) | WriteFd(p: nat, fd: nat, data: seq<nat>)

  const KERNEL_BUF: nat := 4096

  /** The pipe end behind a user descriptor. */
  function EndAt(s: T.State, p: nat, fd: nat): Option<T.End>
    requires T.Shaped(s)
  {
    if p < |s.procs| && T.USER_FD_BASE <= fd < T.FD_TABLE_SIZE then s.procs[p].fds[fd] else None
  }

  predicate Shaped(w: World) {
    T.Shaped(w.table) && |w.held| == T.MAX_PIPES && forall i :: 0 <= i < |w.held| ==> |w.held[i]| < R.PIPE_BUF_SIZE
  }

  /** The pipe a step reads from or writes to: the caller holds its end in the right role. */
  function PipeOf(w: World, op: Op): Option<nat>
    requires Shaped(w)
  {
    match op
    case OnTable(_) => None
    case ReadFd(p, fd, len) =>
      var e := EndAt(w.table, p, fd);
      if e.Some? && e.value.role == T.Reader && e.value.pipe < T.MAX_PIPES
        && w.table.pipes[e.value.pipe].Some? then Some(e.value.pipe) else None
    case WriteFd(p, fd, data) =>
      var e := EndAt(w.table, p, fd);
      if e.Some? && e.value.role == T.Writer && e.value.pipe < T.MAX_PIPES
        && w.table.pipes[e.value.pipe].Some? then Some(e.value.pipe) else None
  }

  /** The bytes a step takes out of pipe `id`. */
  function Out(w: World, op: Op, id: nat): seq<nat>
    requires Shaped(w)
  {
    if op.ReadFd? && PipeOf(w, op) == Some(id) then w.held[id][..Min(Min(op.len, KERNEL_BUF), |w.held[id]|)] else []
  }

  /** The bytes of a step that pipe `id` accepts. */
  function In(w: World, op: Op, id: nat): seq<nat>
    requires Shaped(w)
  {
    if op.WriteFd? && PipeOf(w, op) == Some(id) then
      var n := R.Fits(|w.held[id]|, w.table.pipes[id].value.readers, Min(|op.data|, KERNEL_BUF));
      if n.Ok? then op.data[..n.value] else []
    else []
  }

  ghost predicate Inv(w: World) {
    T.Inv(w.table) && Shaped(w) && forall id :: w.table.nextId <= id < |w.held| ==> w.held[id] == []
  }

  /** A new pipe starts empty; a read takes from the front and a write appends. */
  ghost function Step(w: World, op: Op): World
    requires Inv(w)
  {
    match op
    case OnTable(op) =>
      var t := T.Step(w.table, op);
      World(t, if op.MakePipe? && T.Allowed(w.table, op)
        && w.table.nextId < T.MAX_PIPES then w.held[w.table.nextId := []] else w.held)
    case _ =>
      var id := PipeOf(w, op);
      if id.None? then w
      else w.(held := w.held[id.value := w.held[id.value][|Out(w, op, id.value)|..] + In(w, op, id.value)])
  }

  lemma StepKeeps(w: World, op: Op)
    requires Inv(w)
    ensures Inv(Step(w, op))
  {
    hide T.Inv, T.Step;
    match op
    case OnTable(o) =>
      T.StepKeeps(w.table, o);
      T.StepGrows(w.table, o);
      T.InvShaped(T.Step(w.table, o));
    case ReadFd(p, fd, len) =>
      if PipeOf(w, op).Some? {
        T.NoDanglingEnd(w.table, p, fd);
      }
    case WriteFd(p, fd, data) =>
      if PipeOf(w, op).Some? {
        T.NoDanglingEnd(w.table, p, fd);
      }
  }

  /** Every pipe balances at every step. */
  lemma StepBalances(w: World, op: Op, id: nat)
    requires Inv(w) && id < T.MAX_PIPES
    ensures Inv(Step(w, op)) && w.held[id] + In(w, op, id) == Out(w, op, id) + Step(w, op).held[id]
  {
    hide T.Inv, T.Step;
    StepKeeps(w, op);
    var out := Out(w, op, id);
    assert op.ReadFd? && PipeOf(w, op) == Some(id) ==> out + w.held[id][|out|..] == w.held[id];
  }

  lemma ShapedHeld(w: World)
    requires Shaped(w)
    ensures |w.held| == T.MAX_PIPES
  {
  }

  // ----- runs -----

  /** The tables and rings keep their fixed sizes, and each state follows from the one before. */
  ghost predicate Run(ws: seq<World>, ops: seq<Op>) {
    && |ws| == |ops| + 1
    && (forall i :: 0 <= i < |ws| ==> Shaped(ws[i]))
    && (forall i :: 0 <= i < |ops| ==> Inv(ws[i]) ==> ws[i + 1] == Step(ws[i], ops[i]))
  }

  ghost function Received(ws: seq<World>, ops: seq<Op>, n: nat, id: nat): seq<nat>
    requires Run(ws, ops) && n <= |ops|
  {
    if n == 0 then [] else Received(ws, ops, n - 1, id) + Out(ws[n - 1], ops[n - 1], id)
  }

  ghost function Sent(ws: seq<World>, ops: seq<Op>, n: nat, id: nat): seq<nat>
    requires Run(ws, ops) && n <= |ops|
  {
    if n == 0 then [] else Sent(ws, ops, n - 1, id) + In(ws[n - 1], ops[n - 1], id)
  }

  /** The byte law over mixed runs: what was accepted is what came out followed by what is still held. */
  lemma {:induction false} BytesInOrder(ws: seq<World>, ops: seq<Op>, n: nat, id: nat)
    requires Run(ws, ops) && n <= |ops| && id < T.MAX_PIPES && Inv(ws[0]) && ws[0].held[id] == []
    ensures Inv(ws[n])
    ensures Sent(ws, ops, n, id) == Received(ws, ops, n, id) + ws[n].held[id]
    decreases n
  {
    hide Inv, Step, In, Out, Shaped;
    if n > 0 {
      BytesInOrder(ws, ops, n - 1, id);
      assert ws[n - 1 + 1] == Step(ws[n - 1], ops[n - 1]);
      StepBalances(ws[n - 1], ops[n - 1], id);
      var w, op := ws[n - 1], ops[n - 1];
      ShapedHeld(w);
      ShapedHeld(ws[n]);
      calc {
        Sent(ws, ops, n, id);
        (Received(ws, ops, n - 1, id) + w.held[id]) + In(w, op, id);
        Received(ws, ops, n - 1, id) + (w.held[id] + In(w, op, id));
        Received(ws, ops, n - 1, id) + (Out(w, op, id) + ws[n].held[id]);
        Received(ws, ops, n, id) + ws[n].held[id];
      }
    }
  }
}
