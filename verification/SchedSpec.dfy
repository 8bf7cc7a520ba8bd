/**
 * The scheduler's state and steps as values, its invariant over all runs, and
 * bounded waiting (kernel/src/task/scheduler.rs, kernel/src/task/thread.rs).
 */
module SchedSpec {
  import opened Common

  const MAX_THREADS: nat := 16
  const PRIORITY_LEVELS: nat := 5

  datatype ThreadState = Initial | Ready | Running | Blocked | Sleeping | Dead

  /** `priority` is the queue index: 0 realtime, 1 high, 2 normal, 3 low, 4 idle. */
  datatype Thread = Thread(id: nat, state: ThreadState, priority: nat, timeSlice: nat, remaining: nat)

  type Slots = seq<Option<Thread>>
  type Queues = seq<seq<nat>>

  datatype Sched = Sched(threads: Slots, queues: Queues, current: Option<nat>, running: bool, halted: bool)

  /** `decay_priority`: one level down, except from low and idle. */
  function Decayed(t: Thread): Thread {
    t.(priority := if t.priority < 3 then t.priority + 1 else t.priority, remaining := t.timeSlice)
  }

  predicate Alive(ts: Slots, i: nat) {
    i < |ts| && ts[i].Some? && ts[i].value.state != Dead
  }

  predicate AllDead(ts: Slots) {
    forall i :: 0 <= i < |ts| ==> !Alive(ts, i)
  }

  /** `ThreadQueue::push`: a full queue drops the thread. */
  function Push(q: seq<nat>, i: nat): seq<nat> {
    if |q| >= MAX_THREADS then q else q + [i]
  }

  /** `requeue_current`: to the back of the queue of the thread's current priority. */
  function Requeue(ts: Slots, qs: Queues, i: nat): Queues {
    if i < |ts| && ts[i].Some? && ts[i].value.priority < |qs| then
      var p := ts[i].value.priority;
      qs[p := Push(qs[p], i)]
    else qs
  }

  /** The head of the first non-empty queue at level `k` or below. */
  function PopHighest(qs: Queues, k: nat): Option<(nat, Queues)>
    decreases |qs| - k
  {
    if k >= |qs| then None
    else if qs[k] != [] then Some((qs[k][0], qs[k := qs[k][1..]]))
    else PopHighest(qs, k + 1)
  }

  /** The lowest slot at or above `i` that holds a thread that is not dead. */
  function FirstAlive(ts: Slots, i: nat): (r: Option<nat>)
    ensures r.Some? ==> i <= r.value && Alive(ts, r.value) && forall j :: i <= j < r.value ==> !Alive(ts, j)
    ensures r.None? ==> forall j :: i <= j < |ts| ==> !Alive(ts, j)
    decreases |ts| - i
  {
    if i >= |ts| then None else if Alive(ts, i) then Some(i) else FirstAlive(ts, i + 1)
  }

  /** `pop_next_from_all_queues` with `n` attempts left. */
  function PopNext(ts: Slots, qs: Queues, n: nat): (Option<nat>, Queues)
    decreases n
  {
    if n == 0 then (None, qs)
    else match PopHighest(qs, 0)
      case None => (FirstAlive(ts, 0), qs)
      case Some((i, rest)) => if Alive(ts, i) then (Some(i), rest) else PopNext(ts, rest, n - 1)
  }

  function SetThread(ts: Slots, i: nat, t: Thread): Slots
    requires i < |ts|
  {
    ts[i := Some(t)]
  }

  function SetState(ts: Slots, i: nat, st: ThreadState): Slots {
    if i < |ts| && ts[i].Some? then ts[i := Some(ts[i].value.(state := st))] else ts
  }

  /** The accounting `schedule` does on the thread that is giving up the processor. */
  function Account(t: Thread): Thread {
    var t1 := t.(state := if t.state == Running then Ready else t.state,
                 remaining := if t.remaining == 0 then 0 else t.remaining - 1);
    if t1.remaining == 0 then Decayed(t1) else t1
  }

  /** Picks the next thread and makes it current; with none left the processor halts. */
  function Dispatch(s: Sched): Sched {
    var (next, qs) := PopNext(s.threads, s.queues, MAX_THREADS);
    match next
    case Some(i) =>
      if i < |s.threads| && s.threads[i].Some? then
        var t := s.threads[i].value;
        s.(threads := SetThread(s.threads, i, t.(state := Running, remaining := t.timeSlice)), queues := qs, current :=
          Some(i))
      else s.(queues := qs, current := Some(i))
    case None => s.(queues := qs, current := None, halted := AllDead(s.threads))
  }

  /** `schedule` (the state part; the context switch itself is not modelled). */
  function Schedule(s: Sched): Sched {
    if !s.running || s.current.None? then s
    else
      var c := s.current.value;
      if c < |s.threads| && s.threads[c].Some? then
        var t := Account(s.threads[c].value);
        var ts := SetThread(s.threads, c, t);
        Dispatch(s.(threads := ts, queues := if t.state == Ready then Requeue(ts, s.queues, c) else s.queues))
      else Dispatch(s)
  }

  /** `run`: the first dispatch. */
  function Run(s: Sched): Sched {
    Dispatch(s.(running := true))
  }

  /** Lowest empty slot at or above `i`. */
  function EmptySlot(ts: Slots, i: nat): (r: Option<nat>)
    ensures r.Some? ==> i <= r.value < |ts| && ts[r.value].None? && forall j :: i <= j < r.value ==> ts[j].Some?
    ensures r.None? ==> forall j :: i <= j < |ts| ==> ts[j].Some?
    decreases |ts| - i
  {
    if i >= |ts| then None else if ts[i].None? then Some(i) else EmptySlot(ts, i + 1)
  }

  /** `add`: a full thread table makes the kernel panic. */
  function Add(s: Sched, t: Thread): Sched
    requires EmptySlot(s.threads, 0).Some?
  {
    var i := EmptySlot(s.threads, 0).value;
    var ts := SetThread(s.threads, i, t.(state := Ready));
    s.(threads := ts, queues := Requeue(ts, s.queues, i))
  }

  predicate Wakeable(ts: Slots, i: nat, id: nat) {
    i < |ts| && ts[i].Some? && ts[i].value.id == id && (ts[i].value.state == Blocked || ts[i].value.state == Sleeping)
  }

  /** The slot `wake_thread` acts on. */
  function FindWakeable(ts: Slots, i: nat, id: nat): (r: Option<nat>)
    ensures r.Some? ==> i <= r.value && Wakeable(ts, r.value, id) && forall j :: i <= j < r.value ==>
      !Wakeable(ts, j, id)
    ensures r.None? ==> forall j :: i <= j < |ts| ==> !Wakeable(ts, j, id)
    decreases |ts| - i
  {
    if i >= |ts| then None else if Wakeable(ts, i, id) then Some(i) else FindWakeable(ts, i + 1, id)
  }

  /** `wake_thread`. */
  function Wake(s: Sched, id: nat): Sched {
    match FindWakeable(s.threads, 0, id)
    case None => s
    case Some(i) =>
      var ts := SetState(s.threads, i, Ready);
      s.(threads := ts, queues := Requeue(ts, s.queues, i))
  }

  /** The current thread marks itself blocked or sleeping before it calls `schedule`. */
  function BlockCurrent(s: Sched, st: ThreadState): Sched {
    if s.current.Some? then s.(threads := SetState(s.threads, s.current.value, st)) else s
  }

  /** A thread is marked dead in place; its queue entry, if any, stays behind. */
  function Kill(s: Sched, i: nat): Sched {
    s.(threads := SetState(s.threads, i, Dead))
  }

  // ----- invariant -----

  /** An entry of queue `k`: a thread of that priority which is ready, or was killed while queued. */
  predicate GoodEntry(ts: Slots, k: nat, i: nat) {
    i < |ts| && ts[i].Some? && ts[i].value.priority == k && (ts[i].value.state == Ready || ts[i].value.state == Dead)
  }

  ghost predicate QueuesOk(ts: Slots, qs: Queues) {
    && |ts| == MAX_THREADS && |qs| == PRIORITY_LEVELS
    && (forall k :: 0 <= k < |qs| ==> Distinct(qs[k]))
    && (forall k, j :: 0 <= k < |qs| && 0 <= j < |qs[k]| ==> GoodEntry(ts, k, qs[k][j]))
    && (forall i :: 0 <= i < |ts| && ts[i].Some? ==> ts[i].value.priority < |qs|)
  }

  predicate Queued(qs: Queues, i: nat) {
    exists k :: 0 <= k < |qs| && i in qs[k]
  }

  /** Every ready thread other than `cur` is in the queue of its current priority; `cur` is in none. */
  ghost predicate ReadyQueued(ts: Slots, qs: Queues, cur: Option<nat>) {
    && (forall i :: 0 <= i < |ts| && Some(i) != cur && ts[i].Some? && ts[i].value.state == Ready ==>
          ts[i].value.priority < |qs| && i in qs[ts[i].value.priority])
    && (cur.Some? ==> cur.value < |ts| && ts[cur.value].Some? && !Queued(qs, cur.value))
  }

  ghost predicate IdsDistinct(ts: Slots) {
    forall i, j :: 0 <= i < j < |ts| && ts[i].Some? && ts[j].Some? ==> ts[i].value.id != ts[j].value.id
  }

  ghost predicate Inv(s: Sched) {
    && QueuesOk(s.threads, s.queues)
    && ReadyQueued(s.threads, s.queues, s.current)
    && IdsDistinct(s.threads)
  }

  /** A queue that lacks slot `i` has room for it: no push overflows. */
  lemma RoomInQueue(ts: Slots, qs: Queues, k: nat, i: nat)
    requires QueuesOk(ts, qs) && k < |qs| && i < MAX_THREADS && i !in qs[k]
    ensures |qs[k]| < MAX_THREADS
  {
    hide Below;
    forall x | x in qs[k] ensures x in Below(MAX_THREADS) - {i} {
      var j :| 0 <= j < |qs[k]| && qs[k][j] == x;
      assert GoodEntry(ts, k, qs[k][j]);
    }
    DistinctCardinality(qs[k]);
    SubsetSize(Elements(qs[k]), Below(MAX_THREADS) - {i});
  }

  /** Queueing a ready thread that is in no queue keeps the queues sound and loses nobody. */
  lemma RequeueKeeps(ts: Slots, qs: Queues, i: nat)
    requires QueuesOk(ts, qs) && i < |ts| && ts[i].Some? && ts[i].value.state == Ready && !Queued(qs, i)
    ensures var qs' := Requeue(ts, qs, i);
      && QueuesOk(ts, qs')
      && qs' == qs[ts[i].value.priority := qs[ts[i].value.priority] + [i]]
  {
    RoomInQueue(ts, qs, ts[i].value.priority, i);
  }

  /** Level `p` is the first non-empty one. */
  predicate FirstLevel(qs: Queues, p: nat) {
    p < |qs| && qs[p] != [] && forall j :: 0 <= j < p ==> qs[j] == []
  }

  lemma PopHighestShape(qs: Queues)
    ensures PopHighest(qs, 0).None? ==> forall j :: 0 <= j < |qs| ==> qs[j] == []
    ensures PopHighest(qs, 0).Some? ==>
      exists p: nat :: FirstLevel(qs, p) && PopHighest(qs, 0).value == (qs[p][0], qs[p := qs[p][1..]])
  {
    PopHighestFrom(qs, 0);
  }

  lemma {:induction false} PopHighestFrom(qs: Queues, k: nat)
    requires k <= |qs| && forall j :: 0 <= j < k ==> qs[j] == []
    ensures PopHighest(qs, k).None? ==> forall j :: 0 <= j < |qs| ==> qs[j] == []
    ensures PopHighest(qs, k).Some? ==>
      exists p: nat :: FirstLevel(qs, p) && PopHighest(qs, k).value == (qs[p][0], qs[p := qs[p][1..]])
    decreases |qs| - k
  {
    if k < |qs| {
      if qs[k] == [] {
        PopHighestFrom(qs, k + 1);
      } else {
        assert FirstLevel(qs, k);
      }
    }
  }

  /** Dropping the head of queue `p` keeps the queues sound; the dropped slot is queued nowhere else. */
  lemma DropHead(ts: Slots, qs: Queues, p: nat)
    requires QueuesOk(ts, qs) && p < |qs| && qs[p] != []
    ensures var qs' := qs[p := qs[p][1..]]; QueuesOk(ts, qs') && !Queued(qs', qs[p][0])
  {
    var qs' := qs[p := qs[p][1..]];
    assert QueuesOk(ts, qs') by {
      forall k, j | 0 <= k < |qs'| && 0 <= j < |qs'[k]| ensures GoodEntry(ts, k, qs'[k][j]) {
        assert GoodEntry(ts, k, qs[k][if k == p then j + 1 else j]);
      }
    }
    assert GoodEntry(ts, p, qs[p][0]);
    if Queued(qs', qs[p][0]) {
      QueuedIsGood(ts, qs', qs[p][0]);
    }
  }

  /** A queued thread sits in the queue of its priority. */
  lemma QueuedIsGood(ts: Slots, qs: Queues, i: nat)
    requires QueuesOk(ts, qs) && Queued(qs, i)
    ensures i < |ts| && ts[i].Some? && GoodEntry(ts, ts[i].value.priority, i) && i in qs[ts[i].value.priority]
  {
    var k :| 0 <= k < |qs| && i in qs[k];
    var j :| 0 <= j < |qs[k]| && qs[k][j] == i;
    assert GoodEntry(ts, k, qs[k][j]);
  }

  /** Slots found dead and dropped so far, out of `MAX_THREADS` attempts with `n` left. */
  ghost predicate Dropped(ts: Slots, qs: Queues, n: nat, dead: set<nat>) {
    && |dead| + n == MAX_THREADS
    && (forall d :: d in dead ==> d < MAX_THREADS && !Alive(ts, d) && !Queued(qs, d))
  }

  /** No live thread other than the one picked leaves its queue, and no queue gains one. */
  ghost predicate Thinned(ts: Slots, qs: Queues, qs': Queues, picked: Option<nat>) {
    && |qs'| == |qs|
    && (forall k, i :: 0 <= k < |qs| && i in qs'[k] ==> i in qs[k])
    && (forall k, i :: 0 <= k < |qs| && i in qs[k] && Alive(ts, i) && Some(i) != picked ==> i in qs'[k])
  }

  /**
   * Picking the next thread never yields a dead one and yields none exactly when
   * every thread is dead; the sixteen attempts are always enough.
   */
  lemma {:induction false} PopNextCorrect(ts: Slots, qs: Queues, n: nat, dead: set<nat>)
    requires QueuesOk(ts, qs) && Dropped(ts, qs, n, dead)
    ensures var (r, qs') := PopNext(ts, qs, n);
      && QueuesOk(ts, qs') && Thinned(ts, qs, qs', r)
      && (r.None? <==> AllDead(ts))
      && (r.Some? ==> Alive(ts, r.value) && !Queued(qs', r.value))
    decreases n
  {
    hide QueuesOk, Thinned, Dropped, Queued, AllDead, Alive, PopHighest;
    if n == 0 {
      AllDropped(ts, qs, dead);
      ThinnedRefl(ts, qs);
    } else {
      PopHighestShape(qs);
      var popped := PopHighest(qs, 0);
      if popped.Some? {
        var p: nat :| FirstLevel(qs, p) && popped.value == (qs[p][0], qs[p := qs[p][1..]]);
        DropHeadThins(ts, qs, p);
        if Alive(ts, qs[p][0]) {
          SomeAlive(ts, qs[p][0]);
        } else {
          DroppedGrows(ts, qs, n, dead, p);
          PopNextCorrect(ts, popped.value.1, n - 1, dead + {qs[p][0]});
          ThinnedTrans(ts, qs, popped.value.1, PopNext(ts, qs, n).1, PopNext(ts, qs, n).0);
        }
      } else {
        NobodyQueued(ts, qs);
        ThinnedRefl(ts, qs);
      }
    }
  }

  lemma AllDropped(ts: Slots, qs: Queues, dead: set<nat>)
    requires QueuesOk(ts, qs) && Dropped(ts, qs, 0, dead)
    ensures AllDead(ts)
  {
    hide Below;
    SubsetOfSameSize(dead, Below(MAX_THREADS));
  }

  lemma SomeAlive(ts: Slots, i: nat)
    requires Alive(ts, i)
    ensures !AllDead(ts)
  {
  }

  lemma NobodyQueued(ts: Slots, qs: Queues)
    requires forall j :: 0 <= j < |qs| ==> qs[j] == []
    ensures forall i: nat :: !Queued(qs, i)
    ensures FirstAlive(ts, 0).None? <==> AllDead(ts)
    ensures FirstAlive(ts, 0).Some? ==> Alive(ts, FirstAlive(ts, 0).value)
  {
  }

  lemma ThinnedRefl(ts: Slots, qs: Queues)
    ensures forall r :: Thinned(ts, qs, qs, r)
  {
  }

  lemma ThinnedTrans(ts: Slots, a: Queues, b: Queues, c: Queues, r: Option<nat>)
    requires Thinned(ts, a, b, None) && Thinned(ts, b, c, r)
    ensures Thinned(ts, a, c, r)
  {
  }

  lemma DropHeadThins(ts: Slots, qs: Queues, p: nat)
    requires QueuesOk(ts, qs) && p < |qs| && qs[p] != []
    ensures var qs' := qs[p := qs[p][1..]];
      && QueuesOk(ts, qs') && !Queued(qs', qs[p][0])
      && Thinned(ts, qs, qs', Some(qs[p][0]))
      && (!Alive(ts, qs[p][0]) ==> Thinned(ts, qs, qs', None))
  {
    DropHead(ts, qs, p);
    assert qs[p] == [qs[p][0]] + qs[p][1..];
  }

  lemma DroppedGrows(ts: Slots, qs: Queues, n: nat, dead: set<nat>, p: nat)
    requires QueuesOk(ts, qs) && Dropped(ts, qs, n, dead) && n > 0
    requires p < |qs| && qs[p] != [] && !Alive(ts, qs[p][0])
    ensures Dropped(ts, qs[p := qs[p][1..]], n - 1, dead + {qs[p][0]})
  {
    var qs' := qs[p := qs[p][1..]];
    DropHead(ts, qs, p);
    assert GoodEntry(ts, p, qs[p][0]) && Queued(qs, qs[p][0]);
    forall d | d in dead ensures !Queued(qs', d) {
      assert !Queued(qs, d);
    }
  }

  lemma PopNextFromFull(ts: Slots, qs: Queues)
    requires QueuesOk(ts, qs)
    ensures var (r, qs') := PopNext(ts, qs, MAX_THREADS);
      && QueuesOk(ts, qs') && Thinned(ts, qs, qs', r)
      && (r.None? <==> AllDead(ts))
      && (r.Some? ==> Alive(ts, r.value) && !Queued(qs', r.value))
  {
    PopNextCorrect(ts, qs, MAX_THREADS, {});
  }

  // ----- every step keeps the invariant -----

  lemma CurrentSlot(s: Sched)
    requires Inv(s) && s.current.Some?
    ensures s.current.value < |s.threads| && s.threads[s.current.value].Some?
  {
  }

  /** A dispatch from a state in which every ready thread is queued. */
  lemma DispatchKeeps(s: Sched)
    requires QueuesOk(s.threads, s.queues) && ReadyQueued(s.threads, s.queues, None) && IdsDistinct(s.threads)
    ensures Inv(Dispatch(s))
    ensures Dispatch(s).halted != s.halted ==> AllDead(s.threads)
    ensures Dispatch(s).current.None? <==> AllDead(s.threads)
  {
    PopNextFromFull(s.threads, s.queues);
    var (r, qs) := PopNext(s.threads, s.queues, MAX_THREADS);
    if r.Some? {
      var t := s.threads[r.value].value;
      StartKeeps(s.threads, s.queues, qs, r.value, t.(state := Running, remaining := t.timeSlice));
    }
  }

  /** Making the picked thread the running one. */
  lemma StartKeeps(ts: Slots, qs: Queues, qs': Queues, i: nat, t: Thread)
    requires QueuesOk(ts, qs) && QueuesOk(ts, qs') && Thinned(ts, qs, qs', Some(i))
    requires ReadyQueued(ts, qs, None) && IdsDistinct(ts)
    requires Alive(ts, i) && !Queued(qs', i) && t.id == ts[i].value.id && t.priority == ts[i].value.priority
    ensures var ts' := SetThread(ts, i, t);
      QueuesOk(ts', qs') && ReadyQueued(ts', qs', Some(i)) && IdsDistinct(ts')
  {
    var ts' := SetThread(ts, i, t);
    forall k, j | 0 <= k < |qs'| && 0 <= j < |qs'[k]| ensures GoodEntry(ts', k, qs'[k][j]) {
      assert GoodEntry(ts, k, qs'[k][j]) && qs'[k][j] in qs'[k];
    }
    forall j: nat | j < |ts'| && j != i && ts'[j].Some? && ts'[j].value.state == Ready
      ensures ts'[j].value.priority < |qs'| && j in qs'[ts'[j].value.priority]
    {
      assert Alive(ts, j);
    }
  }

  /** Requeueing the thread that gave up the processor puts every ready thread in its queue. */
  lemma PreemptKeeps(s: Sched)
    requires Inv(s) && s.current.Some?
    ensures var c := s.current.value; var t := Account(s.threads[c].value);
      var ts := SetThread(s.threads, c, t);
      var qs := if t.state == Ready then Requeue(ts, s.queues, c) else s.queues;
      QueuesOk(ts, qs) && ReadyQueued(ts, qs, None) && IdsDistinct(ts)
  {
    var c := s.current.value;
    var t := Account(s.threads[c].value);
    var ts := SetThread(s.threads, c, t);
    assert QueuesOk(ts, s.queues) by {
      forall k, j | 0 <= k < |s.queues| && 0 <= j < |s.queues[k]| ensures GoodEntry(ts, k, s.queues[k][j]) {
        assert GoodEntry(s.threads, k, s.queues[k][j]);
        assert s.queues[k][j] in s.queues[k];
      }
    }
    if t.state == Ready {
      RequeueKeeps(ts, s.queues, c);
    }
  }

  lemma ScheduleKeeps(s: Sched)
    requires Inv(s)
    ensures Inv(Schedule(s))
  {
    if s.running && s.current.Some? {
      PreemptKeeps(s);
      var c := s.current.value;
      var t := Account(s.threads[c].value);
      var ts := SetThread(s.threads, c, t);
      DispatchKeeps(s.(threads := ts, queues := if t.state == Ready then Requeue(ts, s.queues, c) else s.queues));
    }
  }

  datatype Step =
    | AddThread(thread: Thread)
    | RunFirst
    | Reschedule
    | Block(state: ThreadState)
    | KillThread(slot: nat)
    | WakeThread(id: nat)

  /** There is a free slot, and the thread's id is new. */
  predicate Addable(s: Sched, t: Thread) {
    && EmptySlot(s.threads, 0).Some? && t.priority < PRIORITY_LEVELS
    && (forall i :: 0 <= i < |s.threads| && s.threads[i].Some? ==> s.threads[i].value.id != t.id)
  }

  /** What the callers of each operation guarantee. */
  predicate Enabled(s: Sched, e: Step) {
    match e
    case AddThread(t) => Addable(s, t)
    case RunFirst => !s.running && s.current.None?
    case Reschedule => true
    case Block(st) => st == Blocked || st == Sleeping
    case KillThread(i) => true
    case WakeThread(id) =>
      s.current.Some? && s.current.value < |s.threads| && s.threads[s.current.value].Some? ==>
        s.threads[s.current.value].value.id != id
  }

  function Next(s: Sched, e: Step): Sched
    requires Enabled(s, e)
  {
    match e
    case AddThread(t) => Add(s, t)
    case RunFirst => Run(s)
    case Reschedule => Schedule(s)
    case Block(st) => Schedule(BlockCurrent(s, st))
    case KillThread(i) => Kill(s, i)
    case WakeThread(id) => Wake(s, id)
  }

  lemma AddKeeps(s: Sched, t: Thread)
    requires Inv(s) && Addable(s, t)
    ensures Inv(Add(s, t))
  {
    var i := EmptySlot(s.threads, 0).value;
    var ts := SetThread(s.threads, i, t.(state := Ready));
    assert QueuesOk(ts, s.queues) by {
      forall k, j | 0 <= k < |s.queues| && 0 <= j < |s.queues[k]| ensures GoodEntry(ts, k, s.queues[k][j]) {
        assert GoodEntry(s.threads, k, s.queues[k][j]);
      }
    }
    NotQueued(s.threads, s.queues, i);
    RequeueKeeps(ts, s.queues, i);
  }

  /** A slot that is empty, or holds a thread neither ready nor dead, is in no queue. */
  lemma NotQueued(ts: Slots, qs: Queues, i: nat)
    requires QueuesOk(ts, qs) && i < |ts|
    requires ts[i].None? || (ts[i].value.state != Ready && ts[i].value.state != Dead)
    ensures !Queued(qs, i)
  {
    if Queued(qs, i) {
      QueuedIsGood(ts, qs, i);
    }
  }

  lemma WakeKeeps(s: Sched, id: nat)
    requires Inv(s) && Enabled(s, WakeThread(id))
    ensures Inv(Wake(s, id))
  {
    var r := FindWakeable(s.threads, 0, id);
    if r.Some? {
      var i := r.value;
      NotQueued(s.threads, s.queues, i);
      var ts := SetState(s.threads, i, Ready);
      assert QueuesOk(ts, s.queues) by {
        forall k, j | 0 <= k < |s.queues| && 0 <= j < |s.queues[k]| ensures GoodEntry(ts, k, s.queues[k][j]) {
          assert GoodEntry(s.threads, k, s.queues[k][j]);
          assert s.queues[k][j] in s.queues[k];
        }
      }
      RequeueKeeps(ts, s.queues, i);
    }
  }

  lemma SetStateKeeps(s: Sched, i: nat, st: ThreadState)
    requires Inv(s) && (st == Dead || (st != Ready && s.current == Some(i)))
    ensures Inv(s.(threads := SetState(s.threads, i, st)))
  {
    var ts := SetState(s.threads, i, st);
    forall k, j | 0 <= k < |s.queues| && 0 <= j < |s.queues[k]| ensures GoodEntry(ts, k, s.queues[k][j]) {
      assert GoodEntry(s.threads, k, s.queues[k][j]);
      assert s.queues[k][j] in s.queues[k];
    }
  }

  lemma StepKeeps(s: Sched, e: Step)
    requires Inv(s) && Enabled(s, e)
    ensures Inv(Next(s, e))
  {
    match e
    case AddThread(t) => AddKeeps(s, t);
    case RunFirst => DispatchKeeps(s.(running := true));
    case Reschedule => ScheduleKeeps(s);
    case Block(st) =>
      if s.current.Some? {
        SetStateKeeps(s, s.current.value, st);
      }
      ScheduleKeeps(BlockCurrent(s, st));
    case KillThread(i) => SetStateKeeps(s, i, Dead);
    case WakeThread(id) => WakeKeeps(s, id);
  }

  const EMPTY := Sched(seq(MAX_THREADS, _ => None), seq(PRIORITY_LEVELS, _ => []), None, false, false)

  /** `states` is a run of the scheduler that takes `steps`. */
  ghost predicate IsRun(states: seq<Sched>, steps: seq<Step>) {
    && |states| == |steps| + 1
    && forall n :: 0 <= n < |steps| ==> Enabled(states[n], steps[n]) && states[n + 1] == Next(states[n], steps[n])
  }

  /** The invariant holds in every state of every run from the empty scheduler. */
  lemma {:induction false} InvOverRuns(states: seq<Sched>, steps: seq<Step>, n: nat)
    requires IsRun(states, steps) && states[0] == EMPTY && n < |states|
    ensures Inv(states[n])
  {
    if n > 0 {
      InvOverRuns(states, steps, n - 1);
      StepKeeps(states[n - 1], steps[n - 1]);
    }
  }

  // ----- what a scheduling step does to sleeping threads -----

  /** With a live thread queued, the one picked was ready. */
  lemma {:induction false} PopNextReady(ts: Slots, qs: Queues, n: nat, dead: set<nat>, p: nat, k: nat)
    requires QueuesOk(ts, qs) && Dropped(ts, qs, n, dead)
    requires p < |qs| && k < |qs[p]| && Alive(ts, qs[p][k])
    ensures var r := PopNext(ts, qs, n).0;
      r.Some? && r.value < |ts| && ts[r.value].Some? && ts[r.value].value.state == Ready
    decreases n
  {
    if n == 0 {
      AllDropped(ts, qs, dead);
    } else {
      PopHighestShape(qs);
      var popped := PopHighest(qs, 0);
      var q: nat :| FirstLevel(qs, q) && popped.value == (qs[q][0], qs[q := qs[q][1..]]);
      assert GoodEntry(ts, q, qs[q][0]);
      if !Alive(ts, qs[q][0]) {
        DropHead(ts, qs, q);
        DroppedGrows(ts, qs, n, dead, q);
        PopNextReady(ts, popped.value.1, n - 1, dead + {qs[q][0]}, p, if q == p then k - 1 else k);
      }
    }
  }

  /** Some thread other than the current one is ready. */
  predicate OtherReady(s: Sched) {
    exists i :: 0 <= i < |s.threads| && ReadyAt(s, i)
  }

  predicate ReadyAt(s: Sched, i: nat) {
    i < |s.threads| && s.threads[i].Some? && s.threads[i].value.state == Ready && s.current != Some(i)
  }

  /** The thread record changes neither identity nor, when asleep or dead, its state. */
  predicate SleepKept(t: Option<Thread>, t': Option<Thread>) {
    && (t.Some? <==> t'.Some?)
    && (t.Some? ==> t'.value.id == t.value.id)
    && (t.Some? && (t.value.state == Blocked || t.value.state == Sleeping || t.value.state == Dead)
        ==> t'.value.state == t.value.state)
  }

  ghost predicate NobodyWoken(s: Sched, s': Sched) {
    && s'.running == s.running && s'.current.Some? && s'.current.value < |s'.threads|
    && s'.threads[s'.current.value].Some?
    && s'.threads[s'.current.value].value.state == Running
    && |s'.threads| == |s.threads|
    && forall i: nat :: i < |s.threads| ==> SleepKept(s.threads[i], s'.threads[i])
  }

  lemma DispatchWakesNobody(s: Sched, p: nat, k: nat)
    requires QueuesOk(s.threads, s.queues) && p < |s.queues| && k < |s.queues[p]| && Alive(s.threads, s.queues[p][k])
    ensures NobodyWoken(s, Dispatch(s))
  {
    PopNextReady(s.threads, s.queues, MAX_THREADS, {}, p, k);
  }

  /** While somebody is ready, scheduling wakes no sleeper and ends with a running current thread. */
  lemma ScheduleWakesNobody(s: Sched)
    requires Inv(s) && s.running && s.current.Some?
    requires OtherReady(s) || s.threads[s.current.value].value.state == Running
    ensures NobodyWoken(s, Schedule(s))
  {
    hide Dispatch, Inv, QueuesOk, ReadyQueued, IdsDistinct, Requeue;
    CurrentSlot(s);
    PreemptKeeps(s);
    var c := s.current.value;
    var t := Account(s.threads[c].value);
    var ts := SetThread(s.threads, c, t);
    var qs := if t.state == Ready then Requeue(ts, s.queues, c) else s.queues;
    var s1 := s.(threads := ts, queues := qs);
    var i: nat;
    if s.threads[c].value.state == Running {
      i := c;
    } else {
      i :| 0 <= i < |s.threads| && ReadyAt(s, i);
    }
    var p, k := QueuePlace(ts, qs, i);
    DispatchWakesNobody(s1, p, k);
    forall j: nat | j < |s.threads| ensures SleepKept(s.threads[j], Schedule(s).threads[j]) {
      assert SleepKept(s1.threads[j], Dispatch(s1).threads[j]);
    }
  }

  lemma QueuePlace(ts: Slots, qs: Queues, i: nat) returns (p: nat, k: nat)
    requires QueuesOk(ts, qs) && ReadyQueued(ts, qs, None) && i < |ts| && ts[i].Some? && ts[i].value.state == Ready
    ensures p < |qs| && k < |qs[p]| && qs[p][k] == i && Alive(ts, i)
  {
    p := ts[i].value.priority;
    assert i in qs[p];
    k :| 0 <= k < |qs[p]| && qs[p][k] == i;
  }
}
