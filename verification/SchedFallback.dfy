/**
 * When scheduling runs a thread that nobody made ready: the fallback scan of
 * `pop_next_from_all_queues` (kernel/src/task/scheduler.rs) as an exact condition.
 */
module SchedFallback {
  import opened Common
  import opened SchedSpec

  /** Ready or running. */
  predicate Awake(s: Sched, i: nat) {
    i < |s.threads| && s.threads[i].Some? && (s.threads[i].value.state == Ready || s.threads[i].value.state == Running)
  }

  /** Scheduling makes a thread current that was neither ready nor running. */
  predicate RunsSleeper(s: Sched) {
    Schedule(s).current.Some? && !Awake(s, Schedule(s).current.value)
  }

  predicate RunsAt(s: Sched, i: nat) {
    i < |s.threads| && s.threads[i].Some? && s.threads[i].value.state == Running
  }

  /** Only the current thread is marked running. */
  ghost predicate OneRunning(s: Sched) {
    forall i: nat :: RunsAt(s, i) ==> s.current == Some(i)
  }

  // ----- only the current thread runs, over every run -----

  lemma DispatchKeepsOneRunning(s: Sched)
    requires QueuesOk(s.threads, s.queues) && (forall i: nat :: !RunsAt(s, i))
    ensures OneRunning(Dispatch(s))
  {
    PopNextFromFull(s.threads, s.queues);
    forall i: nat | RunsAt(Dispatch(s), i) ensures Dispatch(s).current == Some(i) {
      assert !RunsAt(s, i);
    }
  }

  lemma ScheduleKeepsOneRunning(s: Sched)
    requires Inv(s) && OneRunning(s)
    ensures OneRunning(Schedule(s))
  {
    hide Dispatch;
    if s.running && s.current.Some? {
      CurrentSlot(s);
      PreemptKeeps(s);
      var c := s.current.value;
      var t := Account(s.threads[c].value);
      var ts := SetThread(s.threads, c, t);
      var s1 := s.(threads := ts, queues := if t.state == Ready then Requeue(ts, s.queues, c) else s.queues);
      forall i: nat ensures !RunsAt(s1, i) {
        assert i != c && RunsAt(s1, i) ==> RunsAt(s, i);
      }
      DispatchKeepsOneRunning(s1);
    }
  }

  lemma StepKeepsOneRunning(s: Sched, e: Step)
    requires Inv(s) && OneRunning(s) && Enabled(s, e)
    ensures OneRunning(Next(s, e))
  {
    hide Schedule, Dispatch;
    var s' := Next(s, e);
    match e
    case RunFirst =>
      forall i: nat ensures !RunsAt(s.(running := true), i) {
        assert !RunsAt(s, i);
      }
      DispatchKeepsOneRunning(s.(running := true));
    case Reschedule => ScheduleKeepsOneRunning(s);
    case Block(st) =>
      var s1 := BlockCurrent(s, st);
      if s.current.Some? {
        SetStateKeeps(s, s.current.value, st);
      }
      forall i: nat | RunsAt(s1, i) ensures s1.current == Some(i) {
        assert RunsAt(s, i);
      }
      ScheduleKeepsOneRunning(s1);
    case AddThread(t) =>
      forall i: nat | RunsAt(s', i) ensures s'.current == Some(i) {
        assert RunsAt(s, i);
      }
    case KillThread(k) =>
      forall i: nat | RunsAt(s', i) ensures s'.current == Some(i) {
        assert RunsAt(s, i);
      }
    case WakeThread(id) =>
      forall i: nat | RunsAt(s', i) ensures s'.current == Some(i) {
        assert RunsAt(s, i);
      }
  }

  lemma {:induction false} OneRunningOverRuns(states: seq<Sched>, steps: seq<Step>, n: nat)
    requires IsRun(states, steps) && states[0] == EMPTY && n < |states|
    ensures Inv(states[n]) && OneRunning(states[n])
  {
    InvOverRuns(states, steps, n);
    if n > 0 {
      OneRunningOverRuns(states, steps, n - 1);
      StepKeepsOneRunning(states[n - 1], steps[n - 1]);
    }
  }

  // ----- the fallback scan -----

  ghost predicate NobodyAliveQueued(ts: Slots, qs: Queues) {
    forall p, k :: 0 <= p < |qs| && 0 <= k < |qs[p]| ==> !Alive(ts, qs[p][k])
  }

  /** With nobody alive queued, the pick is the lowest live slot, whatever its state. */
  lemma {:induction false} PopNextScans(ts: Slots, qs: Queues, n: nat, dead: set<nat>)
    requires QueuesOk(ts, qs) && Dropped(ts, qs, n, dead) && NobodyAliveQueued(ts, qs)
    ensures PopNext(ts, qs, n).0 == FirstAlive(ts, 0)
    decreases n
  {
    hide Dropped;
    if n == 0 {
      AllDropped(ts, qs, dead);
    } else {
      PopHighestShape(qs);
      var popped := PopHighest(qs, 0);
      if popped.Some? {
        var q: nat :| FirstLevel(qs, q) && popped.value == (qs[q][0], qs[q := qs[q][1..]]);
        var rest := qs[q := qs[q][1..]];
        DropHead(ts, qs, q);
        DroppedGrows(ts, qs, n, dead, q);
        forall p, k | 0 <= p < |rest| && 0 <= k < |rest[p]| ensures !Alive(ts, rest[p][k]) {
          assert rest[p][k] == qs[p][if p == q then k + 1 else k];
        }
        PopNextScans(ts, rest, n - 1, dead + {qs[q][0]});
      }
    }
  }

  /** Nobody else ready, and the current thread gave up the processor for good: nobody alive is queued. */
  lemma NobodyLeft(s: Sched)
    requires Inv(s) && s.current.Some? && !OtherReady(s)
    ensures NobodyAliveQueued(s.threads, s.queues)
  {
    forall p, k | 0 <= p < |s.queues| && 0 <= k < |s.queues[p]| ensures !Alive(s.threads, s.queues[p][k]) {
      assert GoodEntry(s.threads, p, s.queues[p][k]);
      assert s.queues[p][k] in s.queues[p];
      assert Queued(s.queues, s.queues[p][k]);
      assert !ReadyAt(s, s.queues[p][k]);
    }
  }

  lemma SameAliveSameFirst(ts: Slots, us: Slots, i: nat)
    requires |ts| == |us| && forall j: nat :: Alive(ts, j) <==> Alive(us, j)
    ensures FirstAlive(ts, i) == FirstAlive(us, i)
  {
    var a, b := FirstAlive(ts, i), FirstAlive(us, i);
    if a.Some? {
      assert Alive(us, a.value);
    }
    if b.Some? {
      assert Alive(ts, b.value);
    }
  }

  /** Without anybody ready or running, scheduling dispatches the lowest live slot. */
  lemma FallbackDispatch(s: Sched)
    requires Inv(s) && s.running && s.current.Some? && !OtherReady(s) && !Awake(s, s.current.value)
    ensures Schedule(s).current == FirstAlive(s.threads, 0)
  {
    hide QueuesOk, ReadyQueued;
    CurrentSlot(s);
    var c := s.current.value;
    var ts := SetThread(s.threads, c, Account(s.threads[c].value));
    PreemptKeeps(s);
    NobodyLeft(s);
    forall j: nat ensures Alive(ts, j) <==> Alive(s.threads, j) {
    }
    PopNextScans(ts, s.queues, MAX_THREADS, {});
    SameAliveSameFirst(ts, s.threads, 0);
  }

  /** With somebody ready or running, the thread dispatched was ready or running. */
  lemma AwakeDispatch(s: Sched)
    requires Inv(s) && s.running && s.current.Some? && (OtherReady(s) || Awake(s, s.current.value))
    ensures Schedule(s).current.Some? && Awake(s, Schedule(s).current.value)
  {
    hide QueuesOk, ReadyQueued, Requeue, PopNext;
    CurrentSlot(s);
    PreemptKeeps(s);
    var c := s.current.value;
    var t := Account(s.threads[c].value);
    var ts := SetThread(s.threads, c, t);
    var qs := if t.state == Ready then Requeue(ts, s.queues, c) else s.queues;
    var i: nat;
    if Awake(s, c) {
      i := c;
    } else {
      i :| 0 <= i < |s.threads| && ReadyAt(s, i);
    }
    var p, k := QueuePlace(ts, qs, i);
    PopNextReady(ts, qs, MAX_THREADS, {}, p, k);
  }

  /**
   * Exactly when scheduling runs a thread that nobody made ready: no other thread is ready, the
   * current one is neither running nor ready, and somebody is alive.  It is then the lowest live slot.
   */
  lemma RunsSleeperIff(s: Sched)
    requires Inv(s) && OneRunning(s) && s.running && s.current.Some?
    ensures RunsSleeper(s) <==> !OtherReady(s) && !Awake(s, s.current.value) && !AllDead(s.threads)
    ensures RunsSleeper(s) ==> Schedule(s).current == FirstAlive(s.threads, 0)
  {
    hide Schedule, Inv;
    if OtherReady(s) || Awake(s, s.current.value) {
      AwakeDispatch(s);
    } else {
      FallbackDispatch(s);
      var f := FirstAlive(s.threads, 0);
      if f.Some? {
        assert RunsAt(s, f.value) ==> s.current == f;
        assert !ReadyAt(s, f.value);
      }
    }
  }

  /** Two blocked threads, the second current. */
  const TWO_ASLEEP := Sched([Some(Thread(0, Blocked, 2, 5, 5)),
    Some(Thread(1, Blocked, 2, 5, 5))] + seq(MAX_THREADS - 2, _ => None),
                            seq(PRIORITY_LEVELS, _ => []), Some(1), true, false)

  /** Scheduling runs the first, which nobody woke. */
  lemma TwoSleepersExample()
    ensures Inv(TWO_ASLEEP) && OneRunning(TWO_ASLEEP) && RunsSleeper(TWO_ASLEEP)
      && Schedule(TWO_ASLEEP).current == Some(0)
  {
    hide Schedule;
    assert Alive(TWO_ASLEEP.threads, 0);
    RunsSleeperIff(TWO_ASLEEP);
  }
}
