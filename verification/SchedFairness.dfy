/**
 * Bounded waiting: a live thread at position `k` of queue `p` is dispatched by the
 * `k + 1`-st scheduling step, as long as no thread of a higher-priority level runs
 * or becomes ready (kernel/src/task/scheduler.rs:31-42, 158-205, 235-277).
 */
module SchedFairness {
  import opened Common
  import opened SchedSpec

  predicate Waiting(s: Sched, p: nat, k: nat, x: nat) {
    p < |s.queues| && k < |s.queues[p]| && s.queues[p][k] == x && Alive(s.threads, x)
  }

  /** No live thread is queued above level `p`. */
  predicate NoneAbove(ts: Slots, qs: Queues, p: nat) {
    forall j, m :: 0 <= j < p && j < |qs| && 0 <= m < |qs[j]| ==> !Alive(ts, qs[j][m])
  }

  predicate Calm(s: Sched, p: nat) {
    && s.running && s.current.Some? && s.current.value < |s.threads|
    && s.threads[s.current.value].Some? && s.threads[s.current.value].value.priority >= p
    && NoneAbove(s.threads, s.queues, p)
  }

  /** Steps that neither kill `x` nor make a thread above level `p` ready. */
  predicate CalmStep(s: Sched, e: Step, p: nat, x: nat) {
    && Enabled(s, e)
    && match e
       case AddThread(t) => t.priority >= p
       case RunFirst => false
       case Reschedule => true
       case Block(st) => true
       case KillThread(i) => i != x
       case WakeThread(id) =>
         var r := FindWakeable(s.threads, 0, id);
         r.Some? ==> s.threads[r.value].value.priority >= p
  }

  function Cost(e: Step): nat {
    if e.Reschedule? || e.Block? then 1 else 0
  }

  /** `x` is at position `k` of queue `p` with `n` attempts left. */
  lemma {:induction false} PopNextFirst(ts: Slots, qs: Queues, n: nat, dead: set<nat>, p: nat, k: nat, x: nat)
    requires QueuesOk(ts, qs) && Dropped(ts, qs, n, dead)
    requires p < |qs| && k < |qs[p]| && qs[p][k] == x && Alive(ts, x) && NoneAbove(ts, qs, p)
    ensures var (r, qs') := PopNext(ts, qs, n);
      && r.Some? && r.value in qs[p] && |qs'| == |qs| && NoneAbove(ts, qs', p)
      && (r.value == x || exists k' :: 0 <= k' < k && k' < |qs'[p]| && qs'[p][k'] == x)
    decreases n
  {
    hide Dropped, FirstAlive;
    if n == 0 {
      PopNextCorrect(ts, qs, n, dead);
    } else {
      PopHighestShape(qs);
      var popped := PopHighest(qs, 0);
      var q: nat :| FirstLevel(qs, q) && popped.value == (qs[q][0], qs[q := qs[q][1..]]);
      var i, qs' := qs[q][0], qs[q := qs[q][1..]];
      DropHeadThins(ts, qs, q);
      assert forall j, m :: 0 <= j < |qs| && 0 <= m < |qs'[j]| ==> qs'[j][m] == qs[j][if j == q then m + 1 else m];
      if Alive(ts, i) {
        if i != x {
          assert qs'[p][k - 1] == x;
        }
      } else {
        DroppedGrows(ts, qs, n, dead, q);
        var k1 := if q == p then k - 1 else k;
        PopNextFirst(ts, qs', n - 1, dead + {i}, p, k1, x);
      }
    }
  }

  /** A dispatch either picks `x` or brings it one place forward. */
  lemma DispatchProgress(s: Sched, p: nat, k: nat, x: nat)
    requires QueuesOk(s.threads, s.queues) && ReadyQueued(s.threads, s.queues, None) && IdsDistinct(s.threads)
    requires s.running && Waiting(s, p, k, x) && NoneAbove(s.threads, s.queues, p)
    ensures var s' := Dispatch(s);
      && Calm(s', p)
      && (s'.current == Some(x) || exists k': nat :: Waiting(s', p, k', x) && k' < k)
  {
    PopNextFirst(s.threads, s.queues, MAX_THREADS, {}, p, k, x);
    PopNextFromFull(s.threads, s.queues);
    var (r, qs) := PopNext(s.threads, s.queues, MAX_THREADS);
    var j :| 0 <= j < |s.queues[p]| && s.queues[p][j] == r.value;
    assert GoodEntry(s.threads, p, s.queues[p][j]);
    var s' := Dispatch(s);
    if r.value != x {
      var k' :| 0 <= k' < k && k' < |qs[p]| && qs[p][k'] == x;
      assert Waiting(s', p, k', x);
    }
    forall a, m | 0 <= a < p && a < |qs| && 0 <= m < |qs[a]| ensures !Alive(s'.threads, qs[a][m]) {
      assert !Alive(s.threads, qs[a][m]);
    }
  }

  lemma ScheduleProgress(s: Sched, p: nat, k: nat, x: nat)
    requires Inv(s) && Calm(s, p) && Waiting(s, p, k, x)
    ensures var s' := Schedule(s);
      && Calm(s', p)
      && (s'.current == Some(x) || exists k': nat :: Waiting(s', p, k', x) && k' < k)
  {
    PreemptKeeps(s);
    var c := s.current.value;
    var t := Account(s.threads[c].value);
    var ts := SetThread(s.threads, c, t);
    var qs := if t.state == Ready then Requeue(ts, s.queues, c) else s.queues;
    assert s.queues[p][k] in s.queues[p] && x != c;
    assert t.priority >= p;
    var s1 := s.(threads := ts, queues := qs);
    assert Waiting(s1, p, k, x);
    assert NoneAbove(ts, qs, p) by {
      forall j, m | 0 <= j < p && j < |qs| && 0 <= m < |qs[j]| ensures !Alive(ts, qs[j][m]) {
        assert qs[j][m] == s.queues[j][m] && s.queues[j][m] in s.queues[j];
      }
    }
    DispatchProgress(s1, p, k, x);
  }

  /** Queueing a thread at level `p` or below leaves `x` where it is. */
  lemma EnqueueKeeps(s: Sched, p: nat, k: nat, x: nat, ts: Slots, i: nat)
    requires Inv(s) && Calm(s, p) && Waiting(s, p, k, x) && |ts| == |s.threads|
    requires i < |ts| && ts[i].Some? && ts[i].value.priority >= p && !Queued(s.queues, i) && s.current != Some(i)
    requires forall j :: 0 <= j < |ts| && j != i ==> ts[j] == s.threads[j]
    ensures var s' := s.(threads := ts, queues := Requeue(ts, s.queues, i));
      Calm(s', p) && Waiting(s', p, k, x)
  {
    var qs := Requeue(ts, s.queues, i);
    assert s.queues[p][k] in s.queues[p];
    forall j, m | 0 <= j < p && j < |qs| && 0 <= m < |qs[j]| ensures !Alive(ts, qs[j][m]) {
      assert qs[j][m] == s.queues[j][m] && s.queues[j][m] in s.queues[j];
      assert !Alive(s.threads, s.queues[j][m]);
    }
  }

  /** No calm step moves `x` back, and every scheduling step moves it forward. */
  lemma StepProgress(s: Sched, e: Step, p: nat, k: nat, x: nat)
    requires Inv(s) && Calm(s, p) && Waiting(s, p, k, x) && CalmStep(s, e, p, x)
    ensures var s' := Next(s, e);
      && Calm(s', p)
      && (s'.current == Some(x) || exists k': nat :: Waiting(s', p, k', x) && k' + Cost(e) <= k)
  {
    match e
    case AddThread(t) =>
      var i := EmptySlot(s.threads, 0).value;
      NotQueued(s.threads, s.queues, i);
      EnqueueKeeps(s, p, k, x, SetThread(s.threads, i, t.(state := Ready)), i);
      assert Waiting(Next(s, e), p, k, x);
    case Reschedule =>
      ScheduleProgress(s, p, k, x);
    case Block(st) =>
      SetStateKeeps(s, s.current.value, st);
      var b := BlockCurrent(s, st);
      assert s.queues[p][k] in s.queues[p];
      assert Waiting(b, p, k, x) && NoneAbove(b.threads, b.queues, p);
      ScheduleProgress(b, p, k, x);
    case KillThread(i) =>
      assert Waiting(Next(s, e), p, k, x);
    case WakeThread(id) =>
      var r := FindWakeable(s.threads, 0, id);
      if r.Some? {
        NotQueued(s.threads, s.queues, r.value);
        EnqueueKeeps(s, p, k, x, SetState(s.threads, r.value, Ready), r.value);
      }
      assert Waiting(Next(s, e), p, k, x);
  }

  function Schedules(steps: seq<Step>): nat {
    if steps == [] then 0 else Cost(steps[0]) + Schedules(steps[1..])
  }

  /** Within `k + 1` scheduling steps of a calm run, `x` becomes the current thread. */
  lemma {:induction false} BoundedWaiting(states: seq<Sched>, steps: seq<Step>, p: nat, k: nat, x: nat)
    requires IsRun(states, steps) && Inv(states[0]) && Calm(states[0], p) && Waiting(states[0], p, k, x)
    requires forall n :: 0 <= n < |steps| ==> CalmStep(states[n], steps[n], p, x)
    requires Schedules(steps) > k
    ensures exists n :: 0 < n < |states| && states[n].current == Some(x)
    decreases |steps|
  {
    StepProgress(states[0], steps[0], p, k, x);
    StepKeeps(states[0], steps[0]);
    var s1 := states[1];
    if s1.current != Some(x) {
      var k': nat :| Waiting(s1, p, k', x) && k' + Cost(steps[0]) <= k;
      BoundedWaiting(states[1..], steps[1..], p, k', x);
      var n :| 0 < n < |states[1..]| && states[1..][n].current == Some(x);
      assert states[n + 1].current == Some(x);
    }
  }
}
