/**
 * What each scheduler operation does to the thread records and the queues, slot by slot
 * (kernel/src/task/scheduler.rs, kernel/src/task/thread.rs).
 */
module SchedEffects {
  import opened Common
  import opened SchedSpec

  predicate Asleep(t: Thread) {
    t.state == Blocked || t.state == Sleeping
  }

  /**
   * Waking the sleeper in slot `i`: its record becomes ready, its slot goes to the back of the queue of
   * its priority, and nothing else changes.  Identifiers are distinct, so no other slot qualifies.
   */
  lemma WakeWakes(s: Sched, i: nat)
    requires Inv(s) && i < |s.threads| && s.threads[i].Some? && Asleep(s.threads[i].value)
    ensures var t := s.threads[i].value;
      && t.priority < |s.queues|
      && Wake(s, t.id) == s.(threads := s.threads[i := Some(t.(state := Ready))],
                             queues := s.queues[t.priority := s.queues[t.priority] + [i]])
  {
    var t := s.threads[i].value;
    assert Wakeable(s.threads, i, t.id);
    NotQueued(s.threads, s.queues, i);
    RoomInQueue(s.threads, s.queues, t.priority, i);
  }

  /** Without a sleeper of that identifier nothing changes. */
  lemma WakeNobody(s: Sched, id: nat)
    requires forall i :: 0 <= i < |s.threads| && s.threads[i].Some? && s.threads[i].value.id == id ==>
      !Asleep(s.threads[i].value)
    ensures Wake(s, id) == s
  {
  }

  /** A new thread is ready in the lowest empty slot and last in the queue of its priority. */
  lemma AddAdds(s: Sched, t: Thread, i: nat)
    requires Inv(s) && Addable(s, t)
    requires i < |s.threads| && s.threads[i].None? && forall j :: 0 <= j < i ==> s.threads[j].Some?
    ensures t.priority < |s.queues|
    ensures Add(s, t) == s.(threads := s.threads[i := Some(t.(state := Ready))],
                            queues := s.queues[t.priority := s.queues[t.priority] + [i]])
  {
    assert EmptySlot(s.threads, 0) == Some(i);
    NotQueued(s.threads, s.queues, i);
    RoomInQueue(s.threads, s.queues, t.priority, i);
  }

  /** The current thread's state is set, and nothing else. */
  lemma BlockBlocks(s: Sched, st: ThreadState)
    requires s.current.Some? && s.current.value < |s.threads| && s.threads[s.current.value].Some?
    ensures var c := s.current.value;
      BlockCurrent(s, st) == s.(threads := s.threads[c := Some(s.threads[c].value.(state := st))])
  {
  }

  /** The thread in slot `i` is marked dead, and nothing else. */
  lemma KillKills(s: Sched, i: nat)
    requires i < |s.threads| && s.threads[i].Some?
    ensures Kill(s, i) == s.(threads := s.threads[i := Some(s.threads[i].value.(state := Dead))])
  {
  }

  // ----- what a turn costs -----

  /** The level below, level by level: realtime, high and normal sink, low and idle stay. */
  predicate OneBelow(p: nat, p': nat) {
    || (p == 0 && p' == 1) || (p == 1 && p' == 2) || (p == 2 && p' == 3) || (p == 3 && p' == 3)
    || (p >= 4 && p' == p)
  }

  /** What giving up the processor costs: a tick, and at the last one a priority level and a new slice. */
  ghost predicate Charged(t: Thread, t': Thread) {
    && t'.id == t.id && t'.timeSlice == t.timeSlice
    && t'.state == (if t.state == Running then Ready else t.state)
    && (t.remaining >= 2 ==> t'.priority == t.priority && t'.remaining == t.remaining - 1)
    && (t.remaining <= 1 ==> OneBelow(t.priority, t'.priority) && t'.remaining == t.timeSlice)
  }

  /** The records after `schedule`: the old thread charged, the new one running with a full slice, the others kept. */
  lemma ScheduleRecords(s: Sched)
    requires Inv(s) && s.running && s.current.Some?
    ensures var c := s.current.value; var s' := Schedule(s);
      && c < |s.threads| == |s'.threads| && s.threads[c].Some? && s'.threads[c].Some?
      && (s'.current != Some(c) ==> Charged(s.threads[c].value, s'.threads[c].value))
      && (forall i :: 0 <= i < |s.threads| && i != c && s'.current != Some(i) ==> s'.threads[i] == s.threads[i])
  {
    hide PopNext;
    CurrentSlot(s);
  }

  /** The thread dispatched runs with a full slice, at the priority it was charged down to if it just ran. */
  lemma DispatchRecord(s: Sched)
    requires Inv(s) && s.running && s.current.Some? && Schedule(s).current.Some?
    ensures var c, n := s.current.value, Schedule(s).current.value;
      && c < |s.threads| && s.threads[c].Some?
      && n < |s.threads| == |Schedule(s).threads| && s.threads[n].Some? && Schedule(s).threads[n].Some?
      && var t, t' := s.threads[n].value, Schedule(s).threads[n].value;
         && t'.state == Running && t'.remaining == t.timeSlice && t'.timeSlice == t.timeSlice && t'.id == t.id
         && (n != c ==> t'.priority == t.priority)
         && (n == c && t.remaining >= 2 ==> t'.priority == t.priority)
         && (n == c && t.remaining <= 1 ==> OneBelow(t.priority, t'.priority))
  {
    hide PopNext, QueuesOk, ReadyQueued;
    CurrentSlot(s);
    PreemptKeeps(s);
    var c := s.current.value;
    var t := Account(s.threads[c].value);
    var ts := SetThread(s.threads, c, t);
    var qs := if t.state == Ready then Requeue(ts, s.queues, c) else s.queues;
    PopNextFromFull(ts, qs);
    assert Schedule(s) == Dispatch(s.(threads := ts, queues := qs));
    assert Schedule(s).current == PopNext(ts, qs, MAX_THREADS).0;
  }

  /** A thread that gives up the processor while ready goes to the back of the queue it was charged down to. */
  lemma PreemptedIsLast(s: Sched)
    requires Inv(s) && s.running && s.current.Some? && Schedule(s).current != s.current
    requires s.current.value < |s.threads| && s.threads[s.current.value].Some?
    requires s.threads[s.current.value].value.state == Running
    ensures var c := s.current.value; var s' := Schedule(s);
      && c < |s'.threads| && s'.threads[c].Some? && s'.threads[c].value.priority < |s'.queues|
      && var q := s'.queues[s'.threads[c].value.priority];
         q != [] && q[|q| - 1] == c
  {
    hide PopNext, QueuesOk, ReadyQueued;
    PreemptKeeps(s);
    var c := s.current.value;
    var t := Account(s.threads[c].value);
    var ts := SetThread(s.threads, c, t);
    PreemptedQueue(s, ts, t);
    PopNextLast(ts, Requeue(ts, s.queues, c), MAX_THREADS, t.priority, c);
  }

  lemma PreemptedQueue(s: Sched, ts: Slots, t: Thread)
    requires Inv(s) && s.current.Some? && s.current.value < |s.threads| && s.threads[s.current.value].Some?
    requires t == Account(s.threads[s.current.value].value) && t.state == Ready
    requires ts == SetThread(s.threads, s.current.value, t)
    ensures var c := s.current.value; var qs := Requeue(ts, s.queues, c);
      QueuesOk(ts, qs) && t.priority < |qs| && qs[t.priority] == s.queues[t.priority] + [c] && Alive(ts, c)
  {
    PreemptKeeps(s);
    RoomInQueue(s.threads, s.queues, t.priority, s.current.value);
  }

  /** Taking threads off the front leaves the last live one last, unless it is the one taken. */
  lemma {:induction false} PopNextLast(ts: Slots, qs: Queues, n: nat, p: nat, c: nat)
    requires QueuesOk(ts, qs) && p < |qs| && qs[p] != [] && qs[p][|qs[p]| - 1] == c && Alive(ts, c)
    ensures var (r, qs') := PopNext(ts, qs, n);
      |qs'| == |qs| && (r != Some(c) ==> qs'[p] != [] && qs'[p][|qs'[p]| - 1] == c)
    decreases n
  {
    if n > 0 {
      PopHighestShape(qs);
      var popped := PopHighest(qs, 0);
      if popped.Some? {
        var q: nat :| FirstLevel(qs, q) && popped.value == (qs[q][0], qs[q := qs[q][1..]]);
        if !Alive(ts, qs[q][0]) {
          DropHead(ts, qs, q);
          PopNextLast(ts, qs[q := qs[q][1..]], n - 1, p, c);
        }
      }
    }
  }
}
