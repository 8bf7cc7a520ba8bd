/**
 * The scheduler's arrays and loops (kernel/src/task/scheduler.rs), each method
 * proved against the corresponding function of `SchedSpec`.
 */
module Scheduler {
  import opened Common
  import S = SchedSpec

  /** `ThreadQueue`: a shifted array of thread slots. */
  class ThreadQueue {
    const items: array<Option<nat>>
    var count: nat

    ghost predicate Valid()
      reads this, items
    {
      && items.Length == S.MAX_THREADS && count <= S.MAX_THREADS
      && forall i :: 0 <= i < count ==> items[i].Some?
    }

    ghost function Contents(): seq<nat>
      requires Valid()
      reads this, items
    {
      seq(count, i requires 0 <= i < count && Valid() reads this, items => items[i].value)
    }

    constructor ()
      ensures Valid() && Contents() == [] && fresh(items)
    {
      items := new Option<nat>[S.MAX_THREADS](_ => None);
      count := 0;
    }

    method Push(i: nat) returns (ok: bool)
      requires Valid()
      modifies this, items
      ensures Valid() && Contents() == S.Push(old(Contents()), i)
      ensures ok <==> old(count) < S.MAX_THREADS
    {
      if count >= S.MAX_THREADS {
        return false;
      }
      items[count] := Some(i);
      count := count + 1;
      return true;
    }

    /** `pop_highest_priority`: takes the head and shifts the rest left. */
    method Pop() returns (r: Option<nat>)
      requires Valid()
      modifies this, items
      ensures Valid()
      ensures old(Contents()) == [] ==> r == None && Contents() == []
      ensures old(Contents()) != [] ==> r == Some(old(Contents())[0]) && Contents() == old(Contents())[1..]
    {
      if count == 0 {
        return None;
      }
      r := items[0];
      for i := 1 to count
        invariant count == old(count)
        invariant forall j :: 0 <= j < i - 1 ==> items[j] == old(items[j + 1])
        invariant forall j :: i - 1 <= j < count ==> items[j] == old(items[j])
      {
        items[i - 1] := items[i];
      }
      count := count - 1;
      items[count] := None;
    }
  }

  class Scheduler {
    const threads: array<Option<S.Thread>>
    const queues: seq<ThreadQueue>
    var current: Option<nat>
    var running: bool
    var halted: bool

    ghost predicate Valid()
      reads Objects()
    {
      && threads.Length == S.MAX_THREADS && |queues| == S.PRIORITY_LEVELS
      && (forall k :: 0 <= k < |queues| ==> queues[k].Valid())
      && (forall j, k :: 0 <= j < k < |queues| ==> queues[j] != queues[k] && queues[j].items != queues[k].items)
      && (forall i :: 0 <= i < threads.Length && threads[i].Some? ==> threads[i].value.priority < S.PRIORITY_LEVELS)
    }

    /** Everything the scheduler writes to. */
    ghost function Objects(): set<object> {
      {this, threads} + (set q | q in queues) + (set q | q in queues :: q.items)
    }

    ghost function QueueView(): S.Queues
      requires Valid()
      reads Objects()
    {
      seq(|queues|, k requires 0 <= k < |queues| && Valid()
                      reads Objects() => queues[k].Contents())
    }

    ghost function View(): S.Sched
      requires Valid()
      reads Objects()
    {
      S.Sched(threads[..], QueueView(), current, running, halted)
    }

    /** `requeue_current`. */
    method Requeue(i: nat)
      requires Valid() && i < S.MAX_THREADS
      modifies set q | q in queues, set q | q in queues :: q.items
      ensures Valid() && QueueView() == S.Requeue(threads[..], old(QueueView()), i)
      ensures threads[..] == old(threads[..])
    {
      if threads[i].Some? {
        var q := queues[threads[i].value.priority];
        var ok := q.Push(i);
      }
    }

    constructor ()
      ensures Valid() && View() == S.EMPTY && fresh(Objects())
    {
      threads := new Option<S.Thread>[S.MAX_THREADS](_ => None);
      var qs := NewQueues();
      queues := qs;
      current, running, halted := None, false, false;
      new;
      assert threads[..] == S.EMPTY.threads;
      assert QueueView() == S.EMPTY.queues;
    }

    static method NewQueues() returns (qs: seq<ThreadQueue>)
      ensures |qs| == S.PRIORITY_LEVELS
      ensures forall k :: 0 <= k < |qs| ==>
        fresh(qs[k]) && fresh(qs[k].items) && qs[k].Valid() && qs[k].Contents() == []
      ensures forall j, k :: 0 <= j < k < |qs| ==> qs[j] != qs[k] && qs[j].items != qs[k].items
    {
      qs := [];
      for n := 0 to S.PRIORITY_LEVELS
        invariant |qs| == n
        invariant forall k :: 0 <= k < |qs| ==>
          fresh(qs[k]) && fresh(qs[k].items) && qs[k].Valid() && qs[k].Contents() == []
        invariant forall j, k :: 0 <= j < k < |qs| ==> qs[j] != qs[k] && qs[j].items != qs[k].items
      {
        var q := new ThreadQueue();
        qs := qs + [q];
      }
    }

    /** The `find_map` over the five queues. */
    method PopHighest() returns (r: Option<nat>)
      requires Valid()
      modifies set q | q in queues, set q | q in queues :: q.items
      ensures Valid() && threads[..] == old(threads[..])
      ensures match S.PopHighest(old(QueueView()), 0)
        case None => r == None && QueueView() == old(QueueView())
        case Some((i, qs)) => r == Some(i) && QueueView() == qs
    {
      hide ThreadQueue.Valid;
      for k := 0 to S.PRIORITY_LEVELS
        invariant Valid() && QueueView() == old(QueueView()) && threads[..] == old(threads[..])
        invariant S.PopHighest(old(QueueView()), 0) == S.PopHighest(old(QueueView()), k)
      {
        r := PopAt(k);
        if r.Some? {
          return;
        }
      }
      return None;
    }

    /** Takes the head of queue `k`. */
    method PopAt(k: nat) returns (r: Option<nat>)
      requires Valid() && k < |queues|
      modifies set q | q in queues, set q | q in queues :: q.items
      ensures Valid() && threads[..] == old(threads[..])
      ensures old(QueueView())[k] == [] ==> r == None && QueueView() == old(QueueView())
      ensures old(QueueView())[k] != [] ==>
        r == Some(old(QueueView())[k][0]) && QueueView() == old(QueueView())[k := old(QueueView())[k][1..]]
    {
      ghost var before := QueueView();
      assert before[k] == queues[k].Contents();
      r := queues[k].Pop();
      assert QueueView() == if r.Some? then before[k := before[k][1..]] else before;
    }

    /** `pop_next_from_all_queues`. */
    method PopNext() returns (r: Option<nat>)
      requires Valid()
      modifies set q | q in queues, set q | q in queues :: q.items
      ensures Valid() && threads[..] == old(threads[..])
      ensures (r, QueueView()) == S.PopNext(threads[..], old(QueueView()), S.MAX_THREADS)
    {
      for attempt := 0 to S.MAX_THREADS
        invariant Valid() && threads[..] == old(threads[..])
        invariant S.PopNext(threads[..], old(QueueView()), S.MAX_THREADS)
          == S.PopNext(threads[..], QueueView(), S.MAX_THREADS - attempt)
      {
        ghost var before := QueueView();
        var candidate := PopHighest();
        if candidate.None? {
          r := FirstAlive();
          assert QueueView() == before;
          assert S.PopNext(threads[..], before, S.MAX_THREADS - attempt) == (r, before);
          return;
        }
        var i := candidate.value;
        if i < S.MAX_THREADS && threads[i].Some? && threads[i].value.state != S.Dead {
          return candidate;
        }
      }
      return None;
    }

    /** The linear fallback scan. */
    method FirstAlive() returns (r: Option<nat>)
      requires Valid()
      ensures r == S.FirstAlive(threads[..], 0)
    {
      for i := 0 to S.MAX_THREADS
        invariant S.FirstAlive(threads[..], 0) == S.FirstAlive(threads[..], i)
      {
        if threads[i].Some? && threads[i].value.state != S.Dead {
          return Some(i);
        }
      }
      return None;
    }

    method AllDead() returns (allDead: bool)
      requires Valid()
      ensures allDead <==> S.AllDead(threads[..])
    {
      allDead := true;
      for i := 0 to S.MAX_THREADS
        invariant allDead <==> forall j :: 0 <= j < i ==> !S.Alive(threads[..], j)
      {
        assert S.Alive(threads[..], i) <==> threads[i].Some? && threads[i].value.state != S.Dead;
        if threads[i].Some? && threads[i].value.state != S.Dead {
          allDead := false;
        }
      }
    }

    /** The second half of `schedule`. */
    method Dispatch()
      requires Valid() && S.QueuesOk(threads[..], QueueView())
      modifies Objects()
      ensures Valid() && View() == S.Dispatch(old(View()))
    {
      hide S.QueuesOk, S.Thinned, S.PopNext, S.Queued, S.AllDead;
      S.PopNextFromFull(threads[..], QueueView());
      var next := PopNext();
      if next.Some? {
        var i := next.value;
        var t := threads[i].value;
        threads[i] := Some(t.(state := S.Running, remaining := t.timeSlice));
        current := Some(i);
        assert threads[..] == old(threads[..])[i := threads[i]];
      } else {
        var allDead := AllDead();
        halted := allDead;
        current := None;
      }
    }

    /** `schedule`. */
    method Schedule()
      requires Valid() && S.Inv(View())
      modifies Objects()
      ensures Valid() && View() == S.Schedule(old(View())) && S.Inv(View())
    {
      hide S.Inv, S.QueuesOk, S.ReadyQueued, S.IdsDistinct, S.Dispatch, S.Requeue;
      S.ScheduleKeeps(View());
      if !running {
        return;
      }
      if current.None? {
        return;
      }
      S.PreemptKeeps(View());
      S.CurrentSlot(View());
      var c := current.value;
      var t := threads[c].value;
      if t.state == S.Running {
        t := t.(state := S.Ready);
      }
      t := t.(remaining := if t.remaining == 0 then 0 else t.remaining - 1);
      if t.remaining == 0 {
        t := S.Decayed(t);
      }
      threads[c] := Some(t);
      assert threads[..] == old(threads[..])[c := Some(t)];
      assert QueueView() == old(QueueView());
      if t.state == S.Ready {
        Requeue(c);
      }
      Dispatch();
    }

    /** `find_empty_slot`, where there is one. */
    method FindEmptySlot() returns (i: nat)
      requires Valid() && S.EmptySlot(threads[..], 0).Some?
      ensures i < S.MAX_THREADS && S.EmptySlot(threads[..], 0) == Some(i)
    {
      i := 0;
      while threads[i].Some?
        invariant 0 <= i < S.MAX_THREADS
        invariant S.EmptySlot(threads[..], 0) == S.EmptySlot(threads[..], i)
        decreases S.MAX_THREADS - i
      {
        i := i + 1;
      }
    }

    /** `add`; a full table makes the kernel panic. */
    method Add(t: S.Thread)
      requires Valid() && S.Inv(View()) && S.Addable(View(), t)
      modifies Objects()
      ensures Valid() && View() == S.Add(old(View()), t) && S.Inv(View())
    {
      hide S.Inv, ThreadQueue.Valid, S.EmptySlot;
      S.AddKeeps(View(), t);
      var i := FindEmptySlot();
      threads[i] := Some(t.(state := S.Ready));
      assert threads[..] == old(threads[..])[i := threads[i]];
      assert QueueView() == old(QueueView());
      Requeue(i);
    }

    /** `wake_thread`. */
    method Wake(id: nat)
      requires Valid() && S.Inv(View()) && S.Enabled(View(), S.WakeThread(id))
      modifies Objects()
      ensures Valid() && View() == S.Wake(old(View()), id) && S.Inv(View())
    {
      S.WakeKeeps(View(), id);
      for i := 0 to S.MAX_THREADS
        invariant Valid() && View() == old(View())
        invariant S.FindWakeable(threads[..], 0, id) == S.FindWakeable(threads[..], i, id)
      {
        if threads[i].Some? {
          var t := threads[i].value;
          if t.id == id && (t.state == S.Blocked || t.state == S.Sleeping) {
            threads[i] := Some(t.(state := S.Ready));
            assert threads[..] == old(threads[..])[i := threads[i]];
            assert QueueView() == old(QueueView());
            Requeue(i);
            return;
          }
        }
      }
    }

    /** The id of the current thread. */
    method CurrentId() returns (id: Option<nat>)
      requires Valid()
      ensures id == if current.Some? && current.value < S.MAX_THREADS && threads[current.value].Some?
        then Some(threads[current.value].value.id) else None
    {
      if current.Some? && current.value < S.MAX_THREADS && threads[current.value].Some? {
        return Some(threads[current.value].value.id);
      }
      return None;
    }

    /** The current thread marks itself blocked, or running again. */
    method SetCurrentState(st: S.ThreadState)
      requires Valid() && S.Inv(View()) && st != S.Ready
      modifies Objects()
      ensures Valid() && View() == S.BlockCurrent(old(View()), st) && S.Inv(View())
    {
      hide S.Inv;
      if current.Some? {
        S.CurrentSlot(View());
        S.SetStateKeeps(View(), current.value, st);
        var c := current.value;
        threads[c] := Some(threads[c].value.(state := st));
        assert threads[..] == old(threads[..])[c := threads[c]];
        assert QueueView() == old(QueueView());
      }
    }
  }
}
