/** The scheduler and its mutexes, updated in place. */
module Sched {
  import opened Arith
  import opened Lists
  import opened SchedState
  import opened Inheritance
  import opened SchedSteps

  class Scheduler {
    var threads: Threads
    var queues: Queues
    var mutexes: map<nat, Mutex>
    var cpus: seq<Cpu>

    ghost predicate Valid()
      reads this
    {
      && Linked(threads, queues) && AllPlaced(threads) && LocksSorted(threads, queues)
      && OnCpu(threads, cpus) && Owners(threads, mutexes)
    }

    ghost function Now(): Stage
      reads this
    {
      Stage(threads, queues, mutexes, cpus)
    }

    constructor (n: nat)
      ensures Valid() && threads == map[] && mutexes == map[] && |cpus| == n && Inherited(threads, mutexes)
      ensures forall c :: 0 <= c < n ==> cpus[c] == Cpu(None, 0)
    {
      hide Linked, LocksSorted, AllPlaced, OnCpu, Owners, Inherited;
      threads, queues, mutexes := map[], map[], map[];
      cpus := seq(n, i => Cpu(None, 0));
      new;
      NothingYet(threads, queues, mutexes, cpus);
    }

    /** Take a thread off the list it is on, if any. */
    method Unlink(t: nat)
      requires t in threads && Linked(threads, queues)
      modifies this`threads, this`queues
      ensures threads == old(threads)[t := old(threads)[t].(link := None)] && Linked(threads, queues)
      ensures match old(threads)[t].link
        case None => queues == old(queues)
        case Some(q) => queues == old(queues)[q := Remove(Q(old(queues), q), t)]
    {
      match threads[t].link {
        case None =>
          assert threads[t := threads[t].(link := None)] == threads;
        case Some(q) =>
          UnlinkLinked(threads, queues, t, q);
          queues := queues[q := Remove(Q(queues, q), t)];
      }
      threads := threads[t := threads[t].(link := None)];
    }

    /** Put a thread whose link is null in front of position k of a list. */
    method LinkBefore(t: nat, q: QueueId, k: nat)
      requires t in threads && threads[t].link == None && k <= |Q(queues, q)| && Linked(threads, queues)
      modifies this`threads, this`queues
      ensures threads == old(threads)[t := old(threads)[t].(link := Some(q))] && Linked(threads, queues)
      ensures queues == old(queues)[q := InsertAt(Q(old(queues), q), k, t)]
    {
      LinkLinked(threads, queues, t, q, k);
      queues := queues[q := InsertAt(Q(queues, q), k, t)];
      threads := threads[t := threads[t].(link := Some(q))];
    }

    /** Make a thread ready, at the back of the run queue of its priority. */
    method Enqueue(t: nat)
      requires t in threads && threads[t].link == None && Linked(threads, queues)
      modifies this`threads, this`queues
      ensures threads == old(threads)[t := Readied(old(threads)[t])]
      ensures var q := Run(old(threads)[t].priority);
        queues == old(queues)[q := InsertAt(Q(old(queues), q), |Q(old(queues), q)|, t)]
      ensures Linked(threads, queues)
    {
      assert Linked(threads[t := threads[t].(state := Ready)], queues);
      threads := threads[t := threads[t].(state := Ready)];
      LinkBefore(t, Run(threads[t].priority), |Q(queues, Run(threads[t].priority))|);
    }

    /** Put a thread behind every thread of a list whose priority is at least as good. */
    method AddByPriority(t: nat, q: QueueId) returns (k: nat)
      requires t in threads && threads[t].link == None && Linked(threads, queues)
      modifies this`threads, this`queues
      ensures Behind(old(threads), Q(old(queues), q), old(threads)[t].priority, k)
      ensures threads == old(threads)[t := old(threads)[t].(link := Some(q))] && Linked(threads, queues)
      ensures queues == old(queues)[q := InsertAt(Q(old(queues), q), k, t)]
    {
      var l := Q(queues, q);
      assert forall i :: 0 <= i < |l| ==> l[i] in l;
      k := 0;
      while k < |l| && threads[l[k]].priority <= threads[t].priority
        invariant 0 <= k <= |l| && forall i :: 0 <= i < k ==> Prio(threads, l[i]) <= threads[t].priority
      {
        k := k + 1;
      }
      LinkBefore(t, q, k);
    }

    /** The current thread of a processor goes to the back of its run queue and gives the processor up. */
    method Yield(c: nat)
      requires Valid() && c < |cpus| && cpus[c].thread.Some?
      modifies this
      ensures Valid() && mutexes == old(mutexes) && cpus == old(cpus)[c := old(cpus)[c].(thread := None)]
      ensures var t := old(cpus)[c].thread.value;
        t in old(threads) && threads == old(threads)[t := Readied(old(threads)[t])]
      ensures SameWaiters(old(queues), queues)
      ensures ReadyAtBack(old(queues), queues, old(cpus)[c].thread.value, Prio(old(threads), old(cpus)[c].thread.value))
      ensures Calm(old(threads), threads)
    {
      hide Linked, LocksSorted, AllPlaced, Owners;
      var t := cpus[c].thread.value;
      assert Placed(threads[t]) by { CurrentPlaced(threads, cpus, c); }
      Enqueue(t);
      CalmOne(old(threads), t, threads[t]);
      BackOfQueue(old(queues), queues, t, threads[t].priority);
      hide OnCpu;
      ReadyValid(old(threads), old(queues), mutexes, t, threads, queues);
      CpuLeave(old(threads), cpus, c, threads[t]);
      cpus := cpus[c := cpus[c].(thread := None)];
    }

    /** A thread starts out suspended. */
    method Create(t: nat, priority: nat)
      requires Valid() && t !in threads && priority < MAX_PRIORITIES
      requires forall m :: m in mutexes ==> mutexes[m].owner != Some(t)
      modifies this`threads
      ensures Valid() && threads == old(threads)[t := NewThread(priority)]
      ensures Calm(old(threads), threads)
    {
      hide OnCpu, AllPlaced, Sorted, Owners;
      assert forall q :: t !in Q(queues, q);
      OwnersNewThread(threads, mutexes, t, NewThread(priority));
      CalmOne(threads, t, NewThread(priority));
      threads := threads[t := NewThread(priority)];
      forall m ensures Sorted(threads, Q(queues, Lock(m))) {
        SortedFrame(old(threads), threads, Q(queues, Lock(m)));
      }
      PlacedOne(old(threads), t, threads[t]);
      CpuSame(old(threads), cpus, t, threads[t]);
    }

    /** The current thread leaves the processor without joining a list. */
    method Suspend(c: nat)
      requires Valid() && c < |cpus| && cpus[c].thread.Some?
      modifies this`threads, this`cpus
      ensures Valid() && cpus == old(cpus)[c := old(cpus)[c].(thread := None)]
      ensures var t := old(cpus)[c].thread.value;
        t in old(threads) && threads == old(threads)[t := old(threads)[t].(state := Suspended)]
      ensures Calm(old(threads), threads)
    {
      hide Linked, LocksSorted, AllPlaced, Owners;
      var t := cpus[c].thread.value;
      CurrentPlaced(threads, cpus, c);
      threads := threads[t := threads[t].(state := Suspended)];
      CalmOne(old(threads), t, threads[t]);
      hide OnCpu;
      OneValid(old(threads), queues, mutexes, t, threads[t]);
      CpuLeave(old(threads), cpus, c, threads[t]);
      cpus := cpus[c := cpus[c].(thread := None)];
    }

    /** The current thread joins the list of threads to destroy. */
    method Exit(c: nat)
      requires Valid() && c < |cpus| && cpus[c].thread.Some?
      modifies this
      ensures Valid() && mutexes == old(mutexes) && cpus == old(cpus)[c := old(cpus)[c].(thread := None)]
      ensures var t := old(cpus)[c].thread.value;
        t in old(threads) && threads == old(threads)[t := old(threads)[t].(state := Destroyed, link := Some(Graveyard))]
      ensures queues == old(queues)[Graveyard := Q(old(queues), Graveyard) + [old(cpus)[c].thread.value]]
      ensures Calm(old(threads), threads)
    {
      hide Linked, LocksSorted, AllPlaced, Owners;
      var t := cpus[c].thread.value;
      CurrentPlaced(threads, cpus, c);
      LinkedSame(threads, queues, t, threads[t].(state := Destroyed));
      threads := threads[t := threads[t].(state := Destroyed)];
      InsertLast(Q(queues, Graveyard), t);
      LinkBefore(t, Graveyard, |Q(queues, Graveyard)|);
      hide OnCpu;
      assert threads == old(threads)[t := threads[t]];
      CalmOne(old(threads), t, threads[t]);
      JoinValid(old(threads), old(queues), mutexes, t, threads[t], Graveyard, |Q(old(queues), Graveyard)|, queues);
      CpuLeave(old(threads), cpus, c, threads[t]);
      cpus := cpus[c := cpus[c].(thread := None)];
    }

    /** The current thread goes to sleep on a wait queue, or on no queue at all. */
    method Sleep(c: nat, chan: Option<nat>)
      requires Valid() && c < |cpus| && cpus[c].thread.Some? && cpus[c].lockCount == 0
      modifies this
      ensures Valid() && mutexes == old(mutexes) && cpus == old(cpus)[c := old(cpus)[c].(thread := None)]
      ensures var t := old(cpus)[c].thread.value;
        && t in old(threads)
        && var link := if chan.None? then None else Some(Wait(chan.value));
          threads == old(threads)[t := old(threads)[t].(state := Sleeping, link := link)]
      ensures if chan.None? then queues == old(queues)
        else JoinedByPriority(old(threads), old(queues), queues, Wait(chan.value), old(cpus)[c].thread.value)
      ensures Calm(old(threads), threads)
    {
      hide Linked, LocksSorted, AllPlaced, Owners, Q, InsertAt;
      var t := cpus[c].thread.value;
      CurrentPlaced(threads, cpus, c);
      LinkedSame(threads, queues, t, threads[t].(state := Sleeping));
      threads := threads[t := threads[t].(state := Sleeping)];
      hide OnCpu;
      if chan.Some? {
        ghost var mid := threads;
        var k := AddByPriority(t, Wait(chan.value));
        assert threads == old(threads)[t := threads[t]];
        BehindSame(mid, old(threads), Q(old(queues), Wait(chan.value)), threads[t].priority, k);
        assert JoinedByPriority(old(threads), old(queues), queues, Wait(chan.value), t);
        JoinValid(old(threads), old(queues), mutexes, t, threads[t], Wait(chan.value), k, queues);
      } else {
        OneValid(old(threads), queues, mutexes, t, threads[t]);
      }
      CalmOne(old(threads), t, old(threads)[t].(state := Sleeping, link := threads[t].link));
      CpuLeave(old(threads), cpus, c, threads[t]);
      cpus := cpus[c := cpus[c].(thread := None)];
    }

    /**
     * The current thread of c gives way to thread t if t has the better priority, now or at the
     * end of the interrupt.
     */
    method MayYield(c: nat, t: nat)
      requires Valid() && c < |cpus| && t in threads
      modifies this
      ensures Valid() && mutexes == old(mutexes)
      ensures GaveWay(old(threads), threads, old(cpus), cpus, c, t) && SameWaiters(old(queues), queues)
      ensures RunsAfterYield(old(threads), old(queues), queues, old(cpus), c, t)
    {
      hide Linked, LocksSorted, AllPlaced, Owners, Placed, ReadyAtBack;
      if cpus[c].thread.Some? && threads[t].priority < threads[cpus[c].thread.value].priority {
        var cur := cpus[c].thread.value;
        if cpus[c].lockCount > 0 {
          CurrentPlaced(threads, cpus, c);
          threads := threads[cur := threads[cur].(reschedule := true)];
          hide OnCpu;
          OneValid(old(threads), queues, mutexes, cur, threads[cur]);
          CpuSame(old(threads), cpus, cur, threads[cur]);
        } else {
          Yield(c);
        }
      }
    }

    /** Wake a thread that sleeps or waits for a mutex; any other thread is left alone. */
    method Resume(c: nat, t: nat)
      requires Valid() && c < |cpus| && t in threads
      modifies this
      ensures Valid() && mutexes == old(mutexes)
      ensures Resumed(old(threads), threads, old(cpus), cpus, c, t) && LeftQueue(old(threads), old(queues), queues, t)
      ensures RunsAfterWake(old(threads), old(queues), queues, old(cpus), c, t)
      ensures Calm(old(threads), threads)
    {
      hide Linked, LocksSorted, AllPlaced, Owners, OnCpu, GaveWay, ReadyAtBack, RunsAfterYield, JoinedRuns;
      if threads[t].state != Sleeping && threads[t].state != Blocked {
        NotWoken(threads, queues, cpus, c, t);
        CalmSelf(threads);
        return;
      }
      WakeTo(t);
      ghost var mid := queues;
      MayYield(c, t);
      CalmResumed(old(threads), threads, old(cpus), cpus, c, t);
      JoinThenYield(old(threads), old(queues), mid, queues, old(cpus), c, t);
    }

    method WakeTo(t: nat)
      requires Valid() && t in threads && (threads[t].state == Sleeping || threads[t].state == Blocked)
      modifies this`threads, this`queues
      ensures Valid() && threads == old(threads)[t := Readied(old(threads)[t])]
      ensures LeftQueue(old(threads), old(queues), queues, t)
      ensures ReadyAtBack(old(queues), queues, t, threads[t].priority)
    {
      assert Placed(threads[t]);
      hide Linked, LocksSorted, AllPlaced, Owners, OnCpu, Q, Placed, ReadyAtBack, LeftQueue;
      Unlink(t);
      ghost var mid, free := queues, threads;
      LeaveSorted(old(threads), old(queues), t, threads, queues);
      Unlink(t);
      assert threads == free && queues == mid;
      Enqueue(t);
      ReadyFrom(old(threads), mutexes, t, free, mid, threads, queues);
      CpuSame(old(threads), cpus, t, threads[t]);
      QueuesAfter(old(threads), old(queues), mid, queues, t);
    }

    /** Wake the first thread of a list of waiting threads. */
    method WakeOne(c: nat, q: QueueId) returns (r: Option<nat>)
      requires Valid() && c < |cpus| && (q.Wait? || q.Lock?)
      modifies this
      ensures Valid() && mutexes == old(mutexes)
      ensures r.None? <==> Q(old(queues), q) == []
      ensures r.None? ==> threads == old(threads) && queues == old(queues) && cpus == old(cpus)
      ensures r.Some? ==> WokeFirst(old(Now()), Now(), c, q) && r.value == Q(old(queues), q)[0]
      ensures r.Some? && q.Lock? ==> forall t :: t in Q(old(queues), q) ==>
        Prio(old(threads), r.value) <= Prio(old(threads), t)
      ensures Calm(old(threads), threads)
    {
      hide Owners, OnCpu, GaveWay, RunsAfterWake;
      if q.Lock? && Q(queues, q) != [] { FirstIsBest(threads, queues, q.mutex); }
      hide LocksSorted;
      if Q(queues, q) == [] {
        CalmSelf(threads);
        return None;
      }
      var t := Q(queues, q)[0];
      assert t in Q(queues, q);
      assert On(threads, t, q) && Placed(threads[t]);
      hide Linked, AllPlaced, Placed, Q, Resumed;
      assert Remove(Q(queues, q), t) == Q(queues, q)[1..];
      Resume(c, t);
      r := Some(t);
    }

    /**
     * Wake the threads of a list until it is empty or the current thread has to give way to one
     * of them (it goes on when it next runs).
     */
    method WakeAll(c: nat, q: QueueId) returns (done: bool)
      requires Valid() && c < |cpus| && (q.Wait? || q.Lock?)
      modifies this
      ensures Valid() && mutexes == old(mutexes)
      ensures done ==> Q(queues, q) == []
      ensures WokeAll(old(Now()), Now(), c, q) && Calm(old(threads), threads)
    {
      hide Linked, LocksSorted, AllPlaced, Owners, OnCpu, Q, Placed, Calm, WokeFirst;
      var me := cpus[c].thread;
      CalmSelf(threads);
      done := true;
      ghost var ts := [Now()];
      while done && Q(queues, q) != []
        invariant Valid() && mutexes == old(mutexes) && |cpus| == |old(cpus)|
        invariant Calm(old(threads), threads)
        invariant done ==> cpus[c].thread == me
        invariant !done ==> me.Some? && cpus[c].thread.None?
        invariant WakeRun(ts, c, q) && ts[0] == old(Now()) && ts[|ts| - 1] == Now()
        decreases done, |Q(queues, q)|
      {
        ghost var s0 := Now();
        var r := WakeOne(c, q);
        CalmTrans(old(threads), s0.threads, threads);
        WokenCpu(s0, Now(), c, q);
        ts := ts + [Now()];
        done := cpus[c].thread == me;
      }
    }

    /** Give a free processor to the ready thread of the best priority that has been ready longest. */
    method Dispatch(c: nat) returns (r: Option<nat>)
      requires Valid() && c < |cpus| && cpus[c].thread.None?
      modifies this`threads, this`queues, this`cpus
      ensures Valid()
      ensures r.None? ==> threads == old(threads) && queues == old(queues) && cpus == old(cpus)
      ensures r.None? <==> forall t :: t in old(threads) ==> old(threads)[t].state != Ready
      ensures r.Some? ==> Dispatched(old(Now()), Now(), c, r.value)
      ensures Calm(old(threads), threads)
    {
      var i := 0;
      while i < MAX_PRIORITIES && Q(queues, Run(i)) == []
        invariant 0 <= i <= MAX_PRIORITIES && forall j :: 0 <= j < i ==> Q(queues, Run(j)) == []
      {
        i := i + 1;
      }
      BestReady(threads, queues, i);
      hide Linked, LocksSorted, AllPlaced, Owners, OnCpu, Q;
      if i == MAX_PRIORITIES {
        CalmSelf(threads);
        return None;
      }
      r := Some(Q(queues, Run(i))[0]);
      GiveCpu(c, i);
    }

    /** The first thread of a run queue gets the processor. */
    method GiveCpu(c: nat, i: nat)
      requires Valid() && c < |cpus| && cpus[c].thread.None? && Q(queues, Run(i)) != []
      requires var t := Q(queues, Run(i))[0];
        t in threads && threads[t].state == Ready && threads[t].link == Some(Run(i)) && Placed(threads[t])
      modifies this`threads, this`queues, this`cpus
      ensures Valid() && Calm(old(threads), threads)
      ensures var t := old(Q(queues, Run(i))[0]);
        && threads == old(threads)[t := old(threads)[t].(state := Running, link := None, cpu := c)]
        && cpus == old(cpus)[c := old(cpus)[c].(thread := Some(t))]
      ensures forall q :: Q(queues, q) == if q == Run(i) then Q(old(queues), q)[1..] else Q(old(queues), q)
    {
      hide Linked, LocksSorted, AllPlaced, Owners, OnCpu, Q, Calm;
      var t := Q(queues, Run(i))[0];
      Unlink(t);
      LeaveSorted(old(threads), old(queues), t, threads, queues);
      ghost var free := threads;
      threads := threads[t := threads[t].(state := Running, cpu := c)];
      cpus := cpus[c := cpus[c].(thread := Some(t))];
      LinkedSame(free, queues, t, threads[t]);
      LocksSame(free, queues, t, threads[t]);
      assert threads == old(threads)[t := threads[t]];
      CalmOne(old(threads), t, threads[t]);
      PlacedOne(old(threads), t, threads[t]);
      OwnersSame(old(threads), mutexes, t, threads[t]);
      CpuJoin(old(threads), old(cpus), c, t, threads[t]);
      forall q ensures Q(queues, q) == if q == Run(i) then Remove(Q(old(queues), Run(i)), t) else Q(old(queues), q) {
        UpdateQueue(old(queues), Run(i), Remove(Q(old(queues), Run(i)), t), q);
      }
      assert Remove(Q(old(queues), Run(i)), t) == Q(old(queues), Run(i))[1..];
    }

    /** Let a suspended thread run; other threads are refused. */
    method ResumeThread(c: nat, t: nat) returns (ok: bool)
      requires Valid() && c < |cpus| && t in threads
      modifies this
      ensures Valid() && mutexes == old(mutexes) && (ok <==> old(threads)[t].state == Suspended)
      ensures ok ==> SameWaiters(old(queues), queues) && JoinedRuns(old(threads), old(queues), queues, old(cpus), c, t)
      ensures if ok then GaveWay(old(threads)[t := Readied(old(threads)[t])], threads, old(cpus), cpus, c, t)
        else threads == old(threads) && queues == old(queues) && cpus == old(cpus)
      ensures Calm(old(threads), threads)
    {
      if threads[t].state != Suspended {
        CalmSelf(threads);
        return false;
      }
      hide Linked, LocksSorted, Owners, OnCpu, GaveWay, Calm, JoinedRuns;
      assert Placed(threads[t]);
      Enqueue(t);
      hide AllPlaced;
      BackOfQueue(old(queues), queues, t, threads[t].priority);
      ghost var queues1 := queues;
      ReadyValid(old(threads), old(queues), mutexes, t, threads, queues);
      CpuSame(old(threads), cpus, t, threads[t]);
      ghost var mid := threads;
      CalmOne(old(threads), t, threads[t]);
      CurrentRuns(threads, cpus, c);
      MayYield(c, t);
      CalmGaveWay(mid, threads, old(cpus), cpus, c, t);
      CalmTrans(old(threads), mid, threads);
      JoinThenYield(old(threads), old(queues), queues1, queues, old(cpus), c, t);
      ok := true;
    }

    /** The clock marks the current thread as having used up its slice. */
    method Tick(c: nat)
      requires Valid() && c < |cpus|
      modifies this`threads
      ensures Valid()
      ensures match cpus[c].thread
        case None => threads == old(threads)
        case Some(t) => t in old(threads) && threads == old(threads)[t := old(threads)[t].(reschedule := true)]
      ensures Calm(old(threads), threads)
    {
      CalmSelf(threads);
      hide Linked, LocksSorted, AllPlaced, Owners, Placed;
      if cpus[c].thread.Some? {
        var t := cpus[c].thread.value;
        CurrentPlaced(threads, cpus, c);
        assert Placed(threads[t].(reschedule := true)) by { PlacedFlag(threads[t]); }
        threads := threads[t := threads[t].(reschedule := true)];
        CalmOne(old(threads), t, threads[t]);
        hide OnCpu;
        OneValid(old(threads), queues, mutexes, t, threads[t]);
        CpuSame(old(threads), cpus, t, threads[t]);
      }
    }

    method IrqBegin(c: nat)
      requires Valid() && c < |cpus|
      modifies this`cpus
      ensures Valid() && cpus == old(cpus)[c := old(cpus)[c].(lockCount := old(cpus)[c].lockCount + 1)]
    {
      cpus := cpus[c := cpus[c].(lockCount := cpus[c].lockCount + 1)];
    }

    /** At the end of the outermost interrupt a marked thread gives way. */
    method IrqEnd(c: nat)
      requires Valid() && c < |cpus| && cpus[c].lockCount > 0
      modifies this
      ensures Valid() && mutexes == old(mutexes) && |cpus| == |old(cpus)|
      ensures cpus[c].lockCount == old(cpus)[c].lockCount - 1
      ensures var t := old(cpus)[c].thread;
        if old(cpus)[c].lockCount == 1 && t.Some? && t.value in old(threads) && old(threads)[t.value].reschedule then
          && cpus == old(cpus)[c := Cpu(None, 0)]
          && threads == old(threads)[t.value := Readied(old(threads)[t.value].(reschedule := false))]
          && SameWaiters(old(queues), queues)
          && ReadyAtBack(old(queues), queues, t.value, Prio(old(threads), t.value))
        else
          && threads == old(threads) && queues == old(queues)
          && cpus == old(cpus)[c := Cpu(t, old(cpus)[c].lockCount - 1)]
      ensures Calm(old(threads), threads)
    {
      hide Linked, LocksSorted, AllPlaced, Owners, Calm, ReadyAtBack, SameWaiters;
      CalmSelf(threads);
      cpus := cpus[c := cpus[c].(lockCount := cpus[c].lockCount - 1)];
      CurrentRuns(threads, cpus, c);
      if cpus[c].lockCount == 0 && cpus[c].thread.Some? && threads[cpus[c].thread.value].reschedule {
        hide OnCpu;
        YieldMarked(c);
      }
    }

    /** The current thread takes back its mark and yields. */
    method YieldMarked(c: nat)
      requires Valid() && c < |cpus| && cpus[c].thread.Some?
      modifies this
      ensures Valid() && mutexes == old(mutexes) && cpus == old(cpus)[c := old(cpus)[c].(thread := None)]
      ensures var t := old(cpus)[c].thread.value;
        && t in old(threads) && threads == old(threads)[t := Readied(old(threads)[t].(reschedule := false))]
        && SameWaiters(old(queues), queues) && ReadyAtBack(old(queues), queues, t, Prio(old(threads), t))
      ensures Calm(old(threads), threads)
    {
      hide Linked, LocksSorted, AllPlaced, Owners, Placed, ReadyAtBack, Calm, SameWaiters;
      var t := cpus[c].thread.value;
      CurrentPlaced(threads, cpus, c);
      hide OnCpu;
      PlacedFlag(threads[t]);
      threads := threads[t := threads[t].(reschedule := false)];
      OneValid(old(threads), queues, mutexes, t, threads[t]);
      CpuSame(old(threads), cpus, t, threads[t]);
      Yield(c);
      CalmOne(old(threads), t, threads[t]);
    }

    // ---- Priority inheritance ------------------------------------------------------------------

    /** Change the priority of a thread and put it where that belongs on its list. */
    method Reprioritize(t: nat, p: nat)
      requires Valid() && t in threads && p < MAX_PRIORITIES
      modifies this`threads, this`queues
      ensures Valid() && threads == old(threads)[t := Lowered(old(threads)[t], p)]
      ensures Requeued(old(threads), old(queues), queues, t, p)
    {
      hide Linked, LocksSorted, AllPlaced, OnCpu, Owners, Behind, Placed, InsertAt, Requeued;
      if threads[t].state != Ready && threads[t].state != Blocked { RequeuedNot(threads, queues, t, p); }
      ghost var th := Lowered(threads[t], p);
      LoweredPlaced(threads, t, p);
      if th.state == Blocked { BlockedMutex(threads, mutexes, t); }
      OwnersSame(threads, mutexes, t, th);
      CpuSame(threads, cpus, t, th);
      PlacedOne(threads, t, th);
      NotWaiting(threads, queues, t);
      LinkedSame(threads, queues, t, threads[t].(priority := p));
      threads := threads[t := threads[t].(priority := p)];
      if threads[t].state == Ready {
        Unlink(t);
        ghost var mid := queues;
        Enqueue(t);
        RequeuedReady(old(threads), old(queues), t, p, mid, queues);
        RunMoved(old(threads), old(queues), t, p, threads, queues);
      } else if threads[t].state == Blocked {
        Unlink(t);
        ghost var mid, free := queues, threads;
        var k := AddByPriority(t, Lock(threads[t].sleepOn));
        BehindSame(free, threads, Q(mid, Lock(threads[t].sleepOn)), p, k);
        LockMoved(old(threads), old(queues), t, p, mid, k, threads, queues);
        RequeuedBlocked(old(threads), old(queues), t, p, mid, k, queues);
      } else {
        RunMoved(old(threads), old(queues), t, p, threads, queues);
      }
      assert threads == old(threads)[t := th];
    }

    /**
     * Give mutex m at least priority p, and its owner too.  The assertion that each mutex met has
     * an owner fails if and only if the chain leads, through values worse than p, to one without.
     */
    method MayRaise(m: nat, p: nat) returns (ok: bool)
      requires Valid() && m in mutexes && p < MAX_PRIORITIES
      modifies this`threads, this`queues, this`mutexes
      ensures Valid() && Boosted(old(threads), old(mutexes), threads, mutexes, m, p)
      ensures
        old(Waits(threads, mutexes, m, p) && Owns(threads, mutexes, 0, MAX_PRIORITIES) && mutexes[m].owner.Some?) ==>
        ok && Inherited(threads, mutexes) && m in mutexes && mutexes[m].priority <= p
      ensures ok <==> !Hits(old(threads), old(mutexes), m, p)
      ensures RunOrder(old(queues), queues) && SameSleepers(old(queues), queues)
      decreases Worse(mutexes, p), 0
    {
      hide Linked, LocksSorted, AllPlaced, OnCpu, Boosted, Waits, Owns, Worse, Owners, PassedOn, Inherited, Hits,
        RunOrder, SameSleepers;
      RunOrderSelf(queues);
      MutexFacts(threads, mutexes, m, p);
      HitsStop(threads, mutexes, m, p);
      if mutexes[m].owner.None? {
        BoostedNothing(threads, mutexes, m, p);
        return false;
      }
      ok := true;
      var o := mutexes[m].owner.value;
      if mutexes[m].priority > p {
        WorseShrinks(mutexes, m, p);
        OwnersPriority(threads, mutexes, m, p);
        mutexes := mutexes[m := mutexes[m].(priority := p)];
        if threads[o].priority > p {
          if threads[o].state == Blocked {
            HitsStep(threads, old(mutexes), threads[o := Lowered(threads[o], p)], mutexes, m, p);
          }
          ok := Raise(o, p);
          PassedOnBoosted(old(threads), old(mutexes), threads, mutexes, m, p);
        } else {
          BoostedHead(threads, old(mutexes), threads, mutexes, m, p);
          Settled(threads, mutexes, o, p);
        }
      } else {
        BoostedNothing(threads, mutexes, m, p);
      }
    }

    /** Lower the priority value of a thread to p and pass the change on to the mutex it waits for. */
    method Raise(t: nat, p: nat) returns (ok: bool)
      requires Valid() && t in threads && threads[t].priority > p
      modifies this`threads, this`queues, this`mutexes
      ensures Valid() && PassedOn(old(threads), old(mutexes), threads, mutexes, t, p)
      ensures old(Waits(threads, mutexes, 0, MAX_PRIORITIES) && Owns(threads, mutexes, t, p)) ==>
        ok && Inherited(threads, mutexes)
      ensures
        var threads1 := old(threads)[t := Lowered(old(threads)[t], p)];
        ok <==> !(old(threads)[t].state == Blocked && Hits(threads1, old(mutexes), old(threads)[t].sleepOn, p))
      ensures RunOrder(old(queues), queues) && SameSleepers(old(queues), queues)
      decreases Worse(mutexes, p), 1
    {
      assert Placed(threads[t]);
      hide Linked, LocksSorted, AllPlaced, OnCpu, Boosted, Waits, Owns, Worse, Owners, Hits, Requeued, Placed;
      OwnerFacts(threads, mutexes, t, p);
      Reprioritize(t, p);
      RequeuedOrder(old(threads), old(queues), queues, t, p);
      ok := true;
      if threads[t].state == Blocked {
        ok := MayRaise(threads[t].sleepOn, threads[t].priority);
      }
    }

    // ---- Mutexes --------------------------------------------------------------------------------

    method CreateMutex(m: nat)
      requires Valid() && m !in mutexes
      modifies this`mutexes
      ensures Valid() && mutexes == old(mutexes)[m := Mutex(None, MAX_PRIORITIES)]
      ensures FreeWorst(old(mutexes)) ==> FreeWorst(mutexes)
      ensures old(Inherited(threads, mutexes)) ==> Inherited(threads, mutexes)
    {
      hide Linked, LocksSorted, AllPlaced, OnCpu, Owners;
      OwnersNewMutex(threads, mutexes, m);
      mutexes := mutexes[m := Mutex(None, MAX_PRIORITIES)];
    }

    /** Lock a free mutex for the current thread. */
    method TryLock(c: nat, m: nat) returns (r: TryResult)
      requires Valid() && m in mutexes && c < |cpus| && cpus[c].thread.Some?
      modifies this`threads, this`mutexes
      ensures Valid() && cpus[c].thread.value in old(threads)
      ensures var t := cpus[c].thread.value;
        match old(mutexes)[m].owner
        case Some(o) => r == if o == t then Deadlock else Again
        case None => r == if old(threads)[t].priority <= old(mutexes)[m].priority then Done else Broken
      ensures r == Done ==> var t := cpus[c].thread.value;
        && mutexes == old(mutexes)[m := old(mutexes)[m].(owner := Some(t))]
        && threads == old(threads)[t := old(threads)[t].(owned := [m] + old(threads)[t].owned)]
      ensures r != Done ==> threads == old(threads) && mutexes == old(mutexes)
      ensures old(Inherited(threads, mutexes)) ==> Inherited(threads, mutexes)
      ensures FreeWorst(old(mutexes)) ==> FreeWorst(mutexes)
    {
      hide Linked, LocksSorted, AllPlaced, Owners, Inherited, Placed;
      var t := cpus[c].thread.value;
      CurrentPlaced(threads, cpus, c);
      if mutexes[m].owner.Some? {
        return if mutexes[m].owner.value == t then Deadlock else Again;
      }
      if threads[t].priority > mutexes[m].priority {
        return Broken;
      }
      Acquired(threads, mutexes, t, m);
      PlacedOwned(threads[t], [m] + threads[t].owned);
      mutexes := mutexes[m := mutexes[m].(owner := Some(t))];
      threads := threads[t := threads[t].(owned := [m] + threads[t].owned)];
      hide OnCpu;
      LooseValid(old(threads), queues, t, threads[t]);
      CpuSame(old(threads), cpus, t, threads[t]);
      if old(Inherited(threads, mutexes)) { AcquireInherited(old(threads), old(mutexes), t, threads[t], m); }
      r := Done;
    }

    /** Boost the mutex for the current thread, then wait for it. */
    method Block(c: nat, m: nat) returns (ok: bool)
      requires Valid() && m in mutexes && c < |cpus| && cpus[c].thread.Some? && cpus[c].lockCount == 0
      requires mutexes[m].owner.Some? && mutexes[m].owner != cpus[c].thread
      modifies this
      ensures Valid()
      ensures ok ==> cpus == old(cpus)[c := old(cpus)[c].(thread := None)]
      ensures ok ==> var t := old(cpus)[c].thread.value;
        t in threads && threads[t].state == Blocked && threads[t].sleepOn == m &&
          LastOfEquals(threads, Q(queues, Lock(m)), t)
      ensures old(Inherited(threads, mutexes)) ==> var t := old(cpus)[c].thread.value;
        && ok && Inherited(threads, mutexes) && t in old(threads)
        && BoostedTo(old(threads), old(mutexes), threads, mutexes, m, old(threads)[t].priority)
      ensures var t := old(cpus)[c].thread.value; ok <==> !Hits(old(threads), old(mutexes), m, Prio(old(threads), t))
      ensures ok ==> var t := old(cpus)[c].thread.value;
        && t in old(threads) && t in threads
        && threads[t] == old(threads)[t].(state := Blocked, sleepOn := m, link := Some(Lock(m)))
        && Boosted(old(threads), old(mutexes), threads[t := old(threads)[t]], mutexes, m, Prio(old(threads), t))
      ensures ok ==> RunOrder(old(queues), queues) && SameSleepers(old(queues), queues)
    {
      hide Linked, LocksSorted, AllPlaced, Owners, Boosted, Inherited, BoostedTo, LastOfEquals, Q, Hits, RunOrder,
        SameSleepers, JoinedByPriority, OnCpu, Waits, Owns, Placed;
      var t := cpus[c].thread.value;
      CurrentPlaced(threads, cpus, c);
      var p := threads[t].priority;
      if old(Inherited(threads, mutexes)) { InheritedWaits(threads, mutexes, m, p); }
      PlacedBound(threads[t]);
      ok := MayRaise(m, p);
      BoosterKept(old(threads), old(mutexes), threads, mutexes, m, p, t);
      BoostKeepsOwner(old(threads), old(mutexes), threads, mutexes, m, p, m);
      if !ok {
        return;
      }
      ghost var mid, queues1 := threads, queues;
      WaitOn(c, m);
      JoinedLock(mid, old(queues), queues1, queues, m, t);
      assert threads[t := mid[t]] == mid;
      if old(Inherited(threads, mutexes)) {
        BlockInherited(mid, mutexes, t, threads[t], m);
        BlockedTo(old(threads), old(mutexes), mid, mutexes, m, p, t, threads[t]);
      }
    }

    /** The current thread joins the list of a mutex. */
    method WaitOn(c: nat, m: nat)
      requires Valid() && m in mutexes && c < |cpus| && cpus[c].thread.Some?
      modifies this`threads, this`queues, this`cpus
      ensures Valid() && cpus == old(cpus)[c := old(cpus)[c].(thread := None)]
      ensures var t := old(cpus)[c].thread.value;
        && t in old(threads)
        && threads == old(threads)[t := old(threads)[t].(state := Blocked, sleepOn := m, link := Some(Lock(m)))]
        && LastOfEquals(threads, Q(queues, Lock(m)), t)
        && JoinedByPriority(old(threads), old(queues), queues, Lock(m), t)
    {
      hide Linked, LocksSorted, AllPlaced, Owners, Behind, LastOfEquals, InsertAt;
      var t := cpus[c].thread.value;
      CurrentPlaced(threads, cpus, c);
      ghost var l := Q(queues, Lock(m));
      LooseList(threads, queues, t, m);
      LinkedSame(threads, queues, t, threads[t].(state := Blocked, sleepOn := m));
      threads := threads[t := threads[t].(state := Blocked, sleepOn := m)];
      ghost var mid := threads;
      var k := AddByPriority(t, Lock(m));
      hide OnCpu;
      BehindSame(mid, old(threads), l, threads[t].priority, k);
      BehindLast(old(threads), threads, l, threads[t].priority, k, t);
      assert threads == old(threads)[t := threads[t]];
      BehindBound(old(threads), l, threads[t].priority, k);
      JoinValid(old(threads), old(queues), mutexes, t, threads[t], Lock(m), k, queues);
      CpuLeave(old(threads), cpus, c, threads[t]);
      cpus := cpus[c := cpus[c].(thread := None)];
    }

    /** The current thread gives up a mutex and wakes the first thread that waits for it. */
    method Release(c: nat, m: nat)
      requires Valid() && m in mutexes && c < |cpus| && cpus[c].thread.Some? && mutexes[m].owner == cpus[c].thread
      modifies this
      ensures Valid() && mutexes == old(mutexes)[m := old(mutexes)[m].(owner := None)]
      ensures GaveUp(old(Now()), Now(), c, m, old(cpus)[c].thread.value)
      ensures old(Inherited(threads, mutexes)) ==> (Inherited(threads, mutexes) <==> |Q(old(queues), Lock(m))| <= 1)
    {
      hide Linked, LocksSorted, AllPlaced, Owners, Placed, Resumed, Inherited, Calm;
      var t := cpus[c].thread.value;
      CurrentPlaced(threads, cpus, c);
      Released(threads, mutexes, t, m);
      PlacedOwned(threads[t], Remove(threads[t].owned, m));
      threads := threads[t := threads[t].(owned := Remove(threads[t].owned, m))];
      mutexes := mutexes[m := mutexes[m].(owner := None)];
      hide OnCpu;
      LooseValid(old(threads), queues, t, threads[t]);
      CpuSame(old(threads), cpus, t, threads[t]);
      if Q(queues, Lock(m)) != [] { FirstBlocked(threads, queues, m); }
      ghost var mid := threads;
      CalmOne(old(threads), t, mid[t]);
      var _ := WakeOne(c, Lock(m));
      CalmTrans(old(threads), mid, threads);
      if Q(old(queues), Lock(m)) != [] { WokeTail(Stage(mid, old(queues), mutexes, old(cpus)), Now(), c, Lock(m)); }
      if old(Inherited(threads, mutexes)) { ReleaseInherited(old(threads), old(mutexes), threads, queues, m); }
    }

    /** The best priority of some mutexes. */
    method HighestPriority(l: seq<nat>) returns (best: nat)
      requires forall m :: m in l ==> m in mutexes
      ensures best <= MAX_PRIORITIES && forall m :: m in l ==> best <= mutexes[m].priority
      ensures best == MAX_PRIORITIES || exists m :: m in l && mutexes[m].priority == best
    {
      best := MAX_PRIORITIES;
      for i := 0 to |l|
        invariant best <= MAX_PRIORITIES && forall m :: m in l[..i] ==> best <= mutexes[m].priority
        invariant best == MAX_PRIORITIES || exists m :: m in l[..i] && mutexes[m].priority == best
      {
        assert l[..i + 1] == l[..i] + [l[i]];
        assert l[i] in l;
        if mutexes[l[i]].priority < best {
          best := mutexes[l[i]].priority;
          assert l[i] in l[..i + 1];
        }
      }
      assert l[..|l|] == l;
    }

    /**
     * After a release: the mutex takes the best priority of its waiters, the current thread the
     * best of its own and its mutexes'.
     */
    method Recalculate(c: nat, m: nat)
      requires Valid() && m in mutexes && c < |cpus| && cpus[c].thread.Some?
      modifies this`threads, this`mutexes
      ensures Valid() && m in mutexes && mutexes == old(mutexes)[m := old(mutexes)[m].(priority := mutexes[m].priority)]
      ensures BestOf(threads, Q(queues, Lock(m)), mutexes[m].priority)
      ensures var t := cpus[c].thread.value;
        && t in old(threads) && t in threads
        && threads == old(threads)[t := old(threads)[t].(priority := threads[t].priority)]
        && threads[t].priority <= threads[t].saved
        && (forall x :: x in threads[t].owned ==> x in mutexes && threads[t].priority <= mutexes[x].priority)
        && (|| threads[t].priority == threads[t].saved
            || exists x :: x in threads[t].owned && mutexes[x].priority == threads[t].priority)
      ensures old(Inherited(threads, mutexes)) ==> Inherited(threads, mutexes)
      ensures old(Inherited(threads, mutexes)) && FreeWorst(old(mutexes)) ==> FreeWorst(mutexes)
    {
      hide Linked, LocksSorted, AllPlaced, Owners, Inherited, FreeWorst;
      var t := cpus[c].thread.value;
      CurrentPlaced(threads, cpus, c);
      LooseList(threads, queues, t, m);
      MutexBound(threads, mutexes, m);
      var l := Q(queues, Lock(m));
      if l != [] { FirstBlocked(threads, queues, m); }
      var p := if l == [] then MAX_PRIORITIES else threads[l[0]].priority;
      SortedBest(threads, l, p);
      OwnersPriority(threads, mutexes, m, p);
      mutexes := mutexes[m := mutexes[m].(priority := p)];
      OwnedMutexes(threads, mutexes, t);
      var best := HighestPriority(threads[t].owned);
      threads := threads[t := threads[t].(priority := if best < threads[t].saved then best else threads[t].saved)];
      BestOfFrame(old(threads), threads, l, p);
      assert threads[t].state == Running;
      hide OnCpu, BestOf;
      LooseValid(old(threads), queues, t, threads[t]);
      OwnersSame(old(threads), mutexes, t, threads[t]);
      CpuSame(old(threads), cpus, t, threads[t]);
      if old(Inherited(threads, mutexes)) {
        RecalcFreeWorst(old(threads), queues, old(mutexes), m, p);
        RecalcInherited(old(threads), old(mutexes), threads, mutexes, queues, t, m);
      }
    }

    // ---- Runs ---------------------------------------------------------------------------------------

    /** Processor c runs a thread. */
    predicate Busy(c: nat)
      reads this
    {
      c < |cpus| && cpus[c].thread.Some?
    }

    /** The locked sections that work on mutexes; see Perform. */
    method PerformMutex(op: Op) returns (ok: bool)
      requires Valid() && (op.NewMutex? || op.TakeMutex? || op.WaitMutex? || op.DropMutex? || op.Recalc?)
      modifies this
      ensures Valid() && (ok ==> Does(old(Now()), op, Now()))
      ensures ok <==> !Fails(old(threads), old(mutexes), old(cpus), op)
      ensures old(Inherited(threads, mutexes)) ==>
        (Inherited(threads, mutexes) <==> !LeavesWaiters(old(mutexes), old(queues), old(cpus), op))
      ensures old(Inherited(threads, mutexes)) && FreeWorst(old(mutexes)) && !op.DropMutex? ==> FreeWorst(mutexes)
    {
      hide Linked, LocksSorted, AllPlaced, Owners, OnCpu, Placed, Resumed, LastOfEquals, Inherited, BoostedTo, BestOf,
        LeftQueue, Calm, FreeWorst, RunsAfterWake, Boosted, Hits;
      ok := true;
      match op {
        case NewMutex(m) => if m !in mutexes { CreateMutex(m); }
        case TakeMutex(c, m) =>
          if Busy(c) && m in mutexes {
            var r := TryLock(c, m);
            ok := r != Broken;
          }
        case WaitMutex(c, m) =>
          if Busy(c) && m in mutexes && cpus[c].lockCount == 0 && mutexes[m].owner.Some? &&
            mutexes[m].owner != cpus[c].thread {
            ok := Block(c, m);
            if old(Inherited(threads, mutexes)) && FreeWorst(old(mutexes)) {
              ghost var t := old(cpus)[c].thread.value;
              ghost var mid := threads[t := old(threads)[t]];
              BoostFreeWorst(old(threads), old(mutexes), mid, mutexes, m, old(threads)[t].priority);
            }
          }
        case DropMutex(c, m) => if Busy(c) && m in mutexes && mutexes[m].owner == cpus[c].thread { Release(c, m); }
        case Recalc(c, m) => if Busy(c) && m in mutexes { Recalculate(c, m); }
      }
    }

    /** The locked sections of wakeups, the scheduler loop and interrupts; see Perform. */
    method PerformCpu(op: Op)
      requires Valid() && (op.Wake? || op.WakeEvery? || op.Next? || op.Clock? || op.EnterIrq? || op.LeaveIrq?)
      modifies this
      ensures Valid() && Does(old(Now()), op, Now()) && mutexes == old(mutexes)
      ensures old(Inherited(threads, mutexes)) ==> Inherited(threads, mutexes)
    {
      hide Linked, LocksSorted, AllPlaced, Owners, OnCpu, Placed, Resumed, GaveWay, LastOfEquals, Inherited, BoostedTo,
        BestOf, LeftQueue, Calm, RunsAfterWake, RunsAfterYield, ReadyAtBack, SameWaiters, JoinedByPriority, Boosted,
        Hits;
      if old(Inherited(threads, mutexes)) {
        forall after: Threads | Calm(threads, after) ensures Inherited(after, mutexes) {
          CalmInherited(threads, after, mutexes);
        }
      }
      CalmSelf(threads);
      match op {
        case Wake(c, chan) => if c < |cpus| { var _ := WakeOne(c, Wait(chan)); }
        case WakeEvery(c, chan) => if c < |cpus| { var _ := WakeAll(c, Wait(chan)); }
        case Next(c) => if c < |cpus| && cpus[c].thread.None? { var _ := Dispatch(c); }
        case Clock(c) => if c < |cpus| { Tick(c); }
        case EnterIrq(c) => if c < |cpus| { IrqBegin(c); }
        case LeaveIrq(c) => if c < |cpus| && cpus[c].lockCount > 0 { IrqEnd(c); }
      }
    }

    /**
     * One locked section.  A step that is not possible in the state does nothing; the result says
     * whether an assertion failed, and it says so exactly for the steps of Fails.  Every step but
     * the giving up of a mutex that several threads wait for keeps the inequalities.
     */
    method Perform(op: Op) returns (ok: bool)
      requires Valid()
      modifies this
      ensures Valid() && (ok ==> Does(old(Now()), op, Now()))
      ensures ok <==> !Fails(old(threads), old(mutexes), old(cpus), op)
      ensures old(Inherited(threads, mutexes)) ==>
        (Inherited(threads, mutexes) <==> !LeavesWaiters(old(mutexes), old(queues), old(cpus), op))
      ensures old(Inherited(threads, mutexes)) && FreeWorst(old(mutexes)) && !op.DropMutex? ==> FreeWorst(mutexes)
    {
      hide Linked, LocksSorted, AllPlaced, Owners, OnCpu, Placed, Resumed, GaveWay, LastOfEquals, Inherited, BoostedTo,
        BestOf, LeftQueue, Calm, FreeWorst,
        RunsAfterWake, RunsAfterYield, ReadyAtBack, SameWaiters, JoinedByPriority, Boosted, Hits;
      if old(Inherited(threads, mutexes)) {
        forall after: Threads | Calm(threads, after) ensures Inherited(after, mutexes) {
          CalmInherited(threads, after, mutexes);
        }
      }
      CalmSelf(threads);
      ok := true;
      match op {
        case CreateThread(t, p) =>
          if t !in threads && p < MAX_PRIORITIES {
            FreshThread(threads, mutexes, t);
            Create(t, p);
          }
        case Start(c, t) => if c < |cpus| && t in threads { var _ := ResumeThread(c, t); }
        case YieldCpu(c) => if Busy(c) { Yield(c); }
        case Stop(c) => if Busy(c) { Suspend(c); }
        case Quit(c) => if Busy(c) { Exit(c); }
        case SleepOn(c, chan) => if Busy(c) && cpus[c].lockCount == 0 { Sleep(c, chan); }
        case Interrupt(c, t) => if c < |cpus| && t in threads { Resume(c, t); }
        case Wake(_, _) => PerformCpu(op);
        case WakeEvery(_, _) => PerformCpu(op);
        case Next(_) => PerformCpu(op);
        case Clock(_) => PerformCpu(op);
        case EnterIrq(_) => PerformCpu(op);
        case LeaveIrq(_) => PerformCpu(op);
        case _ => ok := PerformMutex(op);
      }
    }

    /**
     * Whatever the threads and interrupts do, the queues stay consistent, up to the first step
     * whose assertion fails.  `trace` holds the states in between.  While no mutex is given up the
     * inequalities stay and only the assertion of a lock can fail; and if free mutexes have the
     * worst priority, as they have in a new system, none does and the run completes.
     */
    method Execute(ops: seq<Op>) returns (done: nat, ghost trace: seq<Stage>)
      requires Valid()
      modifies this
      ensures Valid() && done <= |ops| && IsRun(trace, ops[..done]) && trace[0] == old(Now())
      ensures done == |ops| ==> trace[done] == Now()
      ensures done < |ops| ==> Fails(trace[done].threads, trace[done].mutexes, trace[done].cpus, ops[done])
      ensures old(Inherited(threads, mutexes)) && (forall op :: op in ops ==> !op.DropMutex?) ==>
        Inherited(threads, mutexes) && (done < |ops| ==> ops[done].TakeMutex?)
      ensures old(Inherited(threads, mutexes)) && FreeWorst(old(mutexes)) && (forall op :: op in ops ==> !op.DropMutex?)
        ==> done == |ops| && FreeWorst(mutexes)
    {
      hide Linked, LocksSorted, AllPlaced, Owners, OnCpu, Inherited, Hits, FreeWorst, Fails, Does;
      ghost var kept := Inherited(threads, mutexes) && forall op :: op in ops ==> !op.DropMutex?;
      done, trace := 0, [Now()];
      while done < |ops|
        invariant Valid() && done <= |ops| && IsRun(trace, ops[..done])
        invariant trace[0] == old(Now()) && trace[done] == Now()
        invariant kept ==> Inherited(threads, mutexes) && (FreeWorst(old(mutexes)) ==> FreeWorst(mutexes))
      {
        assert ops[done] in ops;
        if kept {
          InheritedSafe(threads, mutexes, cpus, ops[done]);
          if FreeWorst(mutexes) { FreeWorstSafe(threads, mutexes, cpus, ops[done]); }
        }
        assert kept ==> !LeavesWaiters(mutexes, queues, cpus, ops[done]);
        var ok := Perform(ops[done]);
        if !ok {
          return;
        }
        assert ops[..done + 1] == ops[..done] + [ops[done]];
        trace := trace + [Now()];
        done := done + 1;
      }
    }
  }

  /** From an empty system, a run in which no mutex is given up completes. */
  method RunFromStart(n: nat, ops: seq<Op>) returns (done: nat)
    requires forall op :: op in ops ==> !op.DropMutex?
    ensures done == |ops|
  {
    hide Linked, LocksSorted, AllPlaced, Owners, OnCpu, Inherited;
    var s := new Scheduler(n);
    ghost var trace;
    done, trace := s.Execute(ops);
  }

  lemma NothingYet(threads: Threads, queues: Queues, mutexes: Mutexes, cpus: seq<Cpu>)
    requires threads == map[] && queues == map[] && mutexes == map[]
    requires forall c :: 0 <= c < |cpus| ==> cpus[c].thread == None
    ensures Linked(threads, queues) && LocksSorted(threads, queues) && AllPlaced(threads)
    ensures OnCpu(threads, cpus) && Owners(threads, mutexes) && Inherited(threads, mutexes)
  {
  }

  /** While the inequalities hold no boost meets a mutex without an owner. */
  lemma InheritedSafe(threads: Threads, mutexes: Mutexes, cpus: seq<Cpu>, op: Op)
    requires Inherited(threads, mutexes)
    ensures !op.TakeMutex? ==> !Fails(threads, mutexes, cpus, op)
  {
    if op.WaitMutex? && Fails(threads, mutexes, cpus, op) {
      var p := Prio(threads, cpus[op.cpu].thread.value);
      var n: nat :| HitsAt(threads, mutexes, op.mutex, p, n);
      NoHit(threads, mutexes, op.mutex, p, n);
    }
  }

  /** While free mutexes have the worst priority no lock fails. */
  lemma FreeWorstSafe(threads: Threads, mutexes: Mutexes, cpus: seq<Cpu>, op: Op)
    requires OnCpu(threads, cpus) && AllPlaced(threads) && FreeWorst(mutexes)
    ensures op.TakeMutex? ==> !Fails(threads, mutexes, cpus, op)
  {
    if op.TakeMutex? && op.cpu < |cpus| && cpus[op.cpu].thread.Some? {
      CurrentRuns(threads, cpus, op.cpu);
      assert Placed(threads[cpus[op.cpu].thread.value]);
    }
  }

  /** Nobody waits for a mutex without an owner, so recalculating gives it the worst priority. */
  lemma RecalcFreeWorst(threads: Threads, queues: Queues, mutexes: Mutexes, m: nat, p: nat)
    requires Inherited(threads, mutexes) && Linked(threads, queues) && AllPlaced(threads) && m in mutexes
    requires Q(queues, Lock(m)) == [] ==> p == MAX_PRIORITIES
    ensures FreeWorst(mutexes) ==> FreeWorst(mutexes[m := mutexes[m].(priority := p)])
  {
    if mutexes[m].owner.None? && Q(queues, Lock(m)) != [] {
      FirstBlocked(threads, queues, m);
      assert false;
    }
  }

  lemma {:induction false} NoHit(threads: Threads, mutexes: Mutexes, m: nat, p: nat, n: nat)
    requires Inherited(threads, mutexes) && m in mutexes && mutexes[m].owner.Some?
    ensures !HitsAt(threads, mutexes, m, p, n)
    decreases n
  {
    if n > 0 && NextMutex(threads, mutexes, m).Some? {
      var m' := NextMutex(threads, mutexes, m).value;
      assert m' in mutexes && mutexes[m'].owner.Some?;
      NoHit(threads, mutexes, m', p, n - 1);
    }
  }

  lemma MutexBound(threads: Threads, mutexes: Mutexes, m: nat)
    requires Owners(threads, mutexes) && m in mutexes
    ensures mutexes[m].priority <= MAX_PRIORITIES
  {
  }

  lemma CurrentRuns(threads: Threads, cpus: seq<Cpu>, c: nat)
    requires OnCpu(threads, cpus) && c < |cpus|
    ensures cpus[c].thread.Some? ==> cpus[c].thread.value in threads && threads[cpus[c].thread.value].state == Running
  {
  }

  lemma FreshThread(threads: Threads, mutexes: Mutexes, t: nat)
    requires Owners(threads, mutexes) && t !in threads
    ensures forall m :: m in mutexes ==> mutexes[m].owner != Some(t)
  {
  }

  /** The thread of c is the same after a wake-up, or it has given way. */
  lemma WokenCpu(s: Stage, s': Stage, c: nat, q: QueueId)
    requires WokeFirst(s, s', c, q)
    ensures |s'.cpus| == |s.cpus| && (s'.cpus[c].thread == s.cpus[c].thread || s'.cpus[c].thread.None?)
    ensures Q(s.queues, q) != [] && (!q.Run? ==> Q(s'.queues, q) == Q(s.queues, q)[1..])
  {
    hide Q;
  }

  lemma WokeTail(s: Stage, s': Stage, c: nat, q: QueueId)
    requires WokeFirst(s, s', c, q) && !q.Run?
    ensures Q(s'.queues, q) == Q(s.queues, q)[1..]
  {
    hide Q;
  }

  /** Joining the list of a mutex does not touch the other lists. */
  lemma JoinedLock(threads: Threads, queues: Queues, mid: Queues, queues': Queues, m: nat, t: nat)
    requires RunOrder(queues, mid) && SameSleepers(queues, mid) && JoinedByPriority(threads, mid, queues', Lock(m), t)
    ensures RunOrder(queues, queues') && SameSleepers(queues, queues')
  {
    hide SameOrder, InsertAt, Behind;
  }

  lemma NotWoken(threads: Threads, queues: Queues, cpus: seq<Cpu>, c: nat, t: nat)
    requires t in threads && threads[t].state != Sleeping && threads[t].state != Blocked
    ensures RunsAfterWake(threads, queues, queues, cpus, c, t)
  {
  }

  lemma FirstIsBest(threads: Threads, queues: Queues, m: nat)
    requires LocksSorted(threads, queues) && Q(queues, Lock(m)) != []
    ensures forall t :: t in Q(queues, Lock(m)) ==> Prio(threads, Q(queues, Lock(m))[0]) <= Prio(threads, t)
  {
    hide Q, Prio;
    var l := Q(queues, Lock(m));
    assert Sorted(threads, l);
    forall t | t in l ensures Prio(threads, l[0]) <= Prio(threads, t) {
      var i :| 0 <= i < |l| && l[i] == t;
    }
  }

  /** The threads that wait for a mutex are those on its list. */
  lemma WaitersListed(threads: Threads, queues: Queues, m: nat, t: nat)
    requires Linked(threads, queues) && AllPlaced(threads)
    ensures t in Q(queues, Lock(m)) <==> t in threads && threads[t].state == Blocked && threads[t].sleepOn == m
  {
    hide Q;
    assert t in Q(queues, Lock(m)) <==> On(threads, t, Lock(m));
    if t in threads { assert Placed(threads[t]); }
  }

  /** Giving up a mutex keeps the inequalities if and only if nobody is left waiting for it. */
  lemma ReleaseInherited(threads: Threads, mutexes: Mutexes, threads': Threads, queues': Queues, m: nat)
    requires Inherited(threads, mutexes) && Calm(threads, threads') && m in mutexes
    requires Linked(threads', queues') && AllPlaced(threads')
    ensures Inherited(threads', mutexes[m := mutexes[m].(owner := None)]) <==> Q(queues', Lock(m)) == []
  {
    hide Linked, AllPlaced;
    forall t: nat
      ensures t in Q(queues', Lock(m)) <==> t in threads' && threads'[t].state == Blocked && threads'[t].sleepOn == m
    {
      WaitersListed(threads', queues', m, t);
    }
    if Q(queues', Lock(m)) != [] {
      var t := Q(queues', Lock(m))[0];
      assert t in Q(queues', Lock(m));
    }
  }

  lemma RecalcInherited(threads: Threads, mutexes: Mutexes, threads': Threads, mutexes': Mutexes, queues: Queues,
                        t: nat, m: nat)
    requires Inherited(threads, mutexes) && m in mutexes && m in mutexes' && t in threads && t in threads'
    requires Linked(threads', queues) && AllPlaced(threads') && Owners(threads', mutexes')
    requires mutexes' == mutexes[m := mutexes[m].(priority := mutexes'[m].priority)]
    requires mutexes[m].priority <= MAX_PRIORITIES
    requires threads' == threads[t := threads[t].(priority := threads'[t].priority)] && threads[t].state != Blocked
    requires BestOf(threads', Q(queues, Lock(m)), mutexes'[m].priority)
    requires forall x :: x in threads'[t].owned ==> x in mutexes' && threads'[t].priority <= mutexes'[x].priority
    ensures Inherited(threads', mutexes')
  {
    forall u: nat
      ensures u in Q(queues, Lock(m)) <==> u in threads' && threads'[u].state == Blocked && threads'[u].sleepOn == m
    {
      WaitersListed(threads', queues, m, u);
    }
    assert mutexes[m].priority <= mutexes'[m].priority;
    forall x | x in mutexes' && mutexes'[x].owner == Some(t) ensures threads'[t].priority <= mutexes'[x].priority {
      assert Agree(threads', mutexes', t, x);
    }
    hide Linked, AllPlaced, Owners, Q;
  }

  lemma SortedBest(threads: Threads, l: seq<nat>, p: nat)
    requires Sorted(threads, l) && p == if l == [] then MAX_PRIORITIES else Prio(threads, l[0])
    ensures BestOf(threads, l, p)
  {
    if l != [] {
      forall u | u in l ensures p <= Prio(threads, u) {
        var i :| 0 <= i < |l| && l[i] == u;
      }
      assert l[0] in l;
    }
  }

  lemma BestOfFrame(threads: Threads, threads': Threads, l: seq<nat>, p: nat)
    requires BestOf(threads, l, p) && forall u :: u in l ==> Prio(threads', u) == Prio(threads, u)
    ensures BestOf(threads', l, p)
  {
    if l != [] {
      var u :| u in l && Prio(threads, u) == p;
      assert Prio(threads', u) == p;
    }
  }

  lemma FirstBlocked(threads: Threads, queues: Queues, m: nat)
    requires Linked(threads, queues) && AllPlaced(threads) && Q(queues, Lock(m)) != []
    ensures var w := Q(queues, Lock(m))[0];
      w in threads && threads[w].state == Blocked && threads[w].sleepOn == m && threads[w].priority < MAX_PRIORITIES
  {
    hide Q;
    var w := Q(queues, Lock(m))[0];
    assert w in Q(queues, Lock(m));
    assert On(threads, w, Lock(m)) && Placed(threads[w]);
  }

  lemma OwnedMutexes(threads: Threads, mutexes: Mutexes, t: nat)
    requires Owners(threads, mutexes) && t in threads
    ensures forall m :: m in threads[t].owned ==> m in mutexes && mutexes[m].owner == Some(t)
  {
    forall m | m in threads[t].owned ensures m in mutexes && mutexes[m].owner == Some(t) {
      assert Agree(threads, mutexes, t, m);
    }
  }

  datatype TryResult = Done | Deadlock | Again | Broken

  lemma PlacedOwned(th: Thread, l: seq<nat>)
    ensures Placed(th.(owned := l)) == Placed(th)
  {
  }

  lemma InheritedWaits(threads: Threads, mutexes: Mutexes, m: nat, p: nat)
    requires Inherited(threads, mutexes) && AllPlaced(threads)
    ensures Waits(threads, mutexes, m, p) && Owns(threads, mutexes, 0, MAX_PRIORITIES)
  {
  }

  lemma BehindBound(threads: Threads, l: seq<nat>, p: nat, k: nat)
    requires Behind(threads, l, p, k)
    ensures k <= |l|
  {
  }

  lemma LooseList(threads: Threads, queues: Queues, t: nat, m: nat)
    requires Linked(threads, queues) && LocksSorted(threads, queues) && t in threads && threads[t].link == None
    ensures t !in Q(queues, Lock(m)) && Sorted(threads, Q(queues, Lock(m)))
  {
    hide Q;
    assert !On(threads, t, Lock(m));
  }
}
