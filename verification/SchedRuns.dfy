/** Runs from an empty system in which the two assertions of the mutex code fail. */
module SchedRuns {
  import opened Arith
  import opened Lists
  import opened SchedState
  import opened Inheritance
  import opened SchedSteps
  import opened Sched

  function Active(priority: nat, c: nat): Thread {
    Thread(Running, priority, priority, None, 0, c, false, [])
  }

  /** No thread waits for a processor. */
  ghost predicate NoneReady(threads: Threads) {
    forall t :: t in threads ==> threads[t].state != Ready
  }

  /** Create a thread and let it run on a free processor. */
  method Spawn(s: Scheduler, c: nat, t: nat, p: nat)
    requires s.Valid() && c < |s.cpus| && s.cpus[c] == Cpu(None, 0) && t !in s.threads && p < MAX_PRIORITIES
    requires NoneReady(s.threads)
    modifies s
    ensures s.Valid() && s.threads == old(s.threads)[t := Active(p, c)] && s.mutexes == old(s.mutexes)
    ensures s.cpus == old(s.cpus)[c := Cpu(Some(t), 0)] && NoneReady(s.threads)
    ensures old(Inherited(s.threads, s.mutexes)) ==> Inherited(s.threads, s.mutexes)
  {
    hide Linked, LocksSorted, AllPlaced, OnCpu, Calm, Inherited;
    SpawnInherited(s.threads, s.mutexes, t, p, c);
    FreshThread(s.threads, s.mutexes, t);
    hide Owners;
    s.Create(t, p);
    var ok := s.ResumeThread(c, t);
    assert s.threads[t] == Readied(NewThread(p)) && s.cpus == old(s.cpus);
    assert s.threads == old(s.threads)[t := s.threads[t]];
    var r := s.Dispatch(c);
    assert r == Some(t);
    assert s.threads == old(s.threads)[t := s.threads[t]];
  }

  lemma SpawnInherited(threads: Threads, mutexes: Mutexes, t: nat, p: nat, c: nat)
    requires t !in threads
    ensures Inherited(threads, mutexes) ==> Inherited(threads[t := Active(p, c)], mutexes)
  {
    hide Inherited;
    CalmOne(threads, t, Active(p, c));
    if Inherited(threads, mutexes) { CalmInherited(threads, threads[t := Active(p, c)], mutexes); }
  }

  // ---- Waiting for a mutex whose owner runs ---------------------------------------------------------

  lemma {:induction false} ChainEnds(threads: Threads, mutexes: Mutexes, m: nat, n: nat)
    requires NextMutex(threads, mutexes, m).None? && n > 0
    ensures Nth(threads, mutexes, m, n) == None
  {
    if n > 1 {
      ChainEnds(threads, mutexes, m, n - 1);
    } else {
      assert Nth(threads, mutexes, m, 0) == Some(m);
    }
  }

  lemma OneLink(threads: Threads, mutexes: Mutexes, m: nat, x: nat)
    requires NextMutex(threads, mutexes, m).None? && OnChain(threads, mutexes, m, x)
    ensures x == m
  {
    var n: nat :| Nth(threads, mutexes, m, n) == Some(x);
    if n > 0 { ChainEnds(threads, mutexes, m, n); }
  }

  function Better(p: nat, q: nat): nat {
    if p < q then p else q
  }

  /** A boost of a mutex whose owner does not wait changes that mutex and its owner. */
  lemma BoostOwner(threads: Threads, mutexes: Mutexes, threads': Threads, mutexes': Mutexes, m: nat, p: nat)
    requires Boosted(threads, mutexes, threads', mutexes', m, p) && m in mutexes && mutexes[m].owner.Some?
    requires mutexes[m].owner.value in threads && threads[mutexes[m].owner.value].state == Running
    requires threads'[mutexes[m].owner.value].priority <= p && mutexes'[m].priority <= p
    ensures var o := mutexes[m].owner.value;
      && mutexes' == mutexes[m := mutexes[m].(priority := Better(p, mutexes[m].priority))]
      && threads' == threads[o := threads[o].(priority := Better(p, threads[o].priority))]
  {
    forall x: nat | OnChain(threads, mutexes, m, x) ensures x == m { OneLink(threads, mutexes, m, x); }
    hide OnChain;
    assert forall t: nat :: OwnsOnChain(threads, mutexes, m, t) ==> mutexes[m].owner == Some(t);
  }

  /** The thread that c runs waits for a mutex whose owner runs on another processor. */
  method BlockOn(s: Scheduler, c: nat, m: nat, ghost t: nat, ghost o: nat)
    requires s.Valid() && Inherited(s.threads, s.mutexes) && m in s.mutexes && c < |s.cpus|
    requires s.cpus[c] == Cpu(Some(t), 0) && t in s.threads && o in s.threads && o != t
    requires s.mutexes[m].owner == Some(o) && s.threads[o].state == Running
    modifies s
    ensures s.Valid() && Inherited(s.threads, s.mutexes) && s.cpus == old(s.cpus)[c := Cpu(None, 0)]
    ensures var p := old(s.threads)[t].priority;
      && s.mutexes == old(s.mutexes)[m := old(s.mutexes)[m].(priority := Better(p, old(s.mutexes)[m].priority))]
      && s.threads == old(s.threads)
          [o := old(s.threads)[o].(priority := Better(p, old(s.threads)[o].priority))]
          [t := old(s.threads)[t].(state := Blocked, sleepOn := m, link := Some(Lock(m)))]
    ensures LastOfEquals(s.threads, Q(s.queues, Lock(m)), t)
  {
    hide Linked, LocksSorted, AllPlaced, OnCpu, Owners, Boosted, Inherited, Hits, LastOfEquals, Q;
    ghost var p := s.threads[t].priority;
    ghost var threads, mutexes := s.threads, s.mutexes;
    var ok := s.Block(c, m);
    assert ok;
    ghost var mid := s.threads[t := threads[t]];
    ChainHead(threads, mutexes, m);
    hide OnChain, OwnsOnChain;
    BoostOwner(threads, mutexes, mid, s.mutexes, m, p);
    assert s.threads == mid[t := s.threads[t]];
  }

  // ---- A lock that fails -----------------------------------------------------------------------------

  /**
   * Thread 1 holds the mutex at a priority that threads 2 and 3 have lent it.  It unlocks, gets its
   * own priority back, and is the first to lock again: one waiter is left, whose priority the mutex
   * has, and the assertion on priorities fails.
   */
  method LockAfterUnlock() returns (r: TryResult)
    ensures r == Broken
  {
    hide Linked, LocksSorted, AllPlaced, OnCpu, Owners, Inherited, LastOfEquals, BestOf;
    var s := TwoWaiters(10, 5);
    ghost var l := Q(s.queues, Lock(0));
    WaitersListed(s.threads, s.queues, 0, 2);
    WaitersListed(s.threads, s.queues, 0, 3);
    TwoIn(l, 2, 3);
    ghost var w := l[0];
    WaitersListed(s.threads, s.queues, 0, w);
    s.Release(0, 0);
    assert s.cpus[0].thread == Some(1) && s.threads[1].owned == [] && s.threads[1].saved == 10;
    s.Recalculate(0, 0);
    forall u: nat | u in Q(s.queues, Lock(0)) ensures Prio(s.threads, u) == 5 {
      WaitersListed(s.threads, s.queues, 0, u);
    }
    BestOfEquals(s.threads, Q(s.queues, Lock(0)), s.mutexes[0].priority, 5);
    r := s.TryLock(0, 0);
  }

  lemma TwoIn(l: seq<nat>, x: nat, y: nat)
    requires x in l && y in l && x != y
    ensures |l| >= 2 && l[1..] != []
  {
  }

  lemma BestOfEquals(threads: Threads, l: seq<nat>, p: nat, q: nat)
    requires BestOf(threads, l, p) && l != [] && forall u: nat :: u in l ==> Prio(threads, u) == q
    ensures p == q
  {
  }

  /** Thread 1 holds mutex 0, threads 2 and 3 wait for it in this order. */
  method TwoWaiters(p: nat, q: nat) returns (s: Scheduler)
    requires q <= p < MAX_PRIORITIES
    ensures fresh(s) && s.Valid() && Inherited(s.threads, s.mutexes)
    ensures |s.cpus| == 3 && s.cpus[0] == Cpu(Some(1), 0) && s.cpus[1] == s.cpus[2] == Cpu(None, 0)
    ensures s.mutexes == map[0 := Mutex(Some(1), q)]
    ensures s.threads == map[
      1 := Active(p, 0).(priority := q, owned := [0]),
      2 := Active(q, 1).(state := Blocked, link := Some(Lock(0))),
      3 := Active(q, 2).(state := Blocked, link := Some(Lock(0)))]
    ensures LastOfEquals(s.threads, Q(s.queues, Lock(0)), 3)
  {
    hide Linked, LocksSorted, AllPlaced, OnCpu, Owners, Inherited, LastOfEquals, Q;
    s := ThreeThreads(p, q);
    BlockOn(s, 1, 0, 2, 1);
    BlockOn(s, 2, 0, 3, 1);
    assert s.threads.Keys == {1, 2, 3} && s.mutexes.Keys == {0};
  }

  /** Three threads run and the first holds mutex 0. */
  method ThreeThreads(p: nat, q: nat) returns (s: Scheduler)
    requires q <= p < MAX_PRIORITIES
    ensures fresh(s) && s.Valid() && Inherited(s.threads, s.mutexes)
    ensures s.cpus == [Cpu(Some(1), 0), Cpu(Some(2), 0), Cpu(Some(3), 0)]
    ensures s.mutexes == map[0 := Mutex(Some(1), MAX_PRIORITIES)]
    ensures s.threads == map[1 := Active(p, 0).(owned := [0]), 2 := Active(q, 1), 3 := Active(q, 2)]
  {
    hide Linked, LocksSorted, AllPlaced, OnCpu, Owners, Inherited, NoneReady;
    s := new Scheduler(3);
    assert NoneReady(s.threads) by { assert s.threads == map[]; Nobody(); }
    Spawn(s, 0, 1, p);
    Spawn(s, 1, 2, q);
    Spawn(s, 2, 3, q);
    s.CreateMutex(0);
    var r := s.TryLock(0, 0);
    assert r == Done && s.threads[1].owned == [0];
  }

  lemma Nobody()
    ensures NoneReady(map[])
  {
  }

  // ---- A boost that fails ----------------------------------------------------------------------------

  /**
   * Threads 3 and 2 wait for mutex 0 in this order.  Its owner unlocks and thread 3 is woken but
   * has not run yet, so the mutex has no owner while thread 2 still waits for it.  A better thread
   * now waits for the mutex that thread 2 holds: the boost goes on to mutex 0, where the assertion
   * on its owner fails.
   */
  method BoostAfterUnlock() returns (ok: bool)
    ensures !ok
  {
    hide Linked, LocksSorted, AllPlaced, OnCpu, Owners, Inherited, Boosted, BoostedTo;
    var s := Entangled();
    ghost var l := Q(s.queues, Lock(0));
    WaitersListed(s.threads, s.queues, 0, 2);
    WaitersListed(s.threads, s.queues, 0, 3);
    TwoIn(l, 2, 3);
    WaitersListed(s.threads, s.queues, 0, l[0]);
    FirstOfEquals(s.threads, l, 3, 2);
    assert l[0] == 3;
    hide LastOfEquals;
    s.Release(0, 0);
    assert s.cpus[3] == Cpu(Some(4), 0) && s.mutexes[0].owner == None;
    assert s.threads[2].state == Blocked && s.threads[2].sleepOn == 0 && s.threads[2].priority == 20;
    assert HitsAt(s.threads, s.mutexes, 0, 5, 0);
    assert HitsAt(s.threads, s.mutexes, 1, 5, 1);
    ok := s.Block(3, 1);
  }

  /** Of two threads of the same priority the one that came last does not stand first. */
  lemma FirstOfEquals(threads: Threads, l: seq<nat>, x: nat, y: nat)
    requires LastOfEquals(threads, l, y) && x in l && x != y && Prio(threads, x) == Prio(threads, y)
    ensures l[0] != y
  {
    var i :| 0 <= i < |l| && l[i] == x;
  }

  /**
   * Thread 1 holds mutex 0, thread 2 holds mutex 1, threads 3 and 2 wait for mutex 0, and thread
   * 4 is better than all.
   */
  method Entangled() returns (s: Scheduler)
    ensures fresh(s) && s.Valid()
    ensures |s.cpus| == 4 && s.cpus[0] == Cpu(Some(1), 0) && s.cpus[3] == Cpu(Some(4), 0)
    ensures s.mutexes == map[0 := Mutex(Some(1), 20), 1 := Mutex(Some(2), MAX_PRIORITIES)]
    ensures s.threads == map[
      1 := Active(20, 0).(owned := [0]),
      2 := Active(20, 1).(state := Blocked, link := Some(Lock(0)), owned := [1]),
      3 := Active(20, 2).(state := Blocked, link := Some(Lock(0))),
      4 := Active(5, 3)]
    ensures LastOfEquals(s.threads, Q(s.queues, Lock(0)), 2)
  {
    hide Linked, LocksSorted, AllPlaced, OnCpu, Owners, Inherited, LastOfEquals, Q;
    s := TwoHolders();
    BlockOn(s, 2, 0, 3, 1);
    BlockOn(s, 1, 0, 2, 1);
    assert s.threads.Keys == {1, 2, 3, 4} && s.mutexes.Keys == {0, 1};
  }

  /** Four threads run, and the first two hold a mutex each. */
  method TwoHolders() returns (s: Scheduler)
    ensures fresh(s) && s.Valid() && Inherited(s.threads, s.mutexes)
    ensures s.cpus == [Cpu(Some(1), 0), Cpu(Some(2), 0), Cpu(Some(3), 0), Cpu(Some(4), 0)]
    ensures s.mutexes == map[0 := Mutex(Some(1), MAX_PRIORITIES), 1 := Mutex(Some(2), MAX_PRIORITIES)]
    ensures s.threads == map[
      1 := Active(20, 0).(owned := [0]), 2 := Active(20, 1).(owned := [1]), 3 := Active(20, 2), 4 := Active(5, 3)]
  {
    hide Linked, LocksSorted, AllPlaced, OnCpu, Owners, Inherited;
    s := FourThreads();
    var r := s.TryLock(0, 0);
    assert r == Done && s.threads[1].owned == [0];
    r := s.TryLock(1, 1);
    assert r == Done && s.threads[2].owned == [1];
  }

  method FourThreads() returns (s: Scheduler)
    ensures fresh(s) && s.Valid() && Inherited(s.threads, s.mutexes)
    ensures s.cpus == [Cpu(Some(1), 0), Cpu(Some(2), 0), Cpu(Some(3), 0), Cpu(Some(4), 0)]
    ensures s.mutexes == map[0 := Mutex(None, MAX_PRIORITIES), 1 := Mutex(None, MAX_PRIORITIES)]
    ensures s.threads == map[1 := Active(20, 0), 2 := Active(20, 1), 3 := Active(20, 2), 4 := Active(5, 3)]
  {
    hide Linked, LocksSorted, AllPlaced, OnCpu, Owners, Inherited, NoneReady;
    s := new Scheduler(4);
    assert NoneReady(s.threads) by { assert s.threads == map[]; Nobody(); }
    Spawn(s, 0, 1, 20);
    Spawn(s, 1, 2, 20);
    Spawn(s, 2, 3, 20);
    Spawn(s, 3, 4, 5);
    s.CreateMutex(0);
    s.CreateMutex(1);
  }
}
