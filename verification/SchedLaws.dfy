/** Laws about runs of the scheduler: ready threads run in the order in which they became ready. */
module SchedLaws {
  import opened Arith
  import opened Lists
  import opened SchedState
  import opened Inheritance
  import opened SchedSteps

  // ---- One step ---------------------------------------------------------------------------------------

  /** A thread that is not ready is on no run queue. */
  lemma NotQueued(threads: Threads, queues: Queues, t: nat)
    requires Linked(threads, queues) && AllPlaced(threads) && t in threads && threads[t].state != Ready
    ensures forall r: nat :: t !in Q(queues, Run(r))
  {
    hide Q;
    assert Placed(threads[t]);
    forall r: nat ensures t !in Q(queues, Run(r)) { assert !On(threads, t, Run(r)); }
  }

  lemma CurrentNotQueued(s: Stage, c: nat, t: nat)
    requires Consistent(s) && c < |s.cpus| && s.cpus[c].thread == Some(t)
    ensures t in s.threads && s.threads[t].state == Running && forall r: nat :: t !in Q(s.queues, Run(r))
  {
    NotQueued(s.threads, s.queues, t);
  }

  lemma BackOrder(queues: Queues, queues': Queues, t: nat, p: nat)
    requires ReadyAtBack(queues, queues', t, p) && forall r: nat :: t !in Q(queues, Run(r))
    ensures RunOrder(queues, queues')
  {
    hide Q, SameOrder;
    forall r: nat ensures SameOrder(Q(queues, Run(r)), Q(queues', Run(r))) {
      var l := Q(queues, Run(r));
      AppendOrder(l, t);
      assert l + [] == l;
      SelfOrder(l);
    }
  }

  lemma SelfOrder(l: seq<nat>)
    ensures SameOrder(l, l)
  {
  }

  /** Threads that become ready join at the back. */
  lemma JoinedOrder(threads: Threads, queues: Queues, queues': Queues, cpus: seq<Cpu>, c: nat, t: nat)
    requires JoinedRuns(threads, queues, queues', cpus, c, t) && forall r: nat :: t !in Q(queues, Run(r))
    requires c < |cpus| && cpus[c].thread.Some? ==>
      cpus[c].thread.value != t && forall r: nat :: cpus[c].thread.value !in Q(queues, Run(r))
    ensures RunOrder(queues, queues') && forall r: nat, b: nat :: b in Q(queues, Run(r)) ==> b in Q(queues', Run(r))
  {
    hide Q, SameOrder;
    var woken := threads[t := Readied(threads[t])];
    forall r: nat ensures SameOrder(Q(queues, Run(r)), Q(queues', Run(r))) {
      var l := Q(queues, Run(r));
      var m := l + if r == Prio(threads, t) then [t] else [];
      AppendOrder(l, t);
      SelfOrder(l);
      assert l + [] == l;
      assert SameOrder(l, m);
      if GivesUp(woken, cpus, c, t) && r == Prio(woken, cpus[c].thread.value) {
        var cur := cpus[c].thread.value;
        AppendOrder(m, cur);
        OrderTrans(l, m, m + [cur]);
      } else {
        assert m + [] == m;
      }
    }
  }

  lemma WokeOrder(s: Stage, s': Stage, c: nat, q: QueueId)
    requires Linked(s.threads, s.queues) && AllPlaced(s.threads) && OnCpu(s.threads, s.cpus) && WokeFirst(s, s', c, q)
    ensures RunOrder(s.queues, s'.queues)
    ensures forall r: nat, b: nat :: b in Q(s.queues, Run(r)) ==> b in Q(s'.queues, Run(r))
  {
    var w := Q(s.queues, q)[0];
    NotQueued(s.threads, s.queues, w);
    if s.cpus[c].thread.Some? { NotQueued(s.threads, s.queues, s.cpus[c].thread.value); }
    hide Linked, AllPlaced, Q, JoinedRuns, Resumed;
    JoinedOrder(s.threads, s.queues, s'.queues, s.cpus, c, w);
  }

  lemma {:induction false} WakeRunOrder(ts: seq<Stage>, c: nat, q: QueueId, i: nat)
    requires WakeRun(ts, c, q) && i < |ts|
    ensures RunOrder(ts[0].queues, ts[i].queues)
    ensures forall r: nat, b: nat :: b in Q(ts[0].queues, Run(r)) ==> b in Q(ts[i].queues, Run(r))
  {
    hide WokeFirst, Q, SameOrder;
    if i == 0 {
      forall r: nat { SelfOrder(Q(ts[0].queues, Run(r))); }
    } else {
      WakeRunOrder(ts, c, q, i - 1);
      assert Consistent(ts[i - 1]);
      WokeOrder(ts[i - 1], ts[i], c, q);
      forall r: nat ensures SameOrder(Q(ts[0].queues, Run(r)), Q(ts[i].queues, Run(r))) {
        OrderTrans(Q(ts[0].queues, Run(r)), Q(ts[i - 1].queues, Run(r)), Q(ts[i].queues, Run(r)));
      }
    }
  }

  lemma WokeAllOrder(s: Stage, s': Stage, c: nat, q: QueueId)
    requires WokeAll(s, s', c, q)
    ensures RunOrder(s.queues, s'.queues)
  {
    hide WokeFirst, Consistent, RunOrder;
    var ts :| WakeRun(ts, c, q) && ts[0] == s && ts[|ts| - 1] == s';
    WakeRunOrder(ts, c, q, |ts| - 1);
  }

  lemma DispatchOrder(s: Stage, s': Stage, c: nat, t: nat)
    requires Dispatched(s, s', c, t)
    ensures RunOrder(s.queues, s'.queues)
  {
    hide Q, SameOrder;
    var p := s.threads[t].priority;
    TailOrder(Q(s.queues, Run(p)), Q(s'.queues, Run(p)), t);
    forall r: nat ensures SameOrder(Q(s.queues, Run(r)), Q(s'.queues, Run(r))) { SelfOrder(Q(s.queues, Run(r))); }
  }

  lemma GaveUpOrder(s: Stage, s': Stage, c: nat, m: nat, t: nat)
    requires Consistent(s) && GaveUp(s, s', c, m, t)
    ensures RunOrder(s.queues, s'.queues)
  {
    hide WokeFirst, LocksSorted, Owners;
    var s1 := s.(threads := s.threads[t := s.threads[t].(owned := Remove(s.threads[t].owned, m))],
                 mutexes := s.mutexes[m := s.mutexes[m].(owner := None)]);
    if Q(s.queues, Lock(m)) == [] {
      RunOrderSelf(s.queues);
    } else {
      LinkedSame(s.threads, s.queues, t, s1.threads[t]);
      PlacedOne(s.threads, t, s1.threads[t]);
      CpuSame(s.threads, s.cpus, t, s1.threads[t]);
      WokeOrder(s1, s', c, Lock(m));
    }
  }

  lemma StartOrder(s: Stage, s': Stage, c: nat, t: nat)
    requires Consistent(s) && c < |s.cpus| && t in s.threads
    requires s.threads[t].state != Ready && s.threads[t].state != Running
    requires JoinedRuns(s.threads, s.queues, s'.queues, s.cpus, c, t)
    ensures RunOrder(s.queues, s'.queues)
  {
    NotQueued(s.threads, s.queues, t);
    if s.cpus[c].thread.Some? { CurrentNotQueued(s, c, s.cpus[c].thread.value); }
    hide Consistent, Q, JoinedRuns;
    JoinedOrder(s.threads, s.queues, s'.queues, s.cpus, c, t);
  }

  lemma JoinWaitOrder(threads: Threads, queues: Queues, queues': Queues, chan: nat, t: nat)
    requires JoinedByPriority(threads, queues, queues', Wait(chan), t)
    ensures RunOrder(queues, queues')
  {
    hide Behind, InsertAt;
    SameRuns(queues, queues');
  }

  lemma YieldOrder(s: Stage, s': Stage, c: nat, t: nat, p: nat)
    requires Consistent(s) && c < |s.cpus| && s.cpus[c].thread == Some(t) && ReadyAtBack(s.queues, s'.queues, t, p)
    ensures RunOrder(s.queues, s'.queues)
  {
    CurrentNotQueued(s, c, t);
    hide Consistent;
    BackOrder(s.queues, s'.queues, t, p);
  }

  /** In no step does a thread overtake another in a run queue. */
  lemma DoesOrder(s: Stage, op: Op, s': Stage)
    requires Consistent(s) && Does(s, op, s')
    ensures RunOrder(s.queues, s'.queues)
  {
    hide Consistent, RunOrder, ReadyAtBack, JoinedRuns, Resumed, GaveWay, WokeFirst, WokeAll, GaveUp, Dispatched,
      SameWaiters, JoinedByPriority, Boosted, BoostedTo, LastOfEquals, LeftQueue, BestOf;
    RunOrderSelf(s.queues);
    match op
    case Start(c, t) =>
      if c < |s.cpus| && t in s.threads && s.threads[t].state == Suspended { StartOrder(s, s', c, t); }
    case YieldCpu(c) =>
      if Busy(s, c) { YieldOrder(s, s', c, s.cpus[c].thread.value, Prio(s.threads, s.cpus[c].thread.value)); }
    case Quit(c) => if Busy(s, c) { SameRuns(s.queues, s'.queues); }
    case SleepOn(c, chan) =>
      if Busy(s, c) && s.cpus[c].lockCount == 0 && chan.Some? {
        JoinWaitOrder(s.threads, s.queues, s'.queues, chan.value, s.cpus[c].thread.value);
      }
    case Interrupt(c, t) =>
      if c < |s.cpus| && t in s.threads && (s.threads[t].state == Sleeping || s.threads[t].state == Blocked) {
        StartOrder(s, s', c, t);
      }
    case Wake(c, chan) =>
      if c < |s.cpus| && Q(s.queues, Wait(chan)) != [] {
        ConsistentParts(s);
        WokeOrder(s, s', c, Wait(chan));
      }
    case WakeEvery(c, chan) => if c < |s.cpus| { WokeAllOrder(s, s', c, Wait(chan)); }
    case Next(c) =>
      if c < |s.cpus| && s.cpus[c].thread.None? && (exists t :: t in s.threads && s.threads[t].state == Ready) {
        var t :| Dispatched(s, s', c, t);
        DispatchOrder(s, s', c, t);
      }
    case LeaveIrq(c) =>
      if c < |s.cpus| && s.cpus[c].lockCount == 1 && s.cpus[c].thread.Some? {
        var t := s.cpus[c].thread.value;
        if t in s.threads && s.threads[t].reschedule { YieldOrder(s, s', c, t, Prio(s.threads, t)); }
      }
    case DropMutex(c, m) =>
      if Busy(s, c) && m in s.mutexes && s.mutexes[m].owner == s.cpus[c].thread {
        GaveUpOrder(s, s', c, m, s.cpus[c].thread.value);
      }
    case _ =>
  }

  lemma ConsistentParts(s: Stage)
    requires Consistent(s)
    ensures Linked(s.threads, s.queues) && AllPlaced(s.threads) && OnCpu(s.threads, s.cpus)
  {
  }

  // ---- Every run -----------------------------------------------------------------------------------------

  /** Thread a is on the run queue of priority r in all states from i to k. */
  ghost predicate Queues(trace: seq<Stage>, r: nat, i: nat, k: nat, a: nat)
    requires k < |trace|
  {
    forall m :: i <= m <= k ==> a in Q(trace[m].queues, Run(r))
  }

  /** What stands in front of a ready thread now has stood in front of it all along. */
  lemma {:induction false} NoOvertaking(trace: seq<Stage>, ops: seq<Op>, r: nat, i: nat, k: nat, a: nat, x: nat)
    requires IsRun(trace, ops) && i <= k < |trace| && Queues(trace, r, i, k, a)
    requires Ahead(Q(trace[k].queues, Run(r)), x, a)
    ensures Ahead(Q(trace[i].queues, Run(r)), x, a)
    decreases k - i
  {
    hide Does, Ahead, Consistent, Fails, Q;
    if i < k {
      DoesOrder(trace[k - 1], ops[k - 1], trace[k]);
      assert SameOrder(Q(trace[k - 1].queues, Run(r)), Q(trace[k].queues, Run(r)));
      NoOvertaking(trace, ops, r, i, k - 1, a, x);
    }
  }

  /**
   * The thread that gets a processor has the best priority; and of its equals it is the one that
   * has been ready longest: any that has been ready since state i had it in front of itself then.
   */
  lemma OldestRuns(trace: seq<Stage>, ops: seq<Op>, c: nat, i: nat, k: nat, a: nat, r: nat) returns (t: nat)
    requires IsRun(trace, ops) && i <= k < |ops| && ops[k] == Next(c) && c < |trace[k].cpus|
    requires trace[k].cpus[c].thread.None? && Queues(trace, r, i, k, a)
    ensures Dispatched(trace[k], trace[k + 1], c, t) && trace[k].threads[t].priority <= r
    ensures trace[k].threads[t].priority == r && t != a ==> Ahead(Q(trace[i].queues, Run(r)), t, a)
  {
    var s := trace[k];
    assert Does(trace[k], ops[k], trace[k + 1]) && Consistent(s);
    ReadyOn(s, a, r);
    t :| Dispatched(s, trace[k + 1], c, t);
    hide IsRun, Consistent;
    if s.threads[t].priority == r && t != a {
      AheadHead(t, Q(trace[k + 1].queues, Run(r)), a);
      NoOvertaking(trace, ops, r, i, k, a, t);
    }
  }

  lemma ReadyOn(s: Stage, a: nat, r: nat)
    requires Consistent(s) && a in Q(s.queues, Run(r))
    ensures a in s.threads && s.threads[a].state == Ready && s.threads[a].priority == r
  {
    hide Q;
    assert On(s.threads, a, Run(r)) && Placed(s.threads[a]);
  }

  /** A thread whose slice is over stands behind all its equals at the end of the interrupt. */
  lemma SliceOver(s: Stage, s': Stage, c: nat, t: nat, b: nat)
    requires Consistent(s) && Does(s, LeaveIrq(c), s') && c < |s.cpus| && s.cpus[c] == Cpu(Some(t), 1)
    requires t in s.threads && s.threads[t].reschedule && b in Q(s.queues, Run(s.threads[t].priority))
    ensures Ahead(Q(s'.queues, Run(s.threads[t].priority)), b, t)
  {
    var p := s.threads[t].priority;
    var l := Q(s.queues, Run(p));
    hide Consistent, Q;
    assert Q(s'.queues, Run(p)) == l + [t];
    var i :| 0 <= i < |l| && l[i] == b;
    assert (l + [t])[i] == b && (l + [t])[|l|] == t;
  }

  /** Waking all threads of a list leaves each of them ready or still on the list. */
  lemma WokeAllReady(s: Stage, s': Stage, c: nat, q: QueueId, t: nat)
    requires WokeAll(s, s', c, q) && !q.Run? && t in Q(s.queues, q)
    ensures t in Q(s'.queues, q) || (t in s'.threads && s'.threads[t].state == Ready)
  {
    hide WokeFirst, Consistent;
    var ts :| WakeRun(ts, c, q) && ts[0] == s && ts[|ts| - 1] == s';
    WakeRunReady(ts, c, q, |ts| - 1, t);
  }

  lemma {:induction false} WakeRunReady(ts: seq<Stage>, c: nat, q: QueueId, i: nat, t: nat)
    requires WakeRun(ts, c, q) && !q.Run? && i < |ts| && t in Q(ts[0].queues, q)
    ensures t in Q(ts[i].queues, q) || (t in ts[i].threads && ts[i].threads[t].state == Ready)
  {
    hide Consistent, Q, WokeFirst;
    if i > 0 {
      WakeRunReady(ts, c, q, i - 1, t);
      assert WokeFirst(ts[i - 1], ts[i], c, q);
      WokeReady(ts[i - 1], ts[i], c, q, t);
    }
  }

  lemma WokeReady(s: Stage, s': Stage, c: nat, q: QueueId, t: nat)
    requires WokeFirst(s, s', c, q) && !q.Run?
    requires t in Q(s.queues, q) || (t in s.threads && s.threads[t].state == Ready)
    ensures t in Q(s'.queues, q) || (t in s'.threads && s'.threads[t].state == Ready)
  {
    hide Resumed, RunsAfterWake;
    var w := Q(s.queues, q)[0];
    ResumedReady(s.threads, s'.threads, s.cpus, s'.cpus, c, w);
    assert Q(s.queues, q) == [w] + Q(s'.queues, q);
  }
}
