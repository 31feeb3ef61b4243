/**
 * Priority inheritance.  A smaller value is a better priority.  The graph of who waits for whom
 * may have cycles: a deadlock is a cycle of threads and mutexes.
 */
module Inheritance {
  import opened Arith
  import opened Lists
  import opened SchedState

  type Mutexes = map<nat, Mutex>

  // ---- The inequalities ----------------------------------------------------------------------

  /**
   * Mutexes that are waited for have an owner and a priority as good as each waiter's; waiters
   * of m0 may have p instead.
   */
  ghost predicate Waits(threads: Threads, mutexes: Mutexes, m0: nat, p: nat) {
    forall t :: t in threads && threads[t].state == Blocked ==>
      var m := threads[t].sleepOn;
      m in mutexes && mutexes[m].owner.Some? &&
        (mutexes[m].priority <= threads[t].priority || (m == m0 && p <= threads[t].priority))
  }

  /** Owners have a priority as good as their mutexes'; mutexes of t0 may have p instead. */
  ghost predicate Owns(threads: Threads, mutexes: Mutexes, t0: nat, p: nat) {
    forall m :: m in mutexes && mutexes[m].owner.Some? ==>
      var t := mutexes[m].owner.value;
      t in threads && (threads[t].priority <= mutexes[m].priority || (t == t0 && p <= mutexes[m].priority))
  }

  /** Every waited-for mutex has an owner, and owner <= mutex <= waiter in priority value. */
  ghost predicate Inherited(threads: Threads, mutexes: Mutexes) {
    Waits(threads, mutexes, 0, MAX_PRIORITIES) && Owns(threads, mutexes, 0, MAX_PRIORITIES)
  }

  // ---- The chain of owners ----------------------------------------------------------------------

  /** The mutex that the owner of m waits for. */
  ghost function NextMutex(threads: Threads, mutexes: Mutexes, m: nat): Option<nat> {
    if m in mutexes && mutexes[m].owner.Some? && mutexes[m].owner.value in threads
      && threads[mutexes[m].owner.value].state == Blocked
    then Some(threads[mutexes[m].owner.value].sleepOn) else None
  }

  ghost function Nth(threads: Threads, mutexes: Mutexes, m: nat, n: nat): Option<nat> {
    if n == 0 then Some(m)
    else
      var r := Nth(threads, mutexes, m, n - 1);
      if r.None? then None else NextMutex(threads, mutexes, r.value)
  }

  ghost predicate OnChain(threads: Threads, mutexes: Mutexes, m: nat, x: nat) {
    exists n: nat :: Nth(threads, mutexes, m, n) == Some(x)
  }

  ghost predicate OwnsOnChain(threads: Threads, mutexes: Mutexes, m: nat, t: nat) {
    exists x :: x in mutexes && mutexes[x].owner == Some(t) && OnChain(threads, mutexes, m, x)
  }

  /** The same threads wait for the same mutexes with the same owners. */
  ghost predicate SameGraph(threads: Threads, mutexes: Mutexes, threads': Threads, mutexes': Mutexes) {
    && threads'.Keys == threads.Keys && mutexes'.Keys == mutexes.Keys
    && (forall t :: t in threads ==> threads'[t].state == threads[t].state && threads'[t].sleepOn == threads[t].sleepOn)
    && (forall m :: m in mutexes ==> mutexes'[m].owner == mutexes[m].owner)
  }

  /** Only mutexes on the chain from m, and their owners, changed, and only from worse than p to p. */
  ghost predicate Boosted(threads: Threads, mutexes: Mutexes, threads': Threads, mutexes': Mutexes, m: nat, p: nat) {
    && threads'.Keys == threads.Keys && mutexes'.Keys == mutexes.Keys
    && (forall x :: x in mutexes ==>
          || mutexes'[x] == mutexes[x]
          || (mutexes[x].priority > p && mutexes'[x] == mutexes[x].(priority := p) && OnChain(threads, mutexes, m, x)))
    && (forall t :: t in threads ==>
          || threads'[t] == threads[t]
          || (threads[t].priority > p && threads'[t] == Lowered(threads[t], p) && OwnsOnChain(threads, mutexes, m, t)))
  }

  lemma BoostedGraph(threads: Threads, mutexes: Mutexes, threads': Threads, mutexes': Mutexes, m: nat, p: nat)
    requires Boosted(threads, mutexes, threads', mutexes', m, p)
    ensures SameGraph(threads, mutexes, threads', mutexes')
  {
    hide OnChain, OwnsOnChain;
  }

  lemma {:induction false} NthSame(threads: Threads, mutexes: Mutexes, threads': Threads, mutexes': Mutexes, m: nat,
                                   n: nat)
    requires SameGraph(threads, mutexes, threads', mutexes')
    ensures Nth(threads', mutexes', m, n) == Nth(threads, mutexes, m, n)
  {
    if n > 0 { NthSame(threads, mutexes, threads', mutexes', m, n - 1); }
  }

  lemma {:induction false} NthShift(threads: Threads, mutexes: Mutexes, m: nat, m': nat, n: nat)
    requires NextMutex(threads, mutexes, m) == Some(m')
    ensures Nth(threads, mutexes, m', n) == Nth(threads, mutexes, m, n + 1)
  {
    if n > 0 {
      NthShift(threads, mutexes, m, m', n - 1);
    } else {
      assert Nth(threads, mutexes, m, 0) == Some(m);
    }
  }

  lemma ChainShift(threads: Threads, mutexes: Mutexes, threads': Threads, mutexes': Mutexes, m: nat, m': nat)
    requires SameGraph(threads, mutexes, threads', mutexes') && NextMutex(threads, mutexes, m) == Some(m')
    ensures forall x: nat :: OnChain(threads', mutexes', m', x) ==> OnChain(threads, mutexes, m, x)
    ensures forall t: nat :: OwnsOnChain(threads', mutexes', m', t) ==> OwnsOnChain(threads, mutexes, m, t)
  {
    forall x: nat | OnChain(threads', mutexes', m', x) ensures OnChain(threads, mutexes, m, x) {
      var n: nat :| Nth(threads', mutexes', m', n) == Some(x);
      NthSame(threads, mutexes, threads', mutexes', m', n);
      NthShift(threads, mutexes, m, m', n);
    }
    hide OnChain;
  }

  lemma ChainHead(threads: Threads, mutexes: Mutexes, m: nat)
    ensures OnChain(threads, mutexes, m, m)
    ensures m in mutexes && mutexes[m].owner.Some? ==> OwnsOnChain(threads, mutexes, m, mutexes[m].owner.value)
  {
    assert Nth(threads, mutexes, m, 0) == Some(m);
  }

  /** Boosting m and its owner, then the rest of the chain. */
  lemma BoostedTrans(threads: Threads, mutexes: Mutexes, threads1: Threads, mutexes1: Mutexes, threads2: Threads,
                     mutexes2: Mutexes,
                     m: nat, m': nat, p: nat)
    requires Boosted(threads, mutexes, threads1, mutexes1, m, p) && NextMutex(threads, mutexes, m) == Some(m')
    requires Boosted(threads1, mutexes1, threads2, mutexes2, m', p)
    ensures Boosted(threads, mutexes, threads2, mutexes2, m, p)
  {
    BoostedGraph(threads, mutexes, threads1, mutexes1, m, p);
    ChainShift(threads, mutexes, threads1, mutexes1, m, m');
    hide OnChain, OwnsOnChain;
  }

  // ---- Everything on the chain is reached --------------------------------------------------------

  /** When the inequalities hold, a boosted mutex has boosted everything it waits for, cycles included. */
  lemma {:induction false} ChainBounded(threads: Threads, mutexes: Mutexes, m: nat, p: nat, n: nat)
    requires Inherited(threads, mutexes) && m in mutexes && mutexes[m].priority <= p < MAX_PRIORITIES
    ensures var r := Nth(threads, mutexes, m, n);
      r.Some? ==>
        && r.value in mutexes && mutexes[r.value].priority <= p
        && (mutexes[r.value].owner.Some? ==>
             mutexes[r.value].owner.value in threads && threads[mutexes[r.value].owner.value].priority <= p)
  {
    if n > 0 { ChainBounded(threads, mutexes, m, p, n - 1); }
  }

  /**
   * So boosting gives each mutex on the chain, and each owner, the better of its old priority
   * and p, and nothing else changes.
   */
  lemma BoostExact(threads: Threads, mutexes: Mutexes, threads': Threads, mutexes': Mutexes, m: nat, p: nat)
    requires Boosted(threads, mutexes, threads', mutexes', m, p) && Inherited(threads', mutexes')
    requires m in mutexes' && mutexes'[m].priority <= p < MAX_PRIORITIES
    ensures forall x :: x in mutexes ==>
      mutexes'[x].priority ==
        if OnChain(threads, mutexes, m, x) && p < mutexes[x].priority then p else mutexes[x].priority
    ensures forall t :: t in threads ==>
      threads'[t].priority ==
        if OwnsOnChain(threads, mutexes, m, t) && p < threads[t].priority then p else threads[t].priority
  {
    BoostedGraph(threads, mutexes, threads', mutexes', m, p);
    forall x | x in mutexes && OnChain(threads, mutexes, m, x)
      ensures mutexes'[x].priority <= p
      ensures mutexes[x].owner.Some? ==>
        mutexes[x].owner.value in threads' && threads'[mutexes[x].owner.value].priority <= p
    {
      var n: nat :| Nth(threads, mutexes, m, n) == Some(x);
      NthSame(threads, mutexes, threads', mutexes', m, n);
      ChainBounded(threads', mutexes', m, p, n);
    }
    hide OnChain;
  }

  // ---- One step of the recursion ------------------------------------------------------------------

  /** The mutexes that a boost to p may still change. */
  ghost function Worse(mutexes: Mutexes, p: nat): set<nat> {
    set m | m in mutexes && mutexes[m].priority > p
  }

  /** Boosting a mutex leaves fewer to boost. */
  lemma WorseShrinks(mutexes: Mutexes, m: nat, p: nat)
    requires m in mutexes && mutexes[m].priority > p
    ensures Worse(mutexes[m := mutexes[m].(priority := p)], p) < Worse(mutexes, p)
  {
    assert m in Worse(mutexes, p) && m !in Worse(mutexes[m := mutexes[m].(priority := p)], p);
  }

  lemma MutexRaised(threads: Threads, mutexes: Mutexes, m: nat, p: nat)
    requires Waits(threads, mutexes, m, p) && Owns(threads, mutexes, 0, MAX_PRIORITIES) && m in mutexes
    requires forall x :: x in mutexes ==> mutexes[x].priority <= MAX_PRIORITIES
    requires mutexes[m].owner.Some? && mutexes[m].owner.value in threads && p < MAX_PRIORITIES
    requires forall t :: t in threads ==> threads[t].priority < MAX_PRIORITIES
    ensures if mutexes[m].priority <= p then Inherited(threads, mutexes)
      else
        var mutexes' := mutexes[m := mutexes[m].(priority := p)];
        Waits(threads, mutexes', 0, MAX_PRIORITIES) && Owns(threads, mutexes', mutexes[m].owner.value, p)
  {
  }

  lemma OwnerRaised(threads: Threads, mutexes: Mutexes, t: nat, th: Thread, p: nat)
    requires Waits(threads, mutexes, 0, MAX_PRIORITIES) && Owns(threads, mutexes, t, p) && t in threads
    requires threads[t].priority > p && th.priority == p && th.state == threads[t].state
    requires th.sleepOn == threads[t].sleepOn
    requires forall t :: t in threads ==> threads[t].priority < MAX_PRIORITIES
    ensures Owns(threads[t := th], mutexes, 0, MAX_PRIORITIES)
    ensures threads[t].state == Blocked ==> Waits(threads[t := th], mutexes, threads[t].sleepOn, p)
    ensures threads[t].state != Blocked ==> Waits(threads[t := th], mutexes, 0, MAX_PRIORITIES)
  {
  }

  lemma OwnsSettled(threads: Threads, mutexes: Mutexes, t: nat, p: nat)
    requires Owns(threads, mutexes, t, p) && t in threads && threads[t].priority <= p
    ensures Owns(threads, mutexes, 0, MAX_PRIORITIES)
  {
  }

  /** The first link of the chain: m and its owner. */
  lemma BoostedHead(threads: Threads, mutexes: Mutexes, threads': Threads, mutexes': Mutexes, m: nat, p: nat)
    requires m in mutexes && mutexes[m].owner.Some? && mutexes[m].owner.value in threads && mutexes[m].priority > p
    requires mutexes' == mutexes[m := mutexes[m].(priority := p)]
    requires var t := mutexes[m].owner.value;
      threads' == threads || (threads[t].priority > p && threads' == threads[t := Lowered(threads[t], p)])
    ensures Boosted(threads, mutexes, threads', mutexes', m, p)
  {
    ChainHead(threads, mutexes, m);
    hide OnChain, OwnsOnChain;
  }

  lemma BoostedNothing(threads: Threads, mutexes: Mutexes, m: nat, p: nat)
    ensures Boosted(threads, mutexes, threads, mutexes, m, p)
  {
  }

  /** Thread t got priority p and passed it on. */
  ghost predicate PassedOn(threads: Threads, mutexes: Mutexes, threads': Threads, mutexes': Mutexes, t: nat, p: nat) {
    && t in threads
    && var threads1 := threads[t := Lowered(threads[t], p)];
      if threads[t].state == Blocked then Boosted(threads1, mutexes, threads', mutexes', threads[t].sleepOn, p)
      else threads' == threads1 && mutexes' == mutexes
  }

  lemma PassedOnBoosted(threads: Threads, mutexes: Mutexes, threads': Threads, mutexes': Mutexes, m: nat, p: nat)
    requires m in mutexes && mutexes[m].owner.Some? && mutexes[m].owner.value in threads && mutexes[m].priority > p
    requires threads[mutexes[m].owner.value].priority > p
    requires PassedOn(threads, mutexes[m := mutexes[m].(priority := p)], threads', mutexes', mutexes[m].owner.value, p)
    ensures Boosted(threads, mutexes, threads', mutexes', m, p)
    ensures m in mutexes' && mutexes'[m].priority <= p
  {
    hide Boosted;
    var t := mutexes[m].owner.value;
    var threads1, mutexes1 := threads[t := Lowered(threads[t], p)], mutexes[m := mutexes[m].(priority := p)];
    BoostedHead(threads, mutexes, threads1, mutexes1, m, p);
    if threads[t].state == Blocked {
      BoostedTrans(threads, mutexes, threads1, mutexes1, threads', mutexes', m, threads[t].sleepOn, p);
      BoostedBetter(threads1, mutexes1, threads', mutexes', threads[t].sleepOn, p, m);
    }
  }

  lemma BoostedBetter(threads: Threads, mutexes: Mutexes, threads': Threads, mutexes': Mutexes, m: nat, p: nat, x: nat)
    requires Boosted(threads, mutexes, threads', mutexes', m, p) && x in mutexes && mutexes[x].priority <= p
    ensures x in mutexes' && mutexes'[x].priority <= p
  {
  }

  /** What MayRaise needs to know about its mutex. */
  lemma MutexFacts(threads: Threads, mutexes: Mutexes, m: nat, p: nat)
    requires Owners(threads, mutexes) && AllPlaced(threads) && m in mutexes && p < MAX_PRIORITIES
    ensures mutexes[m].owner.Some? ==> mutexes[m].owner.value in threads
    ensures Waits(threads, mutexes, m, p) && Owns(threads, mutexes, 0, MAX_PRIORITIES) && mutexes[m].owner.Some? ==>
      if mutexes[m].priority <= p then Inherited(threads, mutexes)
      else
        var mutexes' := mutexes[m := mutexes[m].(priority := p)];
        Waits(threads, mutexes', 0, MAX_PRIORITIES) && Owns(threads, mutexes', mutexes[m].owner.value, p)
  {
    hide Waits, Owns, Inherited, Placed;
    if Waits(threads, mutexes, m, p) && Owns(threads, mutexes, 0, MAX_PRIORITIES) && mutexes[m].owner.Some? {
      forall t | t in threads
        ensures threads[t].priority < MAX_PRIORITIES
      {
        LoweredPlaced(threads, t, 0);
        PlacedBound(threads[t]);
      }
      MutexRaised(threads, mutexes, m, p);
    }
  }

  lemma PlacedBound(th: Thread)
    requires Placed(th)
    ensures th.priority < MAX_PRIORITIES
  {
  }

  lemma OwnersPriority(threads: Threads, mutexes: Mutexes, m: nat, p: nat)
    requires Owners(threads, mutexes) && m in mutexes && p <= MAX_PRIORITIES
    ensures Owners(threads, mutexes[m := mutexes[m].(priority := p)])
  {
    hide NoDup;
    var mutexes' := mutexes[m := mutexes[m].(priority := p)];
    forall u, x ensures Agree(threads, mutexes', u, x) {
      assert Agree(threads, mutexes, u, x);
    }
  }

  lemma Settled(threads: Threads, mutexes: Mutexes, t: nat, p: nat)
    requires t in threads && threads[t].priority <= p
    ensures Waits(threads, mutexes, 0, MAX_PRIORITIES) && Owns(threads, mutexes, t, p) ==> Inherited(threads, mutexes)
  {
    hide Waits, Owns;
    if Owns(threads, mutexes, t, p) { OwnsSettled(threads, mutexes, t, p); }
  }

  /** What Raise needs to know about its thread. */
  lemma OwnerFacts(threads: Threads, mutexes: Mutexes, t: nat, p: nat)
    requires Owners(threads, mutexes) && AllPlaced(threads) && t in threads && threads[t].priority > p
    ensures p < MAX_PRIORITIES && (threads[t].state == Blocked ==> threads[t].sleepOn in mutexes)
    ensures Waits(threads, mutexes, 0, MAX_PRIORITIES) && Owns(threads, mutexes, t, p) ==>
      var threads' := threads[t := Lowered(threads[t], p)];
      if threads[t].state == Blocked then
        && Waits(threads', mutexes, threads[t].sleepOn, p) && Owns(threads', mutexes, 0, MAX_PRIORITIES)
        && mutexes[threads[t].sleepOn].owner.Some?
      else Inherited(threads', mutexes)
  {
    hide Waits, Owns, Placed;
    forall u | u in threads
      ensures threads[u].priority < MAX_PRIORITIES
    {
      LoweredPlaced(threads, u, 0);
      PlacedBound(threads[u]);
    }
    if Waits(threads, mutexes, 0, MAX_PRIORITIES) && Owns(threads, mutexes, t, p) {
      OwnerRaised(threads, mutexes, t, Lowered(threads[t], p), p);
      if threads[t].state == Blocked { WaitedOwned(threads, mutexes, t); }
    }
  }

  lemma WaitedOwned(threads: Threads, mutexes: Mutexes, t: nat)
    requires Waits(threads, mutexes, 0, MAX_PRIORITIES) && t in threads && threads[t].state == Blocked
    ensures threads[t].sleepOn in mutexes && mutexes[threads[t].sleepOn].owner.Some?
  {
  }

  lemma BlockInherited(threads: Threads, mutexes: Mutexes, t: nat, th: Thread, m: nat)
    requires Inherited(threads, mutexes) && t in threads && th.priority == threads[t].priority
    requires th.sleepOn == m && m in mutexes && mutexes[m].owner.Some? && mutexes[m].priority <= th.priority
    ensures Inherited(threads[t := th], mutexes)
  {
  }

  lemma AcquireInherited(threads: Threads, mutexes: Mutexes, t: nat, th: Thread, m: nat)
    requires Inherited(threads, mutexes) && t in threads && m in mutexes && mutexes[m].owner == None
    requires th.priority == threads[t].priority <= mutexes[m].priority && th.state == threads[t].state
    requires th.sleepOn == threads[t].sleepOn
    ensures Inherited(threads[t := th], mutexes[m := mutexes[m].(owner := Some(t))])
  {
  }

  /** The priorities after mutex m, and through it the chain, has been boosted to p. */
  ghost predicate BoostedTo(threads: Threads, mutexes: Mutexes, threads': Threads, mutexes': Mutexes, m: nat, p: nat) {
    && threads'.Keys == threads.Keys && mutexes'.Keys == mutexes.Keys
    && (forall x :: x in mutexes ==>
          mutexes'[x].priority == if OnChain(threads, mutexes, m, x) && p < mutexes[x].priority then p
            else mutexes[x].priority)
    && (forall t :: t in threads ==>
          threads'[t].priority == if OwnsOnChain(threads, mutexes, m, t) && p < threads[t].priority then p
            else threads[t].priority)
  }

  lemma BlockedTo(threads: Threads, mutexes: Mutexes, mid: Threads, mutexes': Mutexes, m: nat, p: nat, t: nat,
                  th: Thread)
    requires Boosted(threads, mutexes, mid, mutexes', m, p) && Inherited(mid, mutexes')
    requires m in mutexes' && mutexes'[m].priority <= p < MAX_PRIORITIES
    requires t in mid && th.priority == mid[t].priority
    ensures BoostedTo(threads, mutexes, mid[t := th], mutexes', m, p)
  {
    BoostExact(threads, mutexes, mid, mutexes', m, p);
    hide OnChain, OwnsOnChain;
  }

  /** A thread whose priority is p already keeps it. */
  lemma BoosterKept(threads: Threads, mutexes: Mutexes, threads': Threads, mutexes': Mutexes, m: nat, p: nat, t: nat)
    requires Boosted(threads, mutexes, threads', mutexes', m, p) && t in threads && threads[t].priority <= p
    ensures t in threads' && threads'[t] == threads[t]
  {
    hide OnChain, OwnsOnChain;
  }

  lemma BoostKeepsOwner(threads: Threads, mutexes: Mutexes, threads': Threads, mutexes': Mutexes, m: nat, p: nat,
                        x: nat)
    requires Boosted(threads, mutexes, threads', mutexes', m, p) && x in mutexes
    ensures x in mutexes' && mutexes'[x].owner == mutexes[x].owner
  {
  }

  // ---- Where a boost meets a mutex without an owner ---------------------------------------------------

  /** After n links through mutexes and owners worse than p, the chain from m ends at a mutex without an owner. */
  ghost predicate HitsAt(threads: Threads, mutexes: Mutexes, m: nat, p: nat, n: nat)
    decreases n
  {
    && m in mutexes
    && if n == 0 then mutexes[m].owner.None?
       else
         && NextMutex(threads, mutexes, m).Some?
         && mutexes[m].priority > p && threads[mutexes[m].owner.value].priority > p
         && HitsAt(threads, mutexes, NextMutex(threads, mutexes, m).value, p, n - 1)
  }

  ghost predicate Hits(threads: Threads, mutexes: Mutexes, m: nat, p: nat) {
    exists n: nat :: HitsAt(threads, mutexes, m, p, n)
  }

  /** The mutex that is met lies on the chain. */
  lemma {:induction false} HitsOnChain(threads: Threads, mutexes: Mutexes, m: nat, p: nat, n: nat)
    requires HitsAt(threads, mutexes, m, p, n)
    ensures exists x :: x in mutexes && mutexes[x].owner == None && OnChain(threads, mutexes, m, x)
    decreases n
  {
    if n == 0 {
      ChainHead(threads, mutexes, m);
      assert mutexes[m].owner == None && OnChain(threads, mutexes, m, m);
    } else {
      var m' := NextMutex(threads, mutexes, m).value;
      HitsOnChain(threads, mutexes, m', p, n - 1);
      ChainShift(threads, mutexes, threads, mutexes, m, m');
    }
  }

  lemma {:induction false} HitsUnique(threads: Threads, mutexes: Mutexes, m: nat, p: nat, a: nat, b: nat)
    requires HitsAt(threads, mutexes, m, p, a) && HitsAt(threads, mutexes, m, p, b)
    ensures a == b
    decreases a
  {
    if a > 0 && b > 0 { HitsUnique(threads, mutexes, NextMutex(threads, mutexes, m).value, p, a - 1, b - 1); }
  }

  /** Mutex m and its owner have been boosted to p. */
  ghost predicate Step(threads: Threads, mutexes: Mutexes, threads': Threads, mutexes': Mutexes, m: nat, p: nat) {
    && NextMutex(threads, mutexes, m).Some?
    && var o := mutexes[m].owner.value;
      && mutexes[m].priority > p && threads[o].priority > p
      && mutexes' == mutexes[m := mutexes[m].(priority := p)] && threads' == threads[o := Lowered(threads[o], p)]
  }

  lemma {:induction false} HitsBack(threads: Threads, mutexes: Mutexes, threads': Threads, mutexes': Mutexes,
                                    m: nat, p: nat, x: nat, k: nat)
    requires Step(threads, mutexes, threads', mutexes', m, p) && HitsAt(threads', mutexes', x, p, k)
    ensures HitsAt(threads, mutexes, x, p, k)
    decreases k
  {
    if k > 0 { HitsBack(threads, mutexes, threads', mutexes', m, p, NextMutex(threads', mutexes', x).value, k - 1); }
  }

  /** A chain that ends does not come back to m or to its owner. */
  lemma {:induction false} HitsForward(threads: Threads, mutexes: Mutexes, threads': Threads, mutexes': Mutexes,
                                       m: nat, p: nat, n: nat, x: nat, k: nat)
    requires Step(threads, mutexes, threads', mutexes', m, p)
    requires HitsAt(threads, mutexes, m, p, n + 1) && HitsAt(threads, mutexes, x, p, k) && k <= n
    ensures HitsAt(threads', mutexes', x, p, k)
    decreases k
  {
    if k > 0 {
      if x == m { HitsUnique(threads, mutexes, m, p, k, n + 1); }
      if mutexes[x].owner == mutexes[m].owner {
        HitsUnique(threads, mutexes, NextMutex(threads, mutexes, m).value, p, k - 1, n);
      }
      HitsForward(threads, mutexes, threads', mutexes', m, p, n, NextMutex(threads, mutexes, x).value, k - 1);
    }
  }

  /** Boosting one link does not change where the rest of the chain leads. */
  lemma HitsStep(threads: Threads, mutexes: Mutexes, threads': Threads, mutexes': Mutexes, m: nat, p: nat)
    requires Step(threads, mutexes, threads', mutexes', m, p)
    ensures Hits(threads, mutexes, m, p) <==> Hits(threads', mutexes', NextMutex(threads, mutexes, m).value, p)
  {
    var m' := NextMutex(threads, mutexes, m).value;
    if Hits(threads, mutexes, m, p) {
      var n: nat :| HitsAt(threads, mutexes, m, p, n);
      HitsForward(threads, mutexes, threads', mutexes', m, p, n - 1, m', n - 1);
    }
    if Hits(threads', mutexes', m', p) {
      var n: nat :| HitsAt(threads', mutexes', m', p, n);
      HitsBack(threads, mutexes, threads', mutexes', m, p, m', n);
      assert HitsAt(threads, mutexes, m, p, n + 1);
    }
  }

  /** The cases in which a boost stops at m. */
  lemma HitsStop(threads: Threads, mutexes: Mutexes, m: nat, p: nat)
    requires m in mutexes
    ensures mutexes[m].owner.None? ==> Hits(threads, mutexes, m, p)
    ensures mutexes[m].owner.Some? && mutexes[m].owner.value in threads && mutexes[m].priority <= p ==>
      !Hits(threads, mutexes, m, p)
    ensures mutexes[m].owner.Some? && mutexes[m].owner.value in threads ==>
      var o := threads[mutexes[m].owner.value];
      o.priority <= p || o.state != Blocked ==> !Hits(threads, mutexes, m, p)
  {
    assert mutexes[m].owner.None? ==> HitsAt(threads, mutexes, m, p, 0);
  }

  // ---- Steps that keep the inequalities ------------------------------------------------------------------

  /** No thread started to wait for a mutex, and no priority changed. */
  ghost predicate Calm(threads: Threads, threads': Threads) {
    && (forall t :: t in threads ==> t in threads' && threads'[t].priority == threads[t].priority)
    && (forall t :: t in threads' && threads'[t].state == Blocked ==>
          t in threads && threads[t].state == Blocked && threads[t].sleepOn == threads'[t].sleepOn)
  }

  lemma CalmInherited(threads: Threads, threads': Threads, mutexes: Mutexes)
    requires Calm(threads, threads') && Inherited(threads, mutexes)
    ensures Inherited(threads', mutexes)
  {
  }

  lemma CalmSelf(threads: Threads)
    ensures Calm(threads, threads)
  {
  }

  lemma CalmTrans(a: Threads, b: Threads, c: Threads)
    requires Calm(a, b) && Calm(b, c)
    ensures Calm(a, c)
  {
  }

  lemma CalmOne(threads: Threads, t: nat, th: Thread)
    requires t in threads ==> th.priority == threads[t].priority
    requires th.state == Blocked ==> t in threads && threads[t].state == Blocked && th.sleepOn == threads[t].sleepOn
    ensures Calm(threads, threads[t := th])
  {
  }

  lemma CalmResumed(threads: Threads, threads': Threads, cpus: seq<Cpu>, cpus': seq<Cpu>, c: nat, t: nat)
    requires c < |cpus| && t in threads && Resumed(threads, threads', cpus, cpus', c, t) && OnCpu(threads, cpus)
    ensures Calm(threads, threads')
  {
    if threads[t].state == Sleeping || threads[t].state == Blocked {
      CalmOne(threads, t, Readied(threads[t]));
      CalmGaveWay(threads[t := Readied(threads[t])], threads', cpus, cpus', c, t);
    }
  }

  lemma CalmGaveWay(threads: Threads, threads': Threads, cpus: seq<Cpu>, cpus': seq<Cpu>, c: nat, t: nat)
    requires c < |cpus| && t in threads && GaveWay(threads, threads', cpus, cpus', c, t)
    requires cpus[c].thread.Some? && cpus[c].thread.value in threads ==> threads[cpus[c].thread.value].state != Blocked
    ensures Calm(threads, threads')
  {
  }

  // ---- Mutexes that nobody owns -------------------------------------------------------------------

  /** A mutex without an owner has the worst priority. */
  ghost predicate FreeWorst(mutexes: Mutexes) {
    forall m :: m in mutexes && mutexes[m].owner.None? ==> mutexes[m].priority == MAX_PRIORITIES
  }

  /** While the inequalities hold, all mutexes on a chain have owners. */
  lemma {:induction false} ChainOwned(threads: Threads, mutexes: Mutexes, m: nat, n: nat)
    requires Inherited(threads, mutexes) && m in mutexes && mutexes[m].owner.Some?
    requires Nth(threads, mutexes, m, n).Some?
    ensures var x := Nth(threads, mutexes, m, n).value; x in mutexes && mutexes[x].owner.Some?
    decreases n
  {
    if n > 0 { ChainOwned(threads, mutexes, m, n - 1); }
  }

  lemma BoostFreeWorst(threads: Threads, mutexes: Mutexes, threads': Threads, mutexes': Mutexes, m: nat, p: nat)
    requires Inherited(threads, mutexes) && m in mutexes && mutexes[m].owner.Some? && FreeWorst(mutexes)
    requires Boosted(threads, mutexes, threads', mutexes', m, p)
    ensures FreeWorst(mutexes')
  {
    hide Nth, Inherited, OwnsOnChain;
    forall x | x in mutexes' && mutexes'[x].owner.None? ensures mutexes'[x].priority == MAX_PRIORITIES {
      if mutexes'[x] != mutexes[x] {
        var n: nat :| Nth(threads, mutexes, m, n) == Some(x);
        ChainOwned(threads, mutexes, m, n);
      }
    }
  }
}
