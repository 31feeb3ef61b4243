/** What each locked section of the scheduler does, and what a run of them is. */
module SchedSteps {
  import opened Arith
  import opened Lists
  import opened SchedState
  import opened Inheritance

  datatype Stage = Stage(threads: Threads, queues: Queues, mutexes: Mutexes, cpus: seq<Cpu>)

  datatype Op =
    | CreateThread(thread: nat, priority: nat)
    | Start(cpu: nat, thread: nat)
    | YieldCpu(cpu: nat)
    | Stop(cpu: nat)
    | Quit(cpu: nat)
    | SleepOn(cpu: nat, queue: Option<nat>)
    | Interrupt(cpu: nat, thread: nat)
    | Wake(cpu: nat, chan: nat)
    | WakeEvery(cpu: nat, chan: nat)
    | Next(cpu: nat)
    | Clock(cpu: nat)
    | EnterIrq(cpu: nat)
    | LeaveIrq(cpu: nat)
    | NewMutex(mutex: nat)
    | TakeMutex(cpu: nat, mutex: nat)
    | WaitMutex(cpu: nat, mutex: nat)
    | DropMutex(cpu: nat, mutex: nat)
    | Recalc(cpu: nat, mutex: nat)

  /** What holds between steps. */
  ghost predicate Consistent(s: Stage) {
    && Linked(s.threads, s.queues) && AllPlaced(s.threads) && LocksSorted(s.threads, s.queues)
    && OnCpu(s.threads, s.cpus) && Owners(s.threads, s.mutexes)
  }

  /** The assertion of the step fails: the lock of a better mutex, or a boost that meets a mutex without an owner. */
  ghost predicate Fails(threads: Threads, mutexes: Mutexes, cpus: seq<Cpu>, op: Op) {
    match op
    case TakeMutex(c, m) =>
      && c < |cpus| && cpus[c].thread.Some? && m in mutexes
      && mutexes[m].owner == None && Prio(threads, cpus[c].thread.value) > mutexes[m].priority
    case WaitMutex(c, m) =>
      && c < |cpus| && cpus[c].thread.Some? && m in mutexes && cpus[c].lockCount == 0
      && mutexes[m].owner.Some? && mutexes[m].owner != cpus[c].thread
      && Hits(threads, mutexes, m, Prio(threads, cpus[c].thread.value))
    case _ => false
  }

  /** A mutex is given up that more threads wait for than are woken. */
  ghost predicate LeavesWaiters(mutexes: Mutexes, queues: Queues, cpus: seq<Cpu>, op: Op) {
    match op
    case DropMutex(c, m) =>
      && c < |cpus| && cpus[c].thread.Some? && m in mutexes && mutexes[m].owner == cpus[c].thread
      && |Q(queues, Lock(m))| > 1
    case _ => false
  }

  /** Thread t has joined list q behind all that are as good. */
  ghost predicate JoinedByPriority(threads: Threads, queues: Queues, queues': Queues, q: QueueId, t: nat) {
    exists k :: Behind(threads, Q(queues, q), Prio(threads, t), k) &&
      queues' == queues[q := InsertAt(Q(queues, q), k, t)]
  }

  /** p is the best priority in l. */
  ghost predicate BestOf(threads: Threads, l: seq<nat>, p: nat) {
    if l == [] then p == MAX_PRIORITIES
    else (forall u :: u in l ==> p <= Prio(threads, u)) && exists u :: u in l && Prio(threads, u) == p
  }

  // ---- The effect of a step -----------------------------------------------------------------------------

  /** Processor c runs thread t. */
  ghost predicate Runs(s: Stage, c: nat, t: nat) {
    c < |s.cpus| && s.cpus[c].thread == Some(t) && t in s.threads
  }

  /** The current thread t of c has become th and c is free. */
  ghost predicate Quits(s: Stage, s': Stage, c: nat, t: nat, th: Thread) {
    && Runs(s, c, t) && s'.threads == s.threads[t := th] && s'.mutexes == s.mutexes
    && s'.cpus == s.cpus[c := s.cpus[c].(thread := None)]
  }

  /** Of the lists of waiting threads only q has changed: its first thread is gone. */
  ghost predicate FirstLeft(queues: Queues, queues': Queues, q: QueueId) {
    && Q(queues, q) != []
    && forall q': QueueId :: !q'.Run? ==> Q(queues', q') == if q' == q then Q(queues, q)[1..] else Q(queues, q')
  }

  /** The first thread of a list has been woken. */
  ghost predicate WokeFirst(s: Stage, s': Stage, c: nat, q: QueueId) {
    && c < |s.cpus| && s'.mutexes == s.mutexes && FirstLeft(s.queues, s'.queues, q)
    && var w := Q(s.queues, q)[0];
       && w in s.threads && (s.threads[w].state == Sleeping || s.threads[w].state == Blocked)
       && Resumed(s.threads, s'.threads, s.cpus, s'.cpus, c, w)
       && RunsAfterWake(s.threads, s.queues, s'.queues, s.cpus, c, w)
  }

  /** The threads of a list have been woken one after the other, while the same thread ran on c. */
  ghost predicate WakeRun(ts: seq<Stage>, c: nat, q: QueueId) {
    && ts != [] && c < |ts[0].cpus| && (forall i :: 0 <= i < |ts| ==> Consistent(ts[i]))
    && forall i :: 0 <= i < |ts| - 1 ==>
         c < |ts[i].cpus| && ts[i].cpus[c].thread == ts[0].cpus[c].thread && WokeFirst(ts[i], ts[i + 1], c, q)
  }

  ghost predicate WokeAll(s: Stage, s': Stage, c: nat, q: QueueId) {
    && (exists ts :: WakeRun(ts, c, q) && ts[0] == s && ts[|ts| - 1] == s')
    && |s'.cpus| == |s.cpus| && c < |s.cpus|
    && (Q(s'.queues, q) == [] || (s.cpus[c].thread.Some? && s'.cpus[c].thread.None?))
  }

  /** Processor c has been given to the first thread of the best non-empty run queue. */
  ghost predicate Dispatched(s: Stage, s': Stage, c: nat, t: nat) {
    && c < |s.cpus| && t in s.threads && s.threads[t].state == Ready && s'.mutexes == s.mutexes
    && (forall u :: u in s.threads && s.threads[u].state == Ready ==> s.threads[t].priority <= s.threads[u].priority)
    && Q(s.queues, Run(s.threads[t].priority)) == [t] + Q(s'.queues, Run(s.threads[t].priority))
    && (forall q :: q != Run(s.threads[t].priority) ==> Q(s'.queues, q) == Q(s.queues, q))
    && s'.threads == s.threads[t := s.threads[t].(state := Running, link := None, cpu := c)]
    && s'.cpus == s.cpus[c := s.cpus[c].(thread := Some(t))]
  }

  /** The current thread has boosted the owners it waits for and joined the list of the mutex. */
  ghost predicate Waited(s: Stage, s': Stage, c: nat, m: nat, t: nat) {
    && Runs(s, c, t) && t in s'.threads && s'.cpus == s.cpus[c := s.cpus[c].(thread := None)]
    && s'.threads[t] == s.threads[t].(state := Blocked, sleepOn := m, link := Some(Lock(m)))
    && Boosted(s.threads, s.mutexes, s'.threads[t := s.threads[t]], s'.mutexes, m, Prio(s.threads, t))
    && (Inherited(s.threads, s.mutexes) ==>
          BoostedTo(s.threads, s.mutexes, s'.threads, s'.mutexes, m, Prio(s.threads, t)))
    && LastOfEquals(s'.threads, Q(s'.queues, Lock(m)), t)
    && RunOrder(s.queues, s'.queues) && SameSleepers(s.queues, s'.queues)
  }

  /** The mutex has no owner any more, and the first thread that waited for it is ready. */
  ghost predicate GaveUp(s: Stage, s': Stage, c: nat, m: nat, t: nat) {
    && Runs(s, c, t) && m in s.mutexes
    && var s1 := s.(threads := s.threads[t := s.threads[t].(owned := Remove(s.threads[t].owned, m))],
                    mutexes := s.mutexes[m := s.mutexes[m].(owner := None)]);
       if Q(s.queues, Lock(m)) == [] then s' == s1 else WokeFirst(s1, s', c, Lock(m))
  }

  /** The mutex has the best priority of its waiters, the thread the best of its own and its mutexes'. */
  ghost predicate Recalculated(s: Stage, s': Stage, c: nat, m: nat, t: nat) {
    && Runs(s, c, t) && t in s'.threads && m in s.mutexes && m in s'.mutexes
    && s'.queues == s.queues && s'.cpus == s.cpus
    && s'.mutexes == s.mutexes[m := s.mutexes[m].(priority := s'.mutexes[m].priority)]
    && BestOf(s'.threads, Q(s.queues, Lock(m)), s'.mutexes[m].priority)
    && s'.threads == s.threads[t := s.threads[t].(priority := s'.threads[t].priority)]
    && s'.threads[t].priority <= s'.threads[t].saved
    && (forall x :: x in s'.threads[t].owned ==> x in s'.mutexes && s'.threads[t].priority <= s'.mutexes[x].priority)
    && (|| s'.threads[t].priority == s'.threads[t].saved
        || exists x :: x in s'.threads[t].owned && x in s'.mutexes && s'.mutexes[x].priority == s'.threads[t].priority)
  }

  ghost predicate Busy(s: Stage, c: nat) {
    c < |s.cpus| && s.cpus[c].thread.Some?
  }

  /** What a step does that does not fail; one that is not possible in the state does nothing. */
  ghost predicate Does(s: Stage, op: Op, s': Stage) {
    match op
    case CreateThread(t, p) =>
      s' == if t in s.threads || p >= MAX_PRIORITIES then s
        else s.(threads := s.threads[t := Thread(Suspended, p, p, None, 0, 0, false, [])])
    case Start(c, t) =>
      if c < |s.cpus| && t in s.threads && s.threads[t].state == Suspended then
        && s'.mutexes == s.mutexes && SameWaiters(s.queues, s'.queues)
        && GaveWay(s.threads[t := Readied(s.threads[t])], s'.threads, s.cpus, s'.cpus, c, t)
        && JoinedRuns(s.threads, s.queues, s'.queues, s.cpus, c, t)
      else s' == s
    case YieldCpu(c) =>
      if Busy(s, c) then
        var t := s.cpus[c].thread.value;
        && t in s.threads && Quits(s, s', c, t, Readied(s.threads[t])) && SameWaiters(s.queues, s'.queues)
        && ReadyAtBack(s.queues, s'.queues, t, Prio(s.threads, t))
      else s' == s
    case Stop(c) =>
      if Busy(s, c) then
        var t := s.cpus[c].thread.value;
        t in s.threads && Quits(s, s', c, t, s.threads[t].(state := Suspended)) && s'.queues == s.queues
      else s' == s
    case Quit(c) =>
      if Busy(s, c) then
        var t := s.cpus[c].thread.value;
        && t in s.threads && Quits(s, s', c, t, s.threads[t].(state := Destroyed, link := Some(Graveyard)))
        && s'.queues == s.queues[Graveyard := Q(s.queues, Graveyard) + [t]]
      else s' == s
    case SleepOn(c, chan) =>
      if Busy(s, c) && s.cpus[c].lockCount == 0 then
        var t := s.cpus[c].thread.value;
        var link := if chan.None? then None else Some(Wait(chan.value));
        && t in s.threads && Quits(s, s', c, t, s.threads[t].(state := Sleeping, link := link))
        && if chan.None? then s'.queues == s.queues
           else JoinedByPriority(s.threads, s.queues, s'.queues, Wait(chan.value), t)
      else s' == s
    case Interrupt(c, t) =>
      if c < |s.cpus| && t in s.threads then
        && s'.mutexes == s.mutexes && Resumed(s.threads, s'.threads, s.cpus, s'.cpus, c, t)
        && LeftQueue(s.threads, s.queues, s'.queues, t) && RunsAfterWake(s.threads, s.queues, s'.queues, s.cpus, c, t)
      else s' == s
    case Wake(c, chan) =>
      if c < |s.cpus| && Q(s.queues, Wait(chan)) != [] then WokeFirst(s, s', c, Wait(chan)) else s' == s
    case WakeEvery(c, chan) => if c < |s.cpus| then WokeAll(s, s', c, Wait(chan)) else s' == s
    case Next(c) =>
      if c < |s.cpus| && s.cpus[c].thread.None? && (exists t :: t in s.threads && s.threads[t].state == Ready)
      then exists t :: Dispatched(s, s', c, t)
      else s' == s
    case Clock(c) =>
      if Busy(s, c) then
        var t := s.cpus[c].thread.value;
        t in s.threads && s' == s.(threads := s.threads[t := s.threads[t].(reschedule := true)])
      else s' == s
    case EnterIrq(c) =>
      s' == if c < |s.cpus| then s.(cpus := s.cpus[c := s.cpus[c].(lockCount := s.cpus[c].lockCount + 1)]) else s
    case LeaveIrq(c) =>
      if c < |s.cpus| && s.cpus[c].lockCount > 0 then
        var t := s.cpus[c].thread;
        var s1 := s.(cpus := s.cpus[c := Cpu(t, s.cpus[c].lockCount - 1)]);
        if s.cpus[c].lockCount == 1 && t.Some? && t.value in s.threads && s.threads[t.value].reschedule then
          && Quits(s1, s', c, t.value, Readied(s.threads[t.value].(reschedule := false)))
          && SameWaiters(s.queues, s'.queues) && ReadyAtBack(s.queues, s'.queues, t.value, Prio(s.threads, t.value))
        else s' == s1
      else s' == s
    case NewMutex(m) =>
      s' == if m in s.mutexes then s else s.(mutexes := s.mutexes[m := Mutex(None, MAX_PRIORITIES)])
    case TakeMutex(c, m) =>
      if Busy(s, c) && m in s.mutexes && s.mutexes[m].owner == None then
        var t := s.cpus[c].thread.value;
        t in s.threads &&
        s' == s.(mutexes := s.mutexes[m := s.mutexes[m].(owner := Some(t))],
                 threads := s.threads[t := s.threads[t].(owned := [m] + s.threads[t].owned)])
      else s' == s
    case WaitMutex(c, m) =>
      if && Busy(s, c) && m in s.mutexes && s.cpus[c].lockCount == 0
         && s.mutexes[m].owner.Some? && s.mutexes[m].owner != s.cpus[c].thread
      then Waited(s, s', c, m, s.cpus[c].thread.value)
      else s' == s
    case DropMutex(c, m) =>
      if Busy(s, c) && m in s.mutexes && s.mutexes[m].owner == s.cpus[c].thread
      then GaveUp(s, s', c, m, s.cpus[c].thread.value)
      else s' == s
    case Recalc(c, m) =>
      if Busy(s, c) && m in s.mutexes then Recalculated(s, s', c, m, s.cpus[c].thread.value) else s' == s
  }

  /** The states of a run: each step does what it is to do and does not fail. */
  ghost predicate IsRun(trace: seq<Stage>, ops: seq<Op>) {
    && |trace| == |ops| + 1 && (forall i :: 0 <= i < |trace| ==> Consistent(trace[i]))
    && forall i :: 0 <= i < |ops| ==>
         Does(trace[i], ops[i], trace[i + 1]) && !Fails(trace[i].threads, trace[i].mutexes, trace[i].cpus, ops[i])
  }
}
