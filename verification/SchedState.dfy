/**
 * The scheduler's queues.  A thread's link field says which list the thread is on, so the
 * null-link test of the list code is `link.None?`.
 */
module SchedState {
  import opened Arith
  import opened Lists

  const MAX_PRIORITIES: nat := 40

  datatype State = Ready | Running | Sleeping | Blocked | Suspended | Destroyed

  datatype QueueId = Run(priority: nat) | Wait(chan: nat) | Lock(mutex: nat) | Graveyard

  datatype Thread = Thread(
    state: State, priority: nat, saved: nat, link: Option<QueueId>, sleepOn: nat, cpu: nat,
    reschedule: bool, owned: seq<nat>)

  datatype Mutex = Mutex(owner: Option<nat>, priority: nat)

  datatype Cpu = Cpu(thread: Option<nat>, lockCount: nat)

  type Threads = map<nat, Thread>
  type Queues = map<QueueId, seq<nat>>

  function Q(queues: Queues, q: QueueId): seq<nat> {
    if q in queues then queues[q] else []
  }

  ghost function Prio(threads: Threads, t: nat): nat {
    if t in threads then threads[t].priority else 0
  }

  // ---- What holds between steps ------------------------------------------------------------

  ghost predicate On(threads: Threads, t: nat, q: QueueId) {
    t in threads && threads[t].link == Some(q)
  }

  /** Each list holds exactly the threads whose link names it, each once. */
  ghost predicate Linked(threads: Threads, queues: Queues) {
    && (forall q, t :: t in Q(queues, q) <==> On(threads, t, q))
    && (forall q :: NoDup(Q(queues, q)))
  }

  /** The list a thread is on is the one its state names. */
  ghost predicate Placed(th: Thread) {
    && th.priority < MAX_PRIORITIES && th.saved < MAX_PRIORITIES
    && match th.state
       case Ready => th.link == Some(Run(th.priority))
       case Blocked => th.link == Some(Lock(th.sleepOn))
       case Sleeping => th.link == None || th.link.value.Wait?
       case Destroyed => th.link == Some(Graveyard)
       case _ => th.link == None
  }

  ghost predicate AllPlaced(threads: Threads) {
    forall t :: t in threads ==> Placed(threads[t])
  }

  ghost predicate Sorted(threads: Threads, l: seq<nat>) {
    forall i, j :: 0 <= i < j < |l| ==> Prio(threads, l[i]) <= Prio(threads, l[j])
  }

  ghost predicate LocksSorted(threads: Threads, queues: Queues) {
    forall m :: Sorted(threads, Q(queues, Lock(m)))
  }

  ghost predicate OnCpu(threads: Threads, cpus: seq<Cpu>) {
    && (forall t :: t in threads && threads[t].state == Running ==>
          threads[t].cpu < |cpus| && cpus[threads[t].cpu].thread == Some(t))
    && (forall c :: 0 <= c < |cpus| && cpus[c].thread.Some? ==>
          var t := cpus[c].thread.value; t in threads && threads[t].state == Running && threads[t].cpu == c)
  }

  /** The list of thread t and the owner field of mutex m say the same. */
  ghost predicate Agree(threads: Threads, mutexes: map<nat, Mutex>, t: nat, m: nat) {
    t in threads ==> (m in threads[t].owned <==> m in mutexes && mutexes[m].owner == Some(t))
  }

  ghost predicate Owners(threads: Threads, mutexes: map<nat, Mutex>) {
    && (forall t, m :: Agree(threads, mutexes, t, m))
    && (forall t :: t in threads ==> NoDup(threads[t].owned))
    && (forall m :: m in mutexes && mutexes[m].owner.Some? ==> mutexes[m].owner.value in threads)
    && (forall m :: m in mutexes ==> mutexes[m].priority <= MAX_PRIORITIES)
    && (forall t :: t in threads && threads[t].state == Blocked ==> threads[t].sleepOn in mutexes)
  }

  /** So a thread is on at most one list, once, and which one can be read off its state. */
  lemma OneList(threads: Threads, queues: Queues, t: nat, q: QueueId, q': QueueId, i: nat, j: nat)
    requires Linked(threads, queues) && AllPlaced(threads)
    requires i < |Q(queues, q)| && j < |Q(queues, q')| && Q(queues, q)[i] == Q(queues, q')[j] == t
    ensures q == q' && i == j && t in threads
    ensures threads[t].state != Running && threads[t].state != Suspended
    ensures threads[t].state == Ready ==> q == Run(threads[t].priority)
    ensures threads[t].state == Blocked ==> q == Lock(threads[t].sleepOn)
  {
    hide Q;
    assert t in Q(queues, q) && t in Q(queues, q');
    assert On(threads, t, q) && On(threads, t, q') && Placed(threads[t]);
  }

  // ---- Inserting by priority ------------------------------------------------------------------

  /** Position k of l is behind every thread whose priority is at least as good as p. */
  ghost predicate Behind(threads: Threads, l: seq<nat>, p: nat, k: nat) {
    && k <= |l| && (forall i :: 0 <= i < k ==> Prio(threads, l[i]) <= p)
    && (k < |l| ==> Prio(threads, l[k]) > p)
  }

  lemma SortedInsert(threads: Threads, l: seq<nat>, k: nat, t: nat)
    requires Sorted(threads, l) && Behind(threads, l, Prio(threads, t), k)
    ensures Sorted(threads, InsertAt(l, k, t))
  {
    var r := InsertAt(l, k, t);
    forall i, j | 0 <= i < j < |r| ensures Prio(threads, r[i]) <= Prio(threads, r[j]) {
      assert r[i] == if i < k then l[i] else if i == k then t else l[i - 1];
      assert r[j] == if j < k then l[j] else if j == k then t else l[j - 1];
    }
  }

  lemma {:induction false} SortedRemove(threads: Threads, l: seq<nat>, t: nat)
    requires Sorted(threads, l)
    ensures Sorted(threads, Remove(l, t))
  {
    if l != [] {
      var tail := l[1..];
      assert forall i :: 0 <= i < |tail| ==> tail[i] == l[i + 1];
      SortedRemove(threads, tail, t);
      var r := Remove(tail, t);
      forall j | 0 <= j < |r| ensures Prio(threads, l[0]) <= Prio(threads, r[j]) {
        assert r[j] in tail;
      }
    }
  }

  lemma SortedFrame(threads: Threads, threads': Threads, l: seq<nat>)
    requires Sorted(threads, l) && forall t :: t in l ==> Prio(threads', t) == Prio(threads, t)
    ensures Sorted(threads', l)
  {
    forall i, j | 0 <= i < j < |l| ensures Prio(threads', l[i]) <= Prio(threads', l[j]) {
      assert l[i] in l && l[j] in l;
    }
  }

  // ---- List operations on the whole state -------------------------------------------------------

  lemma UpdateQueue(queues: Queues, q: QueueId, l: seq<nat>, q': QueueId)
    ensures Q(queues[q := l], q') == if q' == q then l else Q(queues, q')
  {
  }

  lemma UnlinkLinked(threads: Threads, queues: Queues, t: nat, q: QueueId)
    requires Linked(threads, queues) && t in threads && threads[t].link == Some(q)
    ensures Linked(threads[t := threads[t].(link := None)], queues[q := Remove(Q(queues, q), t)])
  {
    hide Q, NoDup, Remove;
    var l := Remove(Q(queues, q), t);
    RemoveNoDup(Q(queues, q), t);
    var queues' := queues[q := l];
    forall q' ensures NoDup(Q(queues', q')) { UpdateQueue(queues, q, l, q'); }
    var threads' := threads[t := threads[t].(link := None)];
    forall q', u: nat ensures u in Q(queues', q') <==> On(threads', u, q') {
      UpdateQueue(queues, q, l, q');
      assert u in Q(queues, q') <==> On(threads, u, q');
    }
  }

  lemma LinkLinked(threads: Threads, queues: Queues, t: nat, q: QueueId, k: nat)
    requires Linked(threads, queues) && t in threads && threads[t].link == None && k <= |Q(queues, q)|
    ensures Linked(threads[t := threads[t].(link := Some(q))], queues[q := InsertAt(Q(queues, q), k, t)])
  {
    var l := InsertAt(Q(queues, q), k, t);
    assert t !in Q(queues, q);
    InsertNoDup(Q(queues, q), k, t);
    hide Q, InsertAt, NoDup;
    var queues' := queues[q := l];
    forall q' ensures NoDup(Q(queues', q')) { UpdateQueue(queues, q, l, q'); }
    var threads' := threads[t := threads[t].(link := Some(q))];
    forall q', u: nat ensures u in Q(queues', q') <==> On(threads', u, q') {
      UpdateQueue(queues, q, l, q');
      assert u in Q(queues, q') <==> On(threads, u, q');
    }
  }

  /** Queues of mutexes stay sorted when a thread leaves one or joins one in its place. */
  lemma LocksMove(threads: Threads, threads': Threads, queues: Queues, q: QueueId, l: seq<nat>, t: nat)
    requires LocksSorted(threads, queues) && forall u :: Prio(threads', u) == Prio(threads, u)
    requires q.Lock? ==> l == Remove(Q(queues, q), t) || Sorted(threads', l)
    ensures LocksSorted(threads', queues[q := l])
  {
    forall m ensures Sorted(threads', Q(queues[q := l], Lock(m))) {
      UpdateQueue(queues, q, l, Lock(m));
      SortedRemove(threads, Q(queues, Lock(m)), t);
      SortedFrame(threads, threads', Q(queues, Lock(m)));
      SortedFrame(threads, threads', Remove(Q(queues, Lock(m)), t));
    }
  }

  // ---- Changing one thread -----------------------------------------------------------------------

  lemma LinkedSame(threads: Threads, queues: Queues, t: nat, th: Thread)
    requires Linked(threads, queues) && t in threads && th.link == threads[t].link
    ensures Linked(threads[t := th], queues)
  {
    hide Q;
  }

  lemma LocksSame(threads: Threads, queues: Queues, t: nat, th: Thread)
    requires LocksSorted(threads, queues) && t in threads && th.priority == threads[t].priority
    ensures LocksSorted(threads[t := th], queues)
  {
    hide Sorted, Q;
    forall m ensures Sorted(threads[t := th], Q(queues, Lock(m))) {
      SortedFrame(threads, threads[t := th], Q(queues, Lock(m)));
    }
  }

  lemma PlacedOne(threads: Threads, t: nat, th: Thread)
    requires AllPlaced(threads) && Placed(th)
    ensures AllPlaced(threads[t := th])
  {
    hide Placed;
  }

  /** A thread that is not running changes into one that is not running. */
  lemma CpuSame(threads: Threads, cpus: seq<Cpu>, t: nat, th: Thread)
    requires OnCpu(threads, cpus) && (t in threads ==> threads[t].state != Running || th.cpu == threads[t].cpu)
    requires th.state == Running <==> t in threads && threads[t].state == Running
    ensures OnCpu(threads[t := th], cpus)
  {
  }

  /** The current thread of a processor stops running. */
  lemma CpuLeave(threads: Threads, cpus: seq<Cpu>, c: nat, th: Thread)
    requires OnCpu(threads, cpus) && c < |cpus| && cpus[c].thread.Some? && th.state != Running
    ensures OnCpu(threads[cpus[c].thread.value := th], cpus[c := cpus[c].(thread := None)])
  {
  }

  lemma OwnersSame(threads: Threads, mutexes: map<nat, Mutex>, t: nat, th: Thread)
    requires Owners(threads, mutexes) && t in threads && th.owned == threads[t].owned
    requires th.state == Blocked ==> th.sleepOn in mutexes
    ensures Owners(threads[t := th], mutexes)
  {
    hide NoDup;
    var threads' := threads[t := th];
    forall u, x ensures Agree(threads', mutexes, u, x) {
      assert Agree(threads, mutexes, u, x);
    }
  }

  // ---- One step of one thread ---------------------------------------------------------------------

  lemma PlacedFlag(th: Thread)
    ensures Placed(th.(reschedule := true)) == Placed(th.(reschedule := false)) == Placed(th)
  {
  }

  lemma CpuJoin(threads: Threads, cpus: seq<Cpu>, c: nat, t: nat, th: Thread)
    requires OnCpu(threads, cpus) && c < |cpus| && cpus[c].thread.None? && t in threads && threads[t].state != Running
    requires th.state == Running && th.cpu == c
    ensures OnCpu(threads[t := th], cpus[c := cpus[c].(thread := Some(t))])
  {
  }

  /** The first thread of the first non-empty run queue is a best ready thread. */
  lemma BestReady(threads: Threads, queues: Queues, i: nat)
    requires Linked(threads, queues) && AllPlaced(threads) && i <= MAX_PRIORITIES
    requires forall j :: 0 <= j < i ==> Q(queues, Run(j)) == []
    ensures forall u :: u in threads && threads[u].state == Ready ==> i <= threads[u].priority < MAX_PRIORITIES
    ensures Q(queues, Run(i)) != [] ==>
      var t := Q(queues, Run(i))[0];
      t in threads && threads[t].state == Ready && threads[t].priority == i && threads[t].link == Some(Run(i)) &&
        Placed(threads[t])
  {
    hide Q;
    forall u | u in threads && threads[u].state == Ready ensures i <= threads[u].priority < MAX_PRIORITIES {
      assert Placed(threads[u]);
      assert On(threads, u, Run(threads[u].priority));
      assert u in Q(queues, Run(threads[u].priority));
    }
    if Q(queues, Run(i)) != [] {
      assert Q(queues, Run(i))[0] in Q(queues, Run(i));
      assert On(threads, Q(queues, Run(i))[0], Run(i));
    }
  }

  function NewThread(priority: nat): Thread {
    Thread(Suspended, priority, priority, None, 0, 0, false, [])
  }

  /** The thread as it looks on a run queue. */
  function Readied(th: Thread): Thread {
    th.(state := Ready, link := Some(Run(th.priority)))
  }

  lemma CurrentPlaced(threads: Threads, cpus: seq<Cpu>, c: nat)
    requires AllPlaced(threads) && OnCpu(threads, cpus) && c < |cpus| && cpus[c].thread.Some?
    ensures cpus[c].thread.value in threads && Placed(threads[cpus[c].thread.value])
    ensures threads[cpus[c].thread.value].link == None
  {
  }

  /** One thread changed without touching its link, priority or mutexes. */
  lemma OneValid(threads: Threads, queues: Queues, mutexes: map<nat, Mutex>, t: nat, th: Thread)
    requires Linked(threads, queues) && LocksSorted(threads, queues) && AllPlaced(threads) && Owners(threads, mutexes)
    requires t in threads && th.link == threads[t].link && th.priority == threads[t].priority
    requires th.owned == threads[t].owned
    requires Placed(th) && (th.state == Blocked ==> th.sleepOn in mutexes)
    ensures var threads' := threads[t := th];
      Linked(threads', queues) && LocksSorted(threads', queues) && AllPlaced(threads') && Owners(threads', mutexes)
  {
    LinkedSame(threads, queues, t, th);
    LocksSame(threads, queues, t, th);
    PlacedOne(threads, t, th);
    OwnersSame(threads, mutexes, t, th);
  }

  /** One thread joined list q at position k. */
  lemma JoinValid(threads: Threads, queues: Queues, mutexes: map<nat, Mutex>, t: nat, th: Thread, q: QueueId, k: nat,
                  queues': Queues)
    requires LocksSorted(threads, queues) && AllPlaced(threads) && Owners(threads, mutexes) && k <= |Q(queues, q)|
    requires t in threads && th.priority == threads[t].priority && th.owned == threads[t].owned
    requires queues' == queues[q := InsertAt(Q(queues, q), k, t)]
    requires Placed(th) && (th.state == Blocked ==> th.sleepOn in mutexes)
    requires q.Lock? ==> Behind(threads, Q(queues, q), th.priority, k)
    ensures var threads' := threads[t := th];
      LocksSorted(threads', queues') && AllPlaced(threads') && Owners(threads', mutexes)
  {
    hide Owners, AllPlaced, Placed;
    var threads' := threads[t := th];
    if q.Lock? {
      SortedInsert(threads, Q(queues, q), k, t);
      SortedFrame(threads, threads', InsertAt(Q(queues, q), k, t));
    }
    LocksMove(threads, threads', queues, q, InsertAt(Q(queues, q), k, t), t);
    PlacedOne(threads, t, th);
    OwnersSame(threads, mutexes, t, th);
  }

  lemma ReadyValid(threads: Threads, queues: Queues, mutexes: map<nat, Mutex>, t: nat, threads': Threads,
                   queues': Queues)
    requires LocksSorted(threads, queues) && AllPlaced(threads) && Owners(threads, mutexes)
    requires t in threads && threads' == threads[t := Readied(threads[t])] && Placed(threads[t])
    requires var q := Run(threads[t].priority); queues' == queues[q := InsertAt(Q(queues, q), |Q(queues, q)|, t)]
    ensures LocksSorted(threads', queues') && AllPlaced(threads') && Owners(threads', mutexes)
  {
    var q := Run(threads[t].priority);
    JoinValid(threads, queues, mutexes, t, Readied(threads[t]), q, |Q(queues, q)|, queues');
  }

  lemma LeaveSorted(threads: Threads, queues: Queues, t: nat, threads': Threads, queues': Queues)
    requires LocksSorted(threads, queues) && t in threads && threads' == threads[t := threads[t].(link := None)]
    requires match threads[t].link
      case None => queues' == queues
      case Some(q) => queues' == queues[q := Remove(Q(queues, q), t)]
    ensures LocksSorted(threads', queues')
  {
    if threads[t].link.Some? {
      LocksMove(threads, threads', queues, threads[t].link.value, Q(queues', threads[t].link.value), t);
    } else {
      LocksSame(threads, queues, t, threads'[t]);
    }
  }

  /** A thread that was taken off its list became ready. */
  lemma ReadyFrom(threads: Threads, mutexes: map<nat, Mutex>, t: nat, free: Threads, mid: Queues, threads': Threads,
                  queues': Queues)
    requires AllPlaced(threads) && Owners(threads, mutexes) && t in threads && LocksSorted(free, mid)
    requires free == threads[t := threads[t].(link := None)]
    requires threads' == free[t := Readied(free[t])]
    requires var q := Run(threads[t].priority); queues' == mid[q := InsertAt(Q(mid, q), |Q(mid, q)|, t)]
    ensures threads' == threads[t := Readied(threads[t])]
    ensures LocksSorted(threads', queues') && AllPlaced(threads') && Owners(threads', mutexes)
  {
    hide Owners, LocksSorted;
    var q := Run(threads[t].priority);
    LocksMoveRun(free, mid, t, threads', queues');
    PlacedOne(threads, t, Readied(threads[t]));
    OwnersSame(threads, mutexes, t, Readied(threads[t]));
  }

  lemma LocksMoveRun(free: Threads, mid: Queues, t: nat, threads': Threads, queues': Queues)
    requires LocksSorted(free, mid) && t in free && threads' == free[t := Readied(free[t])]
    requires var q := Run(free[t].priority); queues' == mid[q := InsertAt(Q(mid, q), |Q(mid, q)|, t)]
    ensures LocksSorted(threads', queues')
  {
    hide LocksSorted;
    var q := Run(free[t].priority);
    LocksMove(free, threads', mid, q, InsertAt(Q(mid, q), |Q(mid, q)|, t), t);
  }

  /** Only run queues changed. */
  ghost predicate SameWaiters(queues: Queues, queues': Queues) {
    forall q: QueueId :: !q.Run? ==> Q(queues', q) == Q(queues, q)
  }

  /** Thread t left the list it waited on; the other lists of waiting threads are the same. */
  ghost predicate LeftQueue(threads: Threads, queues: Queues, queues': Queues, t: nat) {
    t in threads && forall q: QueueId :: !q.Run? ==>
      Q(queues', q) ==
        if threads[t].link == Some(q) && (threads[t].state == Sleeping || threads[t].state == Blocked)
        then Remove(Q(queues, q), t) else Q(queues, q)
  }

  /** Thread t has joined the back of run queue p; the other run queues are the same. */
  ghost predicate ReadyAtBack(queues: Queues, queues': Queues, t: nat, p: nat) {
    forall r: nat :: Q(queues', Run(r)) == Q(queues, Run(r)) + if r == p then [t] else []
  }

  lemma BackOfQueue(queues: Queues, queues': Queues, t: nat, p: nat)
    requires queues' == queues[Run(p) := InsertAt(Q(queues, Run(p)), |Q(queues, Run(p))|, t)]
    ensures ReadyAtBack(queues, queues', t, p)
  {
    var l := Q(queues, Run(p));
    assert InsertAt(l, |l|, t) == l + [t];
    assert forall r: nat :: r != p ==> Q(queues', Run(r)) == Q(queues, Run(r)) + [];
  }

  /** The current thread of c gives the processor up at once in favour of t. */
  ghost predicate GivesUp(threads: Threads, cpus: seq<Cpu>, c: nat, t: nat) {
    && c < |cpus| && cpus[c].thread.Some? && cpus[c].thread.value in threads && cpus[c].lockCount == 0
    && Prio(threads, t) < Prio(threads, cpus[c].thread.value)
  }

  /** The run queues after MayYield. */
  ghost predicate RunsAfterYield(threads: Threads, queues: Queues, queues': Queues, cpus: seq<Cpu>, c: nat, t: nat) {
    if GivesUp(threads, cpus, c, t) then
      ReadyAtBack(queues, queues', cpus[c].thread.value, Prio(threads, cpus[c].thread.value))
    else queues' == queues
  }

  /** The run queues after t became ready: first it joins the back of one, then the thread that gives way. */
  ghost predicate JoinedRuns(threads: Threads, queues: Queues, queues': Queues, cpus: seq<Cpu>, c: nat, t: nat) {
    && t in threads
    && var woken := threads[t := Readied(threads[t])];
       forall r: nat :: Q(queues', Run(r)) ==
         Q(queues, Run(r)) + (if r == Prio(threads, t) then [t] else []) +
         (if GivesUp(woken, cpus, c, t) && r == Prio(woken, cpus[c].thread.value) then [cpus[c].thread.value] else [])
  }

  /** The run queues after Resume. */
  ghost predicate RunsAfterWake(threads: Threads, queues: Queues, queues': Queues, cpus: seq<Cpu>, c: nat, t: nat) {
    && t in threads
    && if threads[t].state == Sleeping || threads[t].state == Blocked
       then JoinedRuns(threads, queues, queues', cpus, c, t) else queues' == queues
  }

  lemma JoinThenYield(threads: Threads, queues: Queues, mid: Queues, queues': Queues, cpus: seq<Cpu>, c: nat, t: nat)
    requires t in threads && ReadyAtBack(queues, mid, t, threads[t].priority)
    requires RunsAfterYield(threads[t := Readied(threads[t])], mid, queues', cpus, c, t)
    ensures JoinedRuns(threads, queues, queues', cpus, c, t)
  {
    hide Q;
    var woken := threads[t := Readied(threads[t])];
    forall r: nat ensures Q(queues', Run(r)) ==
      Q(queues, Run(r)) + (if r == Prio(threads, t) then [t] else []) +
      (if GivesUp(woken, cpus, c, t) && r == Prio(woken, cpus[c].thread.value) then [cpus[c].thread.value] else [])
    {
      assert Q(mid, Run(r)) == Q(queues, Run(r)) + if r == threads[t].priority then [t] else [];
    }
  }

  lemma QueuesAfter(threads: Threads, queues: Queues, mid: Queues, queues': Queues, t: nat)
    requires t in threads && Placed(threads[t])
    requires match threads[t].link
      case None => mid == queues
      case Some(q) => mid == queues[q := Remove(Q(queues, q), t)]
    requires var q := Run(threads[t].priority); queues' == mid[q := InsertAt(Q(mid, q), |Q(mid, q)|, t)]
    ensures threads[t].state == Sleeping || threads[t].state == Blocked ==>
      LeftQueue(threads, queues, queues', t) && ReadyAtBack(queues, queues', t, threads[t].priority)
  {
    BackOfQueue(mid, queues', t, threads[t].priority);
  }

  /** In no run queue does a thread overtake another. */
  ghost predicate RunOrder(queues: Queues, queues': Queues) {
    forall r: nat :: SameOrder(Q(queues, Run(r)), Q(queues', Run(r)))
  }

  /** The lists of sleeping threads and of threads to destroy are the same. */
  ghost predicate SameSleepers(queues: Queues, queues': Queues) {
    forall q: QueueId :: q.Wait? || q.Graveyard? ==> Q(queues', q) == Q(queues, q)
  }

  lemma RunOrderSelf(queues: Queues)
    ensures RunOrder(queues, queues) && SameSleepers(queues, queues)
  {
  }

  lemma SameRuns(queues: Queues, queues': Queues)
    requires forall r: nat :: Q(queues', Run(r)) == Q(queues, Run(r))
    ensures RunOrder(queues, queues')
  {
    hide Q;
  }

  /** A thread whose priority changed has been taken off its list and put where it belongs. */
  ghost predicate Requeued(threads: Threads, queues: Queues, queues': Queues, t: nat, p: nat) {
    && t in threads
    && var q := if threads[t].state == Ready then Run(threads[t].priority) else Lock(threads[t].sleepOn);
       var mid := queues[q := Remove(Q(queues, q), t)];
       match threads[t].state
       case Ready => queues' == mid[Run(p) := Q(mid, Run(p)) + [t]]
       case Blocked =>
         exists k :: Behind(threads[t := Lowered(threads[t], p)], Q(mid, q), p, k) &&
           queues' == mid[q := InsertAt(Q(mid, q), k, t)]
       case _ => queues' == queues
  }

  lemma RequeuedReady(threads: Threads, queues: Queues, t: nat, p: nat, mid: Queues, queues': Queues)
    requires t in threads && threads[t].state == Ready
    requires var q := Run(threads[t].priority); mid == queues[q := Remove(Q(queues, q), t)]
    requires queues' == mid[Run(p) := InsertAt(Q(mid, Run(p)), |Q(mid, Run(p))|, t)]
    ensures Requeued(threads, queues, queues', t, p)
  {
    InsertLast(Q(mid, Run(p)), t);
  }

  lemma RequeuedBlocked(threads: Threads, queues: Queues, t: nat, p: nat, mid: Queues, k: nat, queues': Queues)
    requires t in threads && threads[t].state == Blocked
    requires var q := Lock(threads[t].sleepOn);
      && mid == queues[q := Remove(Q(queues, q), t)]
      && Behind(threads[t := Lowered(threads[t], p)], Q(mid, q), p, k) && queues' == mid[q := InsertAt(Q(mid, q), k, t)]
    ensures Requeued(threads, queues, queues', t, p)
  {
  }

  lemma RequeuedNot(threads: Threads, queues: Queues, t: nat, p: nat)
    requires t in threads && threads[t].state != Ready && threads[t].state != Blocked
    ensures Requeued(threads, queues, queues, t, p)
  {
  }

  lemma RequeuedOrder(threads: Threads, queues: Queues, queues': Queues, t: nat, p: nat)
    requires Requeued(threads, queues, queues', t, p) && Linked(threads, queues) && Placed(threads[t])
    requires threads[t].priority != p
    ensures RunOrder(queues, queues') && SameSleepers(queues, queues')
    ensures threads[t].state == Blocked ==> forall r: nat :: Q(queues', Run(r)) == Q(queues, Run(r))
  {
    if threads[t].state == Ready {
      var r0 := threads[t].priority;
      var l := Q(queues, Run(r0));
      var mid := queues[Run(r0) := Remove(l, t)];
      assert !On(threads, t, Run(p));
      RemoveOrder(l, t);
      AppendOrder(Q(queues, Run(p)), t);
      hide Remove, Linked, Ahead;
      forall r: nat ensures SameOrder(Q(queues, Run(r)), Q(queues', Run(r))) {
        UpdateQueue(queues, Run(r0), Remove(l, t), Run(r));
        UpdateQueue(mid, Run(p), Q(mid, Run(p)) + [t], Run(r));
      }
    }
  }

  /** Thread t either takes precedence over the current thread of c or nothing happens. */
  ghost predicate GaveWay(threads: Threads, threads': Threads, cpus: seq<Cpu>, cpus': seq<Cpu>, c: nat, t: nat)
    requires c < |cpus| && t in threads
  {
    if && cpus[c].thread.Some? && cpus[c].thread.value in threads
       && Prio(threads, t) < Prio(threads, cpus[c].thread.value) then
      var cur := cpus[c].thread.value;
      if cpus[c].lockCount > 0 then
        cpus' == cpus && threads' == threads[cur := threads[cur].(reschedule := true)]
      else
        && cpus' == cpus[c := cpus[c].(thread := None)]
        && threads' == threads[cur := Readied(threads[cur])]
    else
      cpus' == cpus && threads' == threads
  }

  ghost predicate Resumed(threads: Threads, threads': Threads, cpus: seq<Cpu>, cpus': seq<Cpu>, c: nat, t: nat)
    requires c < |cpus| && t in threads
  {
    if threads[t].state == Sleeping || threads[t].state == Blocked then
      var woken := threads[t := Readied(threads[t])];
      GaveWay(woken, threads', cpus, cpus', c, t)
    else
      threads' == threads && cpus' == cpus
  }

  // ---- Changing a priority ------------------------------------------------------------------------

  /** Raising the priority moves a ready thread to another run queue. */
  function Lowered(th: Thread, p: nat): Thread {
    th.(priority := p, link := if th.state == Ready then Some(Run(p)) else th.link)
  }

  lemma LoweredPlaced(threads: Threads, t: nat, p: nat)
    requires AllPlaced(threads) && t in threads && p < MAX_PRIORITIES
    ensures Placed(threads[t]) && Placed(Lowered(threads[t], p))
  {
  }

  /** A thread that is not blocked is on no mutex's list; one that is, is on one. */
  lemma NotWaiting(threads: Threads, queues: Queues, t: nat)
    requires Linked(threads, queues) && AllPlaced(threads) && t in threads
    ensures forall m :: t in Q(queues, Lock(m)) ==> threads[t].state == Blocked && threads[t].sleepOn == m
    ensures forall q :: NoDup(Q(queues, q))
    ensures threads[t].state == Blocked ==> threads[t].link == Some(Lock(threads[t].sleepOn))
    ensures threads[t].state == Ready ==> threads[t].link == Some(Run(threads[t].priority))
  {
    hide Q, NoDup;
    assert Placed(threads[t]);
    assert forall m :: t in Q(queues, Lock(m)) ==> On(threads, t, Lock(m));
  }

  /** Priorities of threads on no mutex's list do not matter to those lists. */
  lemma LocksFrame(threads: Threads, queues: Queues, t: nat, threads': Threads, queues': Queues)
    requires LocksSorted(threads, queues) && forall m :: t !in Q(queues, Lock(m))
    requires forall u :: u != t ==> Prio(threads', u) == Prio(threads, u)
    requires forall m :: Q(queues', Lock(m)) == Q(queues, Lock(m))
    ensures LocksSorted(threads', queues')
  {
    hide Q, Prio, Sorted;
    forall m ensures Sorted(threads', Q(queues', Lock(m))) {
      SortedFrame(threads, threads', Q(queues, Lock(m)));
    }
  }

  lemma RunMoved(threads: Threads, queues: Queues, t: nat, p: nat, threads': Threads, queues': Queues)
    requires LocksSorted(threads, queues) && t in threads && forall m :: t !in Q(queues, Lock(m))
    requires threads' == threads[t := Lowered(threads[t], p)]
    requires forall m :: Q(queues', Lock(m)) == Q(queues, Lock(m))
    ensures LocksSorted(threads', queues')
  {
    hide Q, LocksSorted;
    LocksFrame(threads, queues, t, threads', queues');
  }

  /** A blocked thread left its mutex's list and came back at its new priority. */
  lemma LockMoved(threads: Threads, queues: Queues, t: nat, p: nat, mid: Queues, k: nat, threads': Threads,
                  queues': Queues)
    requires LocksSorted(threads, queues) && t in threads && threads[t].state == Blocked
    requires threads' == threads[t := Lowered(threads[t], p)]
    requires forall m :: t in Q(queues, Lock(m)) ==> m == threads[t].sleepOn
    requires var q := Lock(threads[t].sleepOn);
      && NoDup(Q(queues, q)) && mid == queues[q := Remove(Q(queues, q), t)]
      && Behind(threads', Q(mid, q), p, k) && queues' == mid[q := InsertAt(Q(mid, q), k, t)]
    ensures LocksSorted(threads', queues')
  {
    hide Sorted, Behind, Q, InsertAt;
    var q := Lock(threads[t].sleepOn);
    var l := Q(mid, q);
    UpdateQueue(queues, q, Remove(Q(queues, q), t), q);
    RemoveNoDup(Q(queues, q), t);
    SortedRemove(threads, Q(queues, q), t);
    SortedFrame(threads, threads', l);
    SortedBehind(threads', l, p, k, t);
    forall m ensures Sorted(threads', Q(queues', Lock(m))) {
      UpdateQueue(queues, q, l, Lock(m));
      UpdateQueue(mid, q, InsertAt(l, k, t), Lock(m));
      if m != threads[t].sleepOn { SortedFrame(threads, threads', Q(queues, Lock(m))); }
    }
  }

  lemma SortedBehind(threads: Threads, l: seq<nat>, p: nat, k: nat, t: nat)
    requires Sorted(threads, l) && Behind(threads, l, p, k) && Prio(threads, t) == p
    ensures k <= |l| && Sorted(threads, InsertAt(l, k, t))
  {
    SortedInsert(threads, l, k, t);
  }

  lemma BehindSame(threads: Threads, threads': Threads, l: seq<nat>, p: nat, k: nat)
    requires Behind(threads, l, p, k) && forall u :: Prio(threads', u) == Prio(threads, u)
    ensures Behind(threads', l, p, k)
  {
  }

  lemma BlockedMutex(threads: Threads, mutexes: map<nat, Mutex>, t: nat)
    requires Owners(threads, mutexes) && t in threads && threads[t].state == Blocked
    ensures threads[t].sleepOn in mutexes
  {
  }

  // ---- Owning mutexes --------------------------------------------------------------------------------

  /** Mutex m changed hands or owner, and its old or new owner's list with it. */
  lemma OwnersOne(threads: Threads, mutexes: map<nat, Mutex>, t: nat, l: seq<nat>, m: nat, mx: Mutex)
    requires Owners(threads, mutexes) && t in threads && m in mutexes && NoDup(l)
    requires forall x :: x in l <==> if x == m then mx.owner == Some(t) else x in threads[t].owned
    requires mutexes[m].owner == None || mutexes[m].owner == Some(t)
    requires mx.owner == None || mx.owner == Some(t)
    requires mx.priority == mutexes[m].priority
    ensures Owners(threads[t := threads[t].(owned := l)], mutexes[m := mx])
  {
    hide NoDup;
    var threads', mutexes' := threads[t := threads[t].(owned := l)], mutexes[m := mx];
    forall u, x ensures Agree(threads', mutexes', u, x) {
      assert Agree(threads, mutexes, u, x);
    }
  }

  lemma Acquired(threads: Threads, mutexes: map<nat, Mutex>, t: nat, m: nat)
    requires Owners(threads, mutexes) && t in threads && m in mutexes && mutexes[m].owner == None
    ensures Owners(threads[t := threads[t].(owned := [m] + threads[t].owned)],
      mutexes[m := mutexes[m].(owner := Some(t))])
  {
    assert Agree(threads, mutexes, t, m) && NoDup(threads[t].owned);
    hide Owners;
    OwnersOne(threads, mutexes, t, [m] + threads[t].owned, m, mutexes[m].(owner := Some(t)));
  }

  lemma Released(threads: Threads, mutexes: map<nat, Mutex>, t: nat, m: nat)
    requires Owners(threads, mutexes) && t in threads && m in mutexes && mutexes[m].owner == Some(t)
    ensures Owners(threads[t := threads[t].(owned := Remove(threads[t].owned, m))],
      mutexes[m := mutexes[m].(owner := None)])
  {
    assert NoDup(threads[t].owned);
    hide Owners;
    RemoveNoDup(threads[t].owned, m);
    hide NoDup;
    OwnersOne(threads, mutexes, t, Remove(threads[t].owned, m), m, mutexes[m].(owner := None));
  }

  lemma OwnersNewThread(threads: Threads, mutexes: map<nat, Mutex>, t: nat, th: Thread)
    requires Owners(threads, mutexes) && t !in threads && th.owned == [] && th.state != Blocked
    requires forall m :: m in mutexes ==> mutexes[m].owner != Some(t)
    ensures Owners(threads[t := th], mutexes)
  {
    var threads' := threads[t := th];
    forall u, x ensures Agree(threads', mutexes, u, x) {
      assert Agree(threads, mutexes, u, x);
    }
  }

  lemma OwnersNewMutex(threads: Threads, mutexes: map<nat, Mutex>, m: nat)
    requires Owners(threads, mutexes) && m !in mutexes
    ensures Owners(threads, mutexes[m := Mutex(None, MAX_PRIORITIES)])
  {
    hide NoDup;
    var mutexes' := mutexes[m := Mutex(None, MAX_PRIORITIES)];
    forall u, x ensures Agree(threads, mutexes', u, x) {
      assert Agree(threads, mutexes, u, x);
    }
  }

  /** Changing a thread that is on no list. */
  lemma LooseValid(threads: Threads, queues: Queues, t: nat, th: Thread)
    requires Linked(threads, queues) && LocksSorted(threads, queues) && AllPlaced(threads)
    requires t in threads && threads[t].link == None && th.link == None && Placed(th)
    ensures Linked(threads[t := th], queues) && LocksSorted(threads[t := th], queues) && AllPlaced(threads[t := th])
  {
    hide Q, Sorted, NoDup, Placed;
    LinkedSame(threads, queues, t, th);
    PlacedOne(threads, t, th);
    assert forall q :: !On(threads, t, q);
    LocksFrame(threads, queues, t, threads[t := th], queues);
  }

  /** Thread t stands behind all threads of l that are as good. */
  ghost predicate LastOfEquals(threads: Threads, l: seq<nat>, t: nat) {
    t in l && forall i, j :: 0 <= i < j < |l| && l[i] == t ==> Prio(threads, l[j]) > Prio(threads, t)
  }

  lemma BehindLast(threads: Threads, threads': Threads, l: seq<nat>, p: nat, k: nat, t: nat)
    requires Behind(threads, l, p, k) && Sorted(threads, l) && t !in l && Prio(threads', t) == p
    requires forall u :: u in l ==> Prio(threads', u) == Prio(threads, u)
    ensures LastOfEquals(threads', InsertAt(l, k, t), t)
  {
    var r := InsertAt(l, k, t);
    forall i | 0 <= i < |r| ensures r[i] == if i < k then l[i] else if i == k then t else l[i - 1] {}
    hide InsertAt, Prio;
    assert r[k] == t && t in r;
    forall j | k <= j < |l| ensures Prio(threads', l[j]) > p {
      assert l[j] in l && Prio(threads, l[k]) <= Prio(threads, l[j]);
    }
    forall i, j | 0 <= i < j < |r| && r[i] == t ensures Prio(threads', r[j]) > Prio(threads', t) {
      assert i == k;
    }
  }

  /** Waking a thread makes it ready, and ready threads stay ready. */
  lemma ResumedReady(threads: Threads, threads': Threads, cpus: seq<Cpu>, cpus': seq<Cpu>, c: nat, w: nat)
    requires c < |cpus| && w in threads && (threads[w].state == Sleeping || threads[w].state == Blocked)
    requires Resumed(threads, threads', cpus, cpus', c, w)
    ensures w in threads' && threads'[w].state == Ready
    ensures forall t :: t in threads && threads[t].state == Ready ==> t in threads' && threads'[t].state == Ready
  {
  }
}
