/** Signals: the pending slots and the queue of a process, and how signals stop and continue it. */
module Signals {
  import opened Arith
  import opened Lists

  const NSIG: nat := 32
  const SIGKILL: nat := 9
  const SIGURG: nat := 16
  const SIGSTOP: nat := 17
  const SIGTSTP: nat := 18
  const SIGCONT: nat := 19
  const SIGCHLD: nat := 20
  const SIGTTIN: nat := 21
  const SIGTTOU: nat := 22

  datatype Signal = Signal(signo: nat, code: int)

  datatype Handler = Default | Ignore | Custom(address: nat)

  datatype Action = Action(handler: Handler, mask: set<nat>, resetHand: bool, noCldStop: bool)

  datatype State = Active | Stopped | Zombie

  /** Slot and action of signal number n are at index n - 1. */
  datatype Process = Process(
    state: State, parent: nat, group: nat, actions: seq<Action>, pending: seq<Option<Signal>>, queue: seq<Signal>,
    mask: set<nat>)

  predicate IsStop(signo: nat) {
    signo == SIGSTOP || signo == SIGTSTP || signo == SIGTTIN || signo == SIGTTOU
  }

  predicate CanBeIgnored(signo: nat) {
    signo != SIGKILL && signo != SIGSTOP
  }

  predicate IgnoredBy(a: Action, signo: nat) {
    a.handler == Ignore || (a.handler == Default && (signo == SIGCHLD || signo == SIGURG))
  }

  predicate IsBlocked(p: Process, signo: nat) {
    CanBeIgnored(signo) && signo in p.mask
  }

  predicate Number(signo: int) {
    1 <= signo <= NSIG
  }

  // ---- What holds between steps ------------------------------------------------------------------

  ghost predicate Sized(p: Process) {
    |p.actions| == NSIG && |p.pending| == NSIG
  }

  ghost predicate Pending(p: Process, signo: nat) {
    Sized(p) && Number(signo) && p.pending[signo - 1].Some?
  }

  ghost predicate OneEach(q: seq<Signal>) {
    forall i, j :: 0 <= i < j < |q| ==> q[i].signo != q[j].signo
  }

  /** The slots and the queue hold the same signals, one per number. */
  ghost predicate Matched(p: Process) {
    && Sized(p)
    && (forall n :: Pending(p, n) ==> p.pending[n - 1].value.signo == n && p.pending[n - 1].value in p.queue)
    && (forall k :: 0 <= k < |p.queue| ==>
         Number(p.queue[k].signo) && p.pending[p.queue[k].signo - 1] == Some(p.queue[k]))
    && OneEach(p.queue)
  }

  ghost predicate NoneIgnored(p: Process) {
    Sized(p) && forall n :: Pending(p, n) ==> !IgnoredBy(p.actions[n - 1], n)
  }

  /** SIGCONT is pending neither together with a stop signal nor on a stopped process. */
  ghost predicate StopOrContinue(p: Process) {
    Pending(p, SIGCONT) ==> p.state != Stopped && forall n :: IsStop(n) ==> !Pending(p, n)
  }

  /** SIGKILL and SIGSTOP have their default actions. */
  ghost predicate NotCaught(p: Process) {
    Sized(p) && p.actions[SIGKILL - 1].handler == Default && p.actions[SIGSTOP - 1].handler == Default
  }

  ghost predicate Good(p: Process) {
    Matched(p) && NoneIgnored(p) && StopOrContinue(p) && NotCaught(p)
  }

  // ---- The order of the queue --------------------------------------------------------------------

  /** What stays pending keeps its slot and its place. */
  ghost predicate Kept(p: Process, p': Process) {
    && (forall n :: Pending(p, n) && Pending(p', n) ==> p'.pending[n - 1] == p.pending[n - 1])
    && SameOrder(p.queue, p'.queue)
  }

  lemma KeptSame(p: Process, p': Process)
    requires p'.pending == p.pending && p'.queue == p.queue
    ensures Kept(p, p')
  {
  }

  /** A signal that is pending first and last has been so in between. */
  lemma KeptTrans(p: Process, m: Process, p': Process)
    requires Matched(p) && Matched(m) && Matched(p') && Kept(p, m) && Kept(m, p')
    requires forall n :: Pending(p, n) && Pending(p', n) ==> Pending(m, n)
    ensures Kept(p, p')
  {
    hide OneEach;
    forall a, b | Ahead(p'.queue, a, b) && b in p.queue ensures Ahead(p.queue, a, b) {
      var i, j :| 0 <= i < j < |p'.queue| && p'.queue[i] == a && p'.queue[j] == b;
      var k :| 0 <= k < |p.queue| && p.queue[k] == b;
      assert Pending(p, b.signo) && Pending(p', b.signo) && Pending(m, b.signo);
      assert m.pending[b.signo - 1] == Some(b);
      assert b in m.queue;
      assert Ahead(m.queue, a, b);
    }
  }

  lemma {:induction false} UnlinkedOrder(q: seq<Signal>, signo: nat)
    ensures forall x :: x in Unlinked(q, signo) ==> x in q
    ensures forall a, b :: Ahead(Unlinked(q, signo), a, b) ==> Ahead(q, a, b)
  {
    if q != [] {
      var t := q[1..];
      var u := Unlinked(t, signo);
      UnlinkedOrder(t, signo);
      assert q == [q[0]] + t;
      forall a, b | Ahead(t, a, b) ensures Ahead(q, a, b) { AheadCons(q[0], t, a, b); }
      if q[0].signo != signo {
        forall a, b | Ahead([q[0]] + u, a, b) ensures Ahead(q, a, b) {
          AheadFirst(q[0], u, a, b);
          if b in u { AheadHead(q[0], t, b); }
        }
      }
    }
  }

  // ---- Changes to one process --------------------------------------------------------------------

  /** The queue without the signal of a given number. */
  function Unlinked(q: seq<Signal>, signo: nat): seq<Signal> {
    if q == [] then [] else if q[0].signo == signo then q[1..] else [q[0]] + Unlinked(q[1..], signo)
  }

  lemma {:induction false} UnlinkedMeans(q: seq<Signal>, signo: nat)
    requires OneEach(q)
    ensures OneEach(Unlinked(q, signo))
    ensures forall s :: s in Unlinked(q, signo) <==> s in q && s.signo != signo
  {
    if q != [] {
      var t := q[1..];
      OneEachTail(q);
      UnlinkedMeans(t, signo);
      assert q == [q[0]] + t;
      var u := Unlinked(t, signo);
      hide OneEach, Unlinked;
      if q[0].signo != signo { OneEachCons(q[0], u); }
      assert Unlinked(q, signo) == if q[0].signo == signo then t else [q[0]] + u by { UnlinkedStep(q, signo); }
    }
  }

  lemma UnlinkedStep(q: seq<Signal>, signo: nat)
    requires q != []
    ensures Unlinked(q, signo) == if q[0].signo == signo then q[1..] else [q[0]] + Unlinked(q[1..], signo)
  {
  }

  lemma OneEachTail(q: seq<Signal>)
    requires OneEach(q) && q != []
    ensures OneEach(q[1..]) && forall s :: s in q[1..] ==> s.signo != q[0].signo
  {
  }

  lemma OneEachCons(x: Signal, q: seq<Signal>)
    requires OneEach(q) && forall s :: s in q ==> s.signo != x.signo
    ensures OneEach([x] + q)
  {
    var r := [x] + q;
    forall i, j | 0 <= i < j < |r| ensures r[i].signo != r[j].signo {
      assert r[j] == q[j - 1] && q[j - 1] in q;
    }
  }

  /** Empty a slot and unlink its signal. */
  function Discarded(p: Process, signo: nat): Process {
    if 1 <= signo <= |p.pending| && p.pending[signo - 1].Some? then
      p.(pending := p.pending[signo - 1 := None], queue := Unlinked(p.queue, signo))
    else p
  }

  lemma DiscardedGood(p: Process, signo: nat)
    requires Good(p)
    ensures var p' := Discarded(p, signo);
      Good(p') && p'.state == p.state && p'.actions == p.actions && forall n :: Pending(p', n) <==>
        Pending(p, n) && n != signo
  {
    var p' := Discarded(p, signo);
    if Pending(p, signo) {
      UnlinkedMeans(p.queue, signo);
      assert forall n :: Pending(p', n) <==> Pending(p, n) && n != signo;
      forall k | 0 <= k < |p'.queue|
        ensures Number(p'.queue[k].signo) && p'.pending[p'.queue[k].signo - 1] == Some(p'.queue[k])
      {
        assert p'.queue[k] in p'.queue;
        var i :| 0 <= i < |p.queue| && p.queue[i] == p'.queue[k];
      }
      assert Matched(p');
    }
  }

  lemma DiscardedKept(p: Process, signo: nat)
    ensures Kept(p, Discarded(p, signo))
  {
    hide Ahead;
    UnlinkedOrder(p.queue, signo);
  }

  function Queued(p: Process, s: Signal): Process
    requires 1 <= s.signo <= |p.pending|
  {
    p.(queue := p.queue + [s], pending := p.pending[s.signo - 1 := Some(s)])
  }

  lemma QueuedMatched(p: Process, s: Signal)
    requires Matched(p) && Number(s.signo) && !Pending(p, s.signo)
    ensures Matched(Queued(p, s))
    ensures forall n :: Pending(Queued(p, s), n) <==> Pending(p, n) || n == s.signo
  {
    var p' := Queued(p, s);
    assert forall n :: Pending(p', n) <==> Pending(p, n) || n == s.signo;
    assert s in p'.queue && p'.queue[|p.queue|] == s;
    assert forall x :: x in p.queue ==> x in p'.queue;
    assert forall k :: 0 <= k < |p.queue| ==> p'.queue[k] == p.queue[k] && p.queue[k].signo != s.signo;
  }

  lemma QueuedGood(p: Process, s: Signal)
    requires Good(p) && Number(s.signo) && !Pending(p, s.signo) && !IgnoredBy(p.actions[s.signo - 1], s.signo)
    requires s.signo == SIGCONT ==> p.state != Stopped && forall n :: IsStop(n) ==> !Pending(p, n)
    requires IsStop(s.signo) ==> !Pending(p, SIGCONT)
    ensures Good(Queued(p, s))
    ensures forall n :: Pending(Queued(p, s), n) <==> Pending(p, n) || n == s.signo
  {
    QueuedMatched(p, s);
    hide Matched, OneEach;
  }

  lemma QueuedKept(p: Process, s: Signal)
    requires Matched(p) && Number(s.signo) && !Pending(p, s.signo)
    ensures Kept(p, Queued(p, s))
  {
    hide OneEach;
    var q, q' := p.queue, Queued(p, s).queue;
    assert s !in q;
    forall a, b | Ahead(q', a, b) && b in q ensures Ahead(q, a, b) {
      var i, j :| 0 <= i < j < |q'| && q'[i] == a && q'[j] == b;
      assert j < |q|;
    }
  }

  /** A stop signal throws out SIGCONT and SIGCONT throws out the stop signals. */
  function Cleared(p: Process, signo: nat): Process {
    if IsStop(signo) then Discarded(p, SIGCONT)
    else if signo == SIGCONT then
      Discarded(Discarded(Discarded(Discarded(p, SIGSTOP), SIGTSTP), SIGTTIN), SIGTTOU)
    else p
  }

  ghost predicate ThrownOut(signo: nat, n: nat) {
    (IsStop(signo) && n == SIGCONT) || (signo == SIGCONT && IsStop(n))
  }

  lemma ClearedGood(p: Process, signo: nat)
    requires Good(p)
    ensures var p' := Cleared(p, signo);
      Good(p') && p'.state == p.state && p'.actions == p.actions && forall n :: Pending(p', n) <==>
        Pending(p, n) && !ThrownOut(signo, n)
  {
    hide Good, Pending, Discarded;
    if IsStop(signo) {
      DiscardedGood(p, SIGCONT);
    } else if signo == SIGCONT {
      var p1 := Discarded(p, SIGSTOP);
      var p2 := Discarded(p1, SIGTSTP);
      var p3 := Discarded(p2, SIGTTIN);
      DiscardedGood(p, SIGSTOP);
      DiscardedGood(p1, SIGTSTP);
      DiscardedGood(p2, SIGTTIN);
      DiscardedGood(p3, SIGTTOU);
    }
  }

  lemma ClearedKept(p: Process, signo: nat)
    requires Good(p)
    ensures Kept(p, Cleared(p, signo))
  {
    hide NoneIgnored, StopOrContinue, NotCaught, Kept, Pending, Discarded;
    if IsStop(signo) {
      DiscardedKept(p, SIGCONT);
    } else if signo == SIGCONT {
      var p1 := Discarded(p, SIGSTOP);
      var p2 := Discarded(p1, SIGTSTP);
      var p3 := Discarded(p2, SIGTTIN);
      DiscardTwice(p, p, SIGSTOP);
      DiscardTwice(p, p1, SIGTSTP);
      DiscardTwice(p, p2, SIGTTIN);
      DiscardTwice(p, p3, SIGTTOU);
    } else {
      KeptSame(p, p);
    }
  }

  lemma DiscardTwice(p: Process, m: Process, signo: nat)
    requires Good(p) && Good(m) && (m == p || Kept(p, m))
    ensures Good(Discarded(m, signo)) && Kept(p, Discarded(m, signo))
  {
    hide NoneIgnored, StopOrContinue, NotCaught, Kept, Discarded, Matched, Good, Pending;
    DiscardedGood(m, signo);
    DiscardedKept(m, signo);
    if m != p {
      GoodMatched(p);
      GoodMatched(m);
      GoodMatched(Discarded(m, signo));
      KeptTrans(p, m, Discarded(m, signo));
    }
  }

  lemma GoodMatched(p: Process)
    requires Good(p)
    ensures Matched(p)
  {
  }

  // ---- Changes to the system of processes --------------------------------------------------------------

  type Procs = map<nat, Process>

  ghost predicate AllGood(procs: Procs) {
    forall pid :: pid in procs ==> Good(procs[pid])
  }

  /** A process after a signal has been generated for it. */
  function After(p: Process, signo: nat, code: int): Process
    requires 1 <= signo <= |p.pending| && |p.actions| == |p.pending|
  {
    if p.pending[signo - 1].Some? then p
    else
      var p1 := Cleared(p, signo);
      var p2 := if signo == SIGCONT && p1.state == Stopped then p1.(state := Active) else p1;
      if IgnoredBy(p.actions[signo - 1], signo) || |p2.pending| < signo then p2 else Queued(p2, Signal(signo, code))
  }

  /** What generating a signal means for the set of pending signals and the state. */
  ghost predicate Generated(p: Process, p': Process, signo: nat, code: int) {
    && p'.actions == p.actions && p'.mask == p.mask && p'.parent == p.parent && p'.group == p.group
    && if Pending(p, signo) then p' == p
       else
         && p'.state == (if signo == SIGCONT && p.state == Stopped then Active else p.state)
         && (forall n :: n != signo ==> (Pending(p', n) <==> Pending(p, n) && !ThrownOut(signo, n)))
         && (Pending(p', signo) <==> Number(signo) && Sized(p) && !IgnoredBy(p.actions[signo - 1], signo))
         && (Pending(p', signo) ==> p'.queue != [] && p'.queue[|p'.queue| - 1] == Signal(signo, code))
  }

  lemma WokenGood(p: Process)
    requires Good(p)
    ensures Good(p.(state := Active)) && forall n :: Pending(p.(state := Active), n) <==> Pending(p, n)
  {
    assert forall n :: Pending(p.(state := Active), n) <==> Pending(p, n);
  }

  lemma AfterMeans(p: Process, signo: nat, code: int)
    requires Good(p) && Number(signo)
    ensures Good(After(p, signo, code)) && Generated(p, After(p, signo, code), signo, code)
  {
    hide Good, Cleared;
    GoodSized(p);
    if !p.pending[signo - 1].Some? {
      ClearedGood(p, signo);
      ClearedRest(p, signo);
      var p1 := Cleared(p, signo);
      WokenGood(p1);
      var p2 := if signo == SIGCONT && p1.state == Stopped then p1.(state := Active) else p1;
      assert Sized(p2) by { GoodSized(p2); }
      if !IgnoredBy(p.actions[signo - 1], signo) {
        assert !Pending(p2, signo);
        QueuedGood(p2, Signal(signo, code));
      }
    }
  }

  lemma AfterKept(p: Process, signo: nat, code: int)
    requires Good(p) && Number(signo)
    ensures Sized(p) && Kept(p, After(p, signo, code))
    ensures !Pending(p, signo) && Pending(After(p, signo, code), signo) ==>
      After(p, signo, code).pending[signo - 1] == Some(Signal(signo, code))
  {
    hide Good, Cleared, Kept, Matched;
    GoodSized(p);
    if p.pending[signo - 1].Some? {
      KeptSame(p, p);
    } else {
      ClearedGood(p, signo);
      ClearedRest(p, signo);
      ClearedKept(p, signo);
      var p1 := Cleared(p, signo);
      var p2 := if signo == SIGCONT && p1.state == Stopped then p1.(state := Active) else p1;
      WokenGood(p1);
      GoodSized(p2);
      KeptState(p, p1, p2);
      if !IgnoredBy(p.actions[signo - 1], signo) { AddedKept(p, p2, Signal(signo, code)); }
    }
  }

  lemma KeptState(p: Process, m: Process, m': Process)
    requires Kept(p, m) && m'.queue == m.queue && m'.pending == m.pending && m'.actions == m.actions
    ensures Kept(p, m')
  {
    assert forall n :: Pending(m', n) ==> Pending(m, n);
    hide SameOrder;
  }

  lemma AddedKept(p: Process, m: Process, s: Signal)
    requires Good(p) && Good(m) && Kept(p, m) && Number(s.signo) && !Pending(p, s.signo) && !Pending(m, s.signo)
    requires m.actions == p.actions && !IgnoredBy(p.actions[s.signo - 1], s.signo)
    ensures Kept(p, Queued(m, s))
  {
    hide NoneIgnored, StopOrContinue, NotCaught, SameOrder, OneEach;
    QueuedKept(m, s);
    QueuedMatched(m, s);
    hide Matched;
    KeptTrans(p, m, Queued(m, s));
  }

  lemma GoodSized(p: Process)
    requires Good(p)
    ensures Sized(p)
  {
  }

  lemma ClearedRest(p: Process, signo: nat)
    ensures var p' := Cleared(p, signo); p'.mask == p.mask && p'.parent == p.parent && p'.group == p.group
    ensures !IsStop(signo) && signo != SIGCONT ==> Cleared(p, signo) == p
  {
  }

  /** The parent after it has been told of a change of state. */
  function Told(q: Process, zombie: bool): Process
    requires |q.actions| == |q.pending| == NSIG
  {
    if !zombie && q.actions[SIGCHLD - 1].noCldStop then q else After(q, SIGCHLD, 0)
  }

  lemma ToldKept(q: Process, zombie: bool)
    requires Good(q)
    ensures Sized(q) && Kept(q, Told(q, zombie)) && Good(Told(q, zombie))
    ensures forall n :: Pending(q, n) ==> Pending(Told(q, zombie), n)
    ensures forall n :: Pending(Told(q, zombie), n) ==> Pending(q, n) || n == SIGCHLD
  {
    hide Kept, Good, After;
    GoodSized(q);
    KeptSame(q, q);
    AfterMeans(q, SIGCHLD, 0);
    AfterKept(q, SIGCHLD, 0);
  }

  /** Of the other processes only the parent of pid changes, and only if it is told. */
  ghost predicate OthersAfter(procs: Procs, procs': Procs, pid: nat, told: bool, zombie: bool) {
    && procs'.Keys == procs.Keys && pid in procs
    && forall q :: q in procs && q != pid ==>
         Sized(procs[q]) && procs'[q] == if told && q == procs[pid].parent then Told(procs[q], zombie) else procs[q]
  }

  /** The others do not depend on what becomes of pid. */
  lemma OthersSame(procs: Procs, procs': Procs, pid: nat, p: Process)
    ensures forall told: bool, zombie: bool ::
      OthersAfter(procs, procs', pid, told, zombie) ==> OthersAfter(procs, procs'[pid := p], pid, told, zombie)
  {
    hide Told;
  }

  // ---- A signal for many processes ------------------------------------------------------------------

  /** Process q, which is p, is meant by the argument `pid` of a caller in a group. */
  predicate Matches(p: Process, q: nat, pid: int, group: nat) {
    pid == -1 || q == pid || (pid < 0 && p.group == -pid) || (pid == 0 && p.group == group)
  }

  ghost function Meant(procs: Procs, pid: int, group: nat): set<nat> {
    set q | q in procs && Matches(procs[q], q, pid, group)
  }

  /** One of the processes in sel is a stopped child of q, and q wants to know about it. */
  ghost predicate Hears(procs: Procs, sel: set<nat>, q: nat)
    requires q in procs && Sized(procs[q])
  {
    && !procs[q].actions[SIGCHLD - 1].noCldStop
    && exists c :: c in sel && c in procs && c != q && procs[c].parent == q && procs[c].state == Stopped
  }

  /** The signals pending for q after one was sent to all processes in sel. */
  ghost predicate PendingAfter(procs: Procs, sel: set<nat>, signo: nat, q: nat, n: nat)
    requires q in procs && Sized(procs[q])
  {
    if q in sel && n == signo && Number(n) then !IgnoredBy(procs[q].actions[n - 1], n)
    else if signo == SIGCONT && n == SIGCHLD && Hears(procs, sel, q) then !IgnoredBy(procs[q].actions[n - 1], n)
    else Pending(procs[q], n) && !(q in sel && ThrownOut(signo, n))
  }

  ghost predicate SentTo(procs: Procs, sel: set<nat>, signo: nat, code: int, q: nat, p': Process)
    requires q in procs && Sized(procs[q])
  {
    var p := procs[q];
    && p'.actions == p.actions && p'.mask == p.mask && p'.parent == p.parent && p'.group == p.group
    && p'.state == (if q in sel && signo == SIGCONT && p.state == Stopped then Active else p.state)
    && (forall n :: Pending(p', n) <==> PendingAfter(procs, sel, signo, q, n))
    && Kept(p, p')
    && forall n :: Pending(p', n) && !Pending(p, n) ==>
         p'.pending[n - 1] == Some(if q in sel && n == signo then Signal(n, code) else Signal(n, 0))
  }

  /**
   * What sending a signal to all processes in sel comes to, in whatever order they get it: SIGCONT
   * continues those that are stopped and their parents hear of it, and nothing else happens to
   * processes that are not in sel.
   */
  ghost predicate Sent(procs: Procs, procs': Procs, sel: set<nat>, signo: nat, code: int) {
    && procs'.Keys == procs.Keys
    && forall q :: q in procs ==> Sized(procs[q]) && SentTo(procs, sel, signo, code, q, procs'[q])
  }

  lemma SentNone(procs: Procs, signo: nat, code: int)
    requires AllGood(procs)
    ensures Sent(procs, procs, {}, signo, code)
  {
    AllSized(procs);
  }

  /** One more signal, for a process that is no longer what it was. */
  lemma AfterMore(was: Process, p: Process, signo: nat, code: int)
    requires Good(was) && Good(p) && Kept(was, p) && Number(signo) && (Pending(was, signo) ==> Pending(p, signo))
    ensures Sized(p) && Kept(was, After(p, signo, code))
    ensures forall n :: Pending(After(p, signo, code), n) ==>
      if n == signo && !Pending(p, n) then After(p, signo, code).pending[n - 1] == Some(Signal(n, code))
      else Pending(p, n) && After(p, signo, code).pending[n - 1] == p.pending[n - 1]
  {
    hide After, Good, SameOrder, IgnoredBy, Matched;
    AfterMeans(p, signo, code);
    AfterKept(p, signo, code);
    GoodMatched(was);
    GoodMatched(p);
    GoodMatched(After(p, signo, code));
    KeptTrans(was, p, After(p, signo, code));
  }

  /** The process that gets the signal next. */
  lemma SentSelf(procs: Procs, sel: set<nat>, signo: nat, code: int, x: nat, p: Process)
    requires x in procs && x !in sel && Sized(procs[x]) && Good(procs[x]) && Good(p) && Number(signo) && Sized(p)
    requires SentTo(procs, sel, signo, code, x, p)
    ensures SentTo(procs, sel + {x}, signo, code, x, After(p, signo, code))
  {
    hide After, Good, AllGood, IgnoredBy, Pending, Hears, Kept;
    AfterMeans(p, signo, code);
    AfterMore(procs[x], p, signo, code);
    DeliveredFacts(p);
    assert Hears(procs, sel + {x}, x) == Hears(procs, sel, x) by { HearsSelf(procs, sel, x); }
  }

  lemma HearsSelf(procs: Procs, sel: set<nat>, x: nat)
    requires x in procs && Sized(procs[x])
    ensures Hears(procs, sel + {x}, x) == Hears(procs, sel, x)
  {
  }

  /** A parent that hears of its child. */
  lemma SentParent(procs: Procs, sel: set<nat>, signo: nat, code: int, x: nat, q: nat, p: Process)
    requires q in procs && x in procs && x != q && Sized(procs[q]) && Good(procs[q]) && Good(p) && Sized(p)
    requires SentTo(procs, sel, signo, code, q, p)
    requires signo == SIGCONT && procs[x].state == Stopped && procs[x].parent == q
    ensures SentTo(procs, sel + {x}, signo, code, q, Told(p, false))
  {
    hide After, Good, AllGood, IgnoredBy, Pending, Kept;
    AfterMeans(p, SIGCHLD, 0);
    DeliveredFacts(p);
    DeliveredFacts(procs[q]);
    AfterMore(procs[q], p, SIGCHLD, 0);
    assert x in sel + {x};
    assert Hears(procs, sel + {x}, q) <==> !procs[q].actions[SIGCHLD - 1].noCldStop;
    assert Hears(procs, sel, q) ==> Hears(procs, sel + {x}, q);
  }

  /** Everyone else. */
  lemma SentOther(procs: Procs, sel: set<nat>, signo: nat, code: int, x: nat, q: nat, p: Process)
    requires q in procs && x in procs && x != q && Sized(procs[q])
    requires SentTo(procs, sel, signo, code, q, p)
    requires signo != SIGCONT || procs[x].state != Stopped || procs[x].parent != q
    ensures SentTo(procs, sel + {x}, signo, code, q, p)
  {
    hide Kept;
    assert signo == SIGCONT ==> (Hears(procs, sel + {x}, q) <==> Hears(procs, sel, q));
  }

  lemma SentStep(was: Procs, procs: Procs, procs': Procs, sel: set<nat>, signo: nat, code: int, x: nat)
    requires AllGood(was) && AllGood(procs) && Sent(was, procs, sel, signo, code) && Number(signo)
    requires x in procs && x !in sel && Sized(procs[x]) && x in procs' && procs'[x] == After(procs[x], signo, code)
    requires OthersAfter(procs, procs', x,
      signo == SIGCONT && !Pending(procs[x], SIGCONT) && procs[x].state == Stopped, false)
    ensures Sent(was, procs', sel + {x}, signo, code)
  {
    AllSized(procs);
    AllSized(was);
    DeliveredFacts(procs[x]);
    hide After, Told, SentTo, Good;
    SentState(was, procs, sel, signo, code, x);
    var told := signo == SIGCONT && procs[x].state == Stopped;
    forall q | q in was ensures SentTo(was, sel + {x}, signo, code, q, procs'[q]) {
      assert Good(procs[q]) && Good(was[q]) && SentTo(was, sel, signo, code, q, procs[q]);
      if q == x {
        SentSelf(was, sel, signo, code, x, procs[x]);
      } else if told && q == was[x].parent {
        SentParent(was, sel, signo, code, x, q, procs[q]);
      } else {
        SentOther(was, sel, signo, code, x, q, procs[q]);
      }
    }
  }

  lemma SentState(was: Procs, procs: Procs, sel: set<nat>, signo: nat, code: int, x: nat)
    requires Sent(was, procs, sel, signo, code) && x in was && x !in sel
    ensures procs[x].state == was[x].state && procs[x].parent == was[x].parent
  {
  }

  lemma SentMatches(was: Procs, procs: Procs, sel: set<nat>, signo: nat, code: int, q: nat, pid: int, group: nat)
    requires Sent(was, procs, sel, signo, code) && q in was
    ensures Matches(procs[q], q, pid, group) <==> Matches(was[q], q, pid, group)
    ensures procs[q].group == was[q].group
  {
  }

  class System {
    var procs: Procs
    /** The processes in the order in which they were created. */
    var list: seq<nat>

    ghost predicate Valid()
      reads this
    {
      AllGood(procs) && Listed(list, procs.Keys)
    }

    constructor ()
      ensures Valid() && procs == map[]
    {
      procs := map[];
      list := [];
    }

    /**
     * Send a signal to all processes that `pid` means; zero only asks.  A number outside the table is
     * not refused: the assertion of `signal_generate_one` fails as soon as one process is meant.
     */
    method Generate(caller: nat, pid: int, signo: int, code: int) returns (r: Outcome)
      requires Valid() && caller in procs
      modifies this`procs
      ensures Valid()
      ensures r == AssertionFails <==>
        signo != 0 && !Number(signo) && Meant(old(procs), pid, old(procs)[caller].group) != {}
      ensures r == AssertionFails || !Number(signo) ==> procs == old(procs)
      ensures Number(signo) ==> Sent(old(procs), procs, Meant(old(procs), pid, old(procs)[caller].group), signo, code)
    {
      hide AllGood, Sent, OthersAfter, After, Matches, Pending;
      ghost var sel := {};
      ghost var group := procs[caller].group;
      if Number(signo) { SentNone(procs, signo, code); }
      var i := 0;
      while i < |list|
        invariant i <= |list| && Valid() && caller in procs && procs.Keys == old(procs).Keys
        invariant procs[caller].group == group
        invariant !Number(signo) ==> procs == old(procs)
        invariant Number(signo) ==> Sent(old(procs), procs, sel, signo, code)
        invariant forall q :: q in sel <==> q in list[..i] && q in old(procs) && Matches(old(procs)[q], q, pid, group)
        invariant signo != 0 && !Number(signo) ==> sel == {}
      {
        var q := list[i];
        ghost var before := procs;
        ListedNext(list, i, procs.Keys);
        if Number(signo) {
          SentMatches(old(procs), procs, sel, signo, code, q, pid, group);
          SentMatches(old(procs), procs, sel, signo, code, caller, pid, group);
        }
        if Matches(procs[q], q, pid, procs[caller].group) {
          if signo != 0 {
            var ok := GenerateOne(q, signo, code);
            if !ok {
              assert q in Meant(old(procs), pid, group);
              return AssertionFails;
            }
            SentStep(old(procs), before, procs, sel, signo, code, q);
            SentMatches(old(procs), procs, sel + {q}, signo, code, caller, pid, group);
          }
          sel := sel + {q};
        }
        i := i + 1;
      }
      assert list[..i] == list;
      assert sel == Meant(old(procs), pid, group);
      return Accepted;
    }

    /**
     * Generate a signal for one process, unless the assertion on its number fails.  Only SIGCONT can
     * make it generate another one, for the parent.
     */
    method GenerateOne(pid: nat, signo: int, code: int) returns (ok: bool)
      requires Valid() && pid in procs
      modifies this`procs
      ensures Valid() && (ok <==> Number(signo)) && procs.Keys == old(procs).Keys
      ensures !ok ==> procs == old(procs)
      ensures ok ==> Sized(old(procs)[pid]) && procs[pid] == After(old(procs)[pid], signo, code)
      ensures ok ==> OthersAfter(old(procs), procs, pid,
        signo == SIGCONT && !Pending(old(procs)[pid], SIGCONT) && old(procs)[pid].state == Stopped, false)
      decreases if signo == SIGCONT then 1 else 0, 2
    {
      hide Good, AllGood, After, Cleared, Told, Listed;
      if !Number(signo) {
        return false;
      }
      ok := true;
      AllSized(procs);
      var p := procs[pid];
      AllButOne(procs, pid);
      AfterMeans(p, signo, code);
      AfterSteps(p, signo, code);
      if p.pending[signo - 1].Some? {
        return;
      }
      ClearedGood(p, signo);
      ClearedRest(p, signo);
      if IsStop(signo) {
        procs := procs[pid := Cleared(p, signo)];
      } else if signo == SIGCONT {
        procs := procs[pid := Cleared(p, signo)];
        assert procs.Keys == old(procs).Keys;
        Continue(pid);
      }
      assert procs.Keys == old(procs).Keys;
      hide OthersAfter, Pending;
      AllButOne(procs, pid);
      p := procs[pid];
      GoodSized(p);
      if !IgnoredBy(p.actions[signo - 1], signo) {
        OthersSame(old(procs), procs, pid, Queued(p, Signal(signo, code)));
        procs := procs[pid := Queued(p, Signal(signo, code))];
      }
      assert procs.Keys == old(procs).Keys;
    }

    /** Let a stopped process run. */
    method Continue(pid: nat)
      requires Valid() && pid in procs
      modifies this`procs
      ensures Valid() && OthersAfter(old(procs), procs, pid, old(procs)[pid].state == Stopped, false)
      ensures var was := old(procs)[pid];
        procs[pid] == was.(state := if was.state == Stopped then Active else was.state)
      decreases 1, 1
    {
      hide Matched, NoneIgnored, StopOrContinue, Told;
      AllSized(procs);
      if procs[pid].state == Stopped {
        WokenGood(procs[pid]);
        procs := procs[pid := procs[pid].(state := Active)];
        StateChange(pid);
      }
    }

    /** Tell the parent of a process that the state of the process changed. */
    method StateChange(pid: nat)
      requires Valid() && pid in procs
      modifies this`procs
      ensures Valid() && OthersAfter(old(procs), procs, pid, true, old(procs)[pid].state == Zombie)
      ensures procs[pid] == old(procs)[pid]
      decreases 1, 0
    {
      hide Matched, NoneIgnored, StopOrContinue, After;
      AllSized(procs);
      var parent := procs[pid].parent;
      if parent !in procs || parent == pid {
        return;
      }
      if procs[pid].state != Zombie && procs[parent].actions[SIGCHLD - 1].noCldStop {
        return;
      }
      var _ := GenerateOne(parent, SIGCHLD, 0);
    }

    /** Stop a process that is not stopped. */
    method StopProcess(pid: nat)
      requires Valid() && pid in procs && !Pending(procs[pid], SIGCONT)
      modifies this`procs
      ensures Valid() && OthersAfter(old(procs), procs, pid, old(procs)[pid].state != Stopped, false)
      ensures procs[pid] == old(procs)[pid].(state := Stopped)
    {
      hide Matched, NoneIgnored, StopOrContinue, Told, Pending;
      AllSized(procs);
      if procs[pid].state != Stopped {
        StoppedGood(procs[pid]);
        procs := procs[pid := procs[pid].(state := Stopped)];
        StateChange(pid);
      }
    }

    /** Take the first signal off the queue that is not blocked; a stopped process only gets SIGKILL and SIGCONT. */
    method Dequeue(pid: nat) returns (r: Option<Signal>)
      requires Valid() && pid in procs
      modifies this`procs
      ensures Valid()
      ensures r.None? ==> procs == old(procs) && forall s :: s in procs[pid].queue ==> !Deliverable(procs[pid], s)
      ensures r.Some? ==>
        && First(old(procs)[pid], r.value) && Pending(old(procs)[pid], r.value.signo)
        && procs == old(procs)[pid := Discarded(old(procs)[pid], r.value.signo)]
    {
      hide NoneIgnored, StopOrContinue, Discarded;
      var p := procs[pid];
      assert Good(p);
      var k := 0;
      while k < |p.queue| && !Deliverable(p, p.queue[k])
        invariant k <= |p.queue| && procs == old(procs) && forall i :: 0 <= i < k ==> !Deliverable(p, p.queue[i])
      {
        k := k + 1;
      }
      if k == |p.queue| {
        return None;
      }
      var s := p.queue[k];
      DiscardedGood(p, s.signo);
      procs := procs[pid := Discarded(p, s.signo)];
      r := Some(s);
    }

    /**
     * Carry out the action for a signal that has been taken off the queue; the panics of this path
     * cannot be reached.
     */
    method Act(pid: nat, s: Signal, prepared: bool) returns (r: Delivery)
      requires Valid() && pid in procs && Sized(procs[pid]) && Number(s.signo) && !Pending(procs[pid], s.signo)
      requires !IgnoredBy(procs[pid].actions[s.signo - 1], s.signo)
      requires s.signo == SIGCONT ==> procs[pid].state != Stopped
      requires IsStop(s.signo) ==> !Pending(procs[pid], SIGCONT)
      modifies this`procs
      ensures Valid() && OthersAfter(old(procs), procs, pid, StopsNow(old(procs)[pid], s.signo), false)
      ensures r != Nothing && r.signal == s && Acted(old(procs)[pid], procs[pid], r, prepared)
    {
      hide Matched, NoneIgnored, StopOrContinue, Told, Good;
      AllSized(procs);
      var signo := s.signo;
      var p := procs[pid];
      match p.actions[signo - 1].handler {
        case Default =>
          if signo == SIGCHLD || signo == SIGURG {
            assert false;
          } else if IsStop(signo) {
            StopProcess(pid);
            return ByDefault(s, 0);
          } else if signo == SIGCONT {
            if p.state == Stopped {
              assert false;
            }
            return ByDefault(s, 0);
          } else {
            return ByDefault(s, if Terminates(signo) then signo else 0);
          }
        case Ignore =>
          assert false;
        case Custom(a) =>
          if !prepared {
            return Failed(s);
          }
          CaughtGood(p, signo);
          procs := procs[pid := Caught(p, signo)];
          return Handled(s, a);
      }
    }

    /** Deliver one signal to a process that returns to user mode. */
    method Deliver(pid: nat, prepared: bool) returns (r: Delivery)
      requires Valid() && pid in procs
      modifies this`procs
      ensures Valid() && DeliveredOne(old(procs), procs, pid, r, prepared)
    {
      hide Matched, NoneIgnored, StopOrContinue, Discarded, Told, Good, Acted, Pending;
      AllSized(procs);
      ghost var p0 := procs[pid];
      DeliveredFacts(p0);
      var s := Dequeue(pid);
      if s.None? {
        return Nothing;
      }
      DiscardedGood(p0, s.value.signo);
      DiscardedShape(p0, s.value.signo);
      GoodSized(procs[pid]);
      ghost var p1 := procs[pid];
      r := Act(pid, s.value, prepared);
      ActedPending(p1, procs[pid], r, prepared);
    }

    /**
     * Read and change the action of a signal; one that becomes ignored is not left pending.  Number
     * zero passes the test of the range, and its entry would lie in front of the table.
     */
    method ChangeAction(pid: nat, signo: int, action: Option<Action>, fetch: bool) returns (r: Change)
      requires Valid() && pid in procs
      modifies this`procs
      ensures Valid()
      ensures r.Invalid? <==> Refused(signo, action)
      ensures r.OutsideTable? <==> signo == 0 && (fetch || action.Some?)
      ensures !r.Changed? || action.None? ==> procs == old(procs)
      ensures r.Changed? && (fetch || action.Some?) ==> Number(signo) && Sized(old(procs)[pid])
      ensures r.Changed? ==> r.previous == if fetch then Some(old(procs)[pid].actions[signo - 1]) else None
      ensures r.Changed? && action.Some? ==> ActionChanged(old(procs), procs, pid, signo, action.value)
    {
      hide Discarded;
      if signo < 0 || signo >= NSIG {
        return Invalid;
      }
      if action.Some? && action.value.handler != Default && !CanBeIgnored(signo) {
        return Invalid;
      }
      if signo == 0 {
        return if fetch || action.Some? then OutsideTable else Changed(None);
      }
      assert Good(procs[pid]);
      var p := procs[pid];
      var previous := if fetch then Some(p.actions[signo - 1]) else None;
      if action.Some? {
        ActionGood(p, signo, action.value);
        p := p.(actions := p.actions[signo - 1 := action.value]);
        if IgnoredBy(action.value, signo) {
          p := Discarded(p, signo);
        }
        procs := procs[pid := p];
      }
      return Changed(previous);
    }

    /** A process without a parent: default handlers and nothing pending or blocked. */
    method Init(pid: nat, table: seq<Action>)
      requires Valid() && pid !in procs && |table| == NSIG
      modifies this
      ensures Valid() && procs == old(procs)[pid := Initial(pid, table)] && list == old(list) + [pid]
    {
      InitialGood(pid, table);
      list := list + [pid];
      procs := procs[pid := Initial(pid, table)];
    }

    /** A new process has its parent's actions and mask and nothing pending. */
    method Fork(pid: nat, child: nat)
      requires Valid() && pid in procs && child !in procs
      modifies this
      ensures Valid() && procs == old(procs)[child := Newborn(old(procs)[pid], pid)] && list == old(list) + [child]
    {
      assert Good(procs[pid]);
      list := list + [child];
      NewbornGood(procs[pid], pid);
      procs := procs[child := Newborn(procs[pid], pid)];
    }

    method SetMask(pid: nat, mask: set<nat>)
      requires Valid() && pid in procs
      modifies this`procs
      ensures Valid() && procs == old(procs)[pid := old(procs)[pid].(mask := mask - {SIGKILL})]
    {
      assert Good(procs[pid]);
      MaskGood(procs[pid], mask - {SIGKILL});
      procs := procs[pid := procs[pid].(mask := mask - {SIGKILL})];
    }

    /** Move a process to a group; zero stands for the caller and for the caller's group. */
    method SetGroup(caller: nat, pid: int, group: int) returns (ok: bool)
      requires Valid() && caller in procs
      modifies this`procs
      ensures Valid() && (ok <==> group >= 0 && (pid == 0 || (pid > 0 && pid in procs)))
      ensures !ok ==> procs == old(procs)
      ensures ok ==>
        var q: nat, g: nat := if pid == 0 then caller else pid, if group == 0 then old(procs)[caller].group else group;
        q in old(procs) && procs == old(procs)[q := old(procs)[q].(group := g)]
    {
      var g := if group == 0 then procs[caller].group else group;
      if g < 0 {
        return false;
      }
      var q := if pid == 0 then caller else pid;
      if q < 0 || q !in procs {
        return false;
      }
      assert Good(procs[q]);
      GroupGood(procs[q], g);
      procs := procs[q := procs[q].(group := g)];
      return true;
    }

    /** A process ends and its parent learns of it. */
    method Exit(pid: nat)
      requires Valid() && pid in procs
      modifies this`procs
      ensures Valid() && Exited(old(procs), procs, pid)
    {
      hide Matched, NoneIgnored, StopOrContinue, Told;
      AllSized(procs);
      ZombieGood(procs[pid]);
      procs := procs[pid := procs[pid].(state := Zombie)];
      StateChange(pid);
    }

    /** A process returns to user mode: one signal is delivered, and may end it. */
    method Return(pid: nat, prepared: bool)
      requires Valid() && pid in procs
      modifies this`procs
      ensures Valid() && Returned(old(procs), procs, pid, prepared)
    {
      hide AllGood, DeliveredOne, OthersAfter;
      var r := Deliver(pid, prepared);
      ghost var mid := procs;
      DeliveredKeys(old(procs), mid, pid, r, prepared);
      if Ends(r) {
        Exit(pid);
      }
      assert AllGood(mid) && DeliveredOne(old(procs), mid, pid, r, prepared);
    }

    /** One step.  It fails exactly in the states of Stops, and otherwise does what Stepped says. */
    method Perform(op: Op) returns (ok: bool)
      requires Valid()
      modifies this
      ensures Valid() && (ok <==> !Stops(old(procs), op))
      ensures if ok then Stepped(World(old(procs), old(list)), op, World(procs, list))
        else procs == old(procs) && list == old(list)
    {
      hide AllGood, Sent, Meant, Returned, Exited, ActionChanged, Listed, OthersAfter, Number;
      ok := true;
      match op {
        case Boot(pid, table) => if pid !in procs && |table| == NSIG { Init(pid, table); }
        case Kill(caller, pid, signo, code) =>
          if caller in procs {
            var r := Generate(caller, pid, signo, code);
            ok := r != AssertionFails;
          }
        case ReturnToUser(pid, prepared) => if pid in procs { Return(pid, prepared); }
        case Sigaction(pid, signo, action, fetch) =>
          if pid in procs {
            var r := ChangeAction(pid, signo, action, fetch);
            ok := !r.OutsideTable?;
          }
        case Sigmask(pid, mask) => if pid in procs { SetMask(pid, mask); }
        case Setpgid(caller, pid, group) => if caller in procs { var _ := SetGroup(caller, pid, group); }
        case Spawn(pid, child) => if pid in procs && child !in procs { Fork(pid, child); }
        case Quit(pid) => if pid in procs { Exit(pid); }
      }
    }

    /**
     * Any run of these steps keeps what holds between steps and reaches none of the panics.  Each
     * step does what Stepped says, up to the first one that fails: an access outside the table of
     * actions, or a signal number outside it.  `trace` holds the states in between.
     */
    method Execute(ops: seq<Op>) returns (done: nat, ghost trace: seq<World>)
      requires Valid()
      modifies this
      ensures Valid() && done <= |ops| && IsRun(trace, ops[..done])
      ensures trace[0] == World(old(procs), old(list)) && trace[done] == World(procs, list)
      ensures done < |ops| ==> Stops(procs, ops[done])
      ensures (forall op :: op in ops ==> InTable(op)) ==> done == |ops|
    {
      hide AllGood, Stepped, Listed, Meant, Number;
      done, trace := 0, [World(procs, list)];
      while done < |ops|
        invariant done <= |ops| && Valid() && IsRun(trace, ops[..done])
        invariant trace[0] == World(old(procs), old(list)) && trace[done] == World(procs, list)
      {
        assert ops[done] in ops;
        var ok := Perform(ops[done]);
        if !ok {
          return;
        }
        assert ops[..done + 1] == ops[..done] + [ops[done]];
        trace := trace + [World(procs, list)];
        done := done + 1;
      }
    }
  }

  // ---- What the steps do ------------------------------------------------------------------------------

  datatype World = World(procs: Procs, list: seq<nat>)

  /** One signal, the first that can be, is delivered. */
  ghost predicate DeliveredOne(procs: Procs, procs': Procs, pid: nat, r: Delivery, prepared: bool) {
    && pid in procs && procs'.Keys == procs.Keys
    && (r == Nothing <==> forall s :: s in procs[pid].queue ==> !Deliverable(procs[pid], s))
    && (r == Nothing ==> procs' == procs)
    && (r != Nothing ==>
          && First(procs[pid], r.signal) && Delivered(procs[pid], procs'[pid], r, prepared)
          && OthersAfter(procs, procs', pid, StopsNow(procs[pid], r.signal.signo), false))
  }

  lemma DeliveredKeys(procs: Procs, procs': Procs, pid: nat, r: Delivery, prepared: bool)
    requires DeliveredOne(procs, procs', pid, r, prepared)
    ensures procs'.Keys == procs.Keys
  {
  }

  /** The default action that ends the process, or a handler that could not be set up. */
  predicate Ends(r: Delivery) {
    (r.ByDefault? && r.status != 0) || r.Failed?
  }

  ghost predicate Exited(procs: Procs, procs': Procs, pid: nat) {
    && OthersAfter(procs, procs', pid, true, true)
    && pid in procs && pid in procs' && procs'[pid] == procs[pid].(state := Zombie)
  }

  ghost predicate Returned(procs: Procs, procs': Procs, pid: nat, prepared: bool) {
    exists mid: Procs, r: Delivery {:trigger DeliveredOne(procs, mid, pid, r, prepared)} ::
      AllGood(mid) && DeliveredOne(procs, mid, pid, r, prepared) &&
        if Ends(r) then Exited(mid, procs', pid) else procs' == mid
  }

  /** A number outside the range, or a handler for SIGKILL or SIGSTOP. */
  ghost predicate Refused(signo: int, action: Option<Action>) {
    || signo < 0 || signo >= NSIG
    || (action.Some? && action.value.handler != Default && (signo == SIGKILL || signo == SIGSTOP))
  }

  ghost predicate ActionChanged(procs: Procs, procs': Procs, pid: nat, signo: nat, action: Action) {
    && pid in procs && Number(signo) && Sized(procs[pid])
    && procs'.Keys == procs.Keys && (forall q :: q in procs && q != pid ==> procs'[q] == procs[q])
    && var p, p' := procs[pid], procs'[pid];
       && p'.actions == p.actions[signo - 1 := action] && p'.state == p.state && p'.mask == p.mask
       && p'.parent == p.parent && p'.group == p.group && Kept(p, p')
       && forall n :: Pending(p', n) <==> Pending(p, n) && (n != signo || !IgnoredBy(action, signo))
  }

  /** What a step does in a state in which it does not fail. */
  ghost predicate Stepped(w: World, op: Op, w': World) {
    var procs, procs' := w.procs, w'.procs;
    match op
    case Boot(pid, table) =>
      w' == if pid !in procs && |table| == NSIG then World(procs[pid := Initial(pid, table)], w.list + [pid]) else w
    case Kill(caller, target, signo, code) =>
      if caller in procs && Number(signo)
      then w'.list == w.list && Sent(procs, procs', Meant(procs, target, procs[caller].group), signo, code)
      else w' == w
    case ReturnToUser(pid, prepared) =>
      if pid in procs then w'.list == w.list && Returned(procs, procs', pid, prepared) else w' == w
    case Sigaction(pid, signo, action, _) =>
      if pid in procs && action.Some? && signo != 0 && !Refused(signo, action)
      then w'.list == w.list && ActionChanged(procs, procs', pid, signo, action.value)
      else w' == w
    case Sigmask(pid, mask) =>
      w' == if pid in procs then w.(procs := procs[pid := procs[pid].(mask := mask - {SIGKILL})]) else w
    case Setpgid(caller, target, group) =>
      if caller in procs && group >= 0 && (target == 0 || (target > 0 && target in procs)) then
        var q: nat := if target == 0 then caller else target;
        var g: nat := if group == 0 then procs[caller].group else group;
        w' == w.(procs := procs[q := procs[q].(group := g)])
      else w' == w
    case Spawn(pid, child) =>
      w' == if pid in procs && child !in procs
        then World(procs[child := Newborn(procs[pid], pid)], w.list + [child]) else w
    case Quit(pid) => if pid in procs then w'.list == w.list && Exited(procs, procs', pid) else w' == w
  }

  /** The states of a run, in all of which everything holds that holds between steps. */
  ghost predicate IsRun(trace: seq<World>, ops: seq<Op>) {
    && |trace| == |ops| + 1 && (forall i :: 0 <= i < |trace| ==> AllGood(trace[i].procs))
    && forall i :: 0 <= i < |ops| ==> !Stops(trace[i].procs, ops[i]) && Stepped(trace[i], ops[i], trace[i + 1])
  }

  /** From an empty system: the first process sends itself a signal whose number is outside the table. */
  method KillOutside(table: seq<Action>, signo: int) returns (r: Outcome)
    requires |table| == NSIG
    ensures r == AssertionFails <==> signo < 0 || signo > NSIG
  {
    var sys := new System();
    sys.Init(1, table);
    assert Matches(sys.procs[1], 1, 1, sys.procs[1].group);
    assert 1 in Meant(sys.procs, 1, sys.procs[1].group);
    r := sys.Generate(1, 1, signo, 0);
  }

  /** From an empty system: the first process asks for the action of a signal. */
  method ActionOfZero(table: seq<Action>, signo: int) returns (r: Change)
    requires |table| == NSIG
    ensures r == OutsideTable <==> signo == 0
  {
    var sys := new System();
    sys.Init(1, table);
    r := sys.ChangeAction(1, signo, None, true);
  }

  /** The process list names each process once. */
  ghost predicate Listed(list: seq<nat>, pids: set<nat>) {
    && (forall i, j :: 0 <= i < j < |list| ==> list[i] != list[j])
    && forall q :: q in list <==> q in pids
  }

  lemma ListedNext(list: seq<nat>, i: nat, pids: set<nat>)
    requires Listed(list, pids) && i < |list|
    ensures list[i] in pids && list[i] !in list[..i] && list[..i + 1] == list[..i] + [list[i]]
  {
    assert list[i] in list;
  }

  datatype Outcome = Accepted | AssertionFails

  /** In this state the step reads in front of the table of actions, or an assertion fails. */
  ghost predicate Stops(procs: Procs, op: Op) {
    match op
    case Kill(caller, pid, signo, _) =>
      signo != 0 && !Number(signo) && caller in procs && Meant(procs, pid, procs[caller].group) != {}
    case Sigaction(pid, signo, action, fetch) => signo == 0 && pid in procs && (fetch || action.Some?)
    case _ => false
  }

  /** The step gives no number outside the table, or only asks. */
  ghost predicate InTable(op: Op) {
    match op
    case Kill(_, _, signo, _) => signo == 0 || Number(signo)
    case Sigaction(_, signo, _, _) => signo != 0
    case _ => true
  }

  datatype Op =
    | Boot(pid: nat, table: seq<Action>)
    | Kill(caller: nat, target: int, signo: int, code: int)
    | ReturnToUser(pid: nat, prepared: bool)
    | Sigaction(pid: nat, signo: int, action: Option<Action>, fetch: bool)
    | Sigmask(pid: nat, mask: set<nat>)
    | Setpgid(caller: nat, target: int, group: int)
    | Spawn(pid: nat, child: nat)
    | Quit(pid: nat)

  /** What a change of an action came to. */
  datatype Change = Invalid | OutsideTable | Changed(previous: Option<Action>)

  /** A new process; masks and flags of its actions are what the memory held. */
  function Initial(pid: nat, table: seq<Action>): Process {
    Process(Active, pid, 0, seq(|table|, i requires 0 <= i < |table| => table[i].(handler := Default)),
            seq(NSIG, i => None), [], {})
  }

  lemma InitialGood(pid: nat, table: seq<Action>)
    requires |table| == NSIG
    ensures Good(Initial(pid, table))
  {
  }

  /** What delivery did: nothing, the default action (with an exit status), called a handler, or failed to. */
  datatype Delivery =
    | Nothing
    | ByDefault(signal: Signal, status: nat)
    | Handled(signal: Signal, address: nat)
    | Failed(signal: Signal)

  /** Default actions that end the process. */
  predicate Terminates(signo: nat) {
    signo in {1, 2, 3, 4, 5, 6, 8, 9, 10, 11, 12, 13, 14, 15, 24, 25, 30, 31}
  }

  /** The default action of the signal stops the process, which was running. */
  ghost predicate StopsNow(p: Process, signo: nat) {
    1 <= signo <= |p.actions| && p.actions[signo - 1].handler == Default && IsStop(signo) && p.state != Stopped
  }

  predicate Deliverable(p: Process, s: Signal) {
    !IsBlocked(p, s.signo) && (p.state == Stopped ==> s.signo == SIGKILL || s.signo == SIGCONT)
  }

  /** s is the first signal in the queue that can be delivered. */
  ghost predicate First(p: Process, s: Signal) {
    exists k :: 0 <= k < |p.queue| && p.queue[k] == s && Deliverable(p, s) && forall i :: 0 <= i < k ==>
      !Deliverable(p, p.queue[i])
  }

  /** A stop signal stops the process; a handler is set up, and reset if it is for one use; the pending signals stay. */
  ghost predicate Acted(p: Process, p': Process, r: Delivery, prepared: bool)
    requires r != Nothing
  {
    var n := r.signal.signo;
    && Sized(p) && Number(n)
    && match p.actions[n - 1].handler
       case Default =>
         && r == ByDefault(r.signal, if Terminates(n) then n else 0)
         && p' == p.(state := if IsStop(n) then Stopped else p.state) && (n == SIGCONT ==> p.state != Stopped)
       case Ignore => false
       case Custom(a) =>
         var action := p.actions[n - 1];
         && r == (if prepared then Handled(r.signal, a) else Failed(r.signal))
         && p'.mask == (if prepared then p.mask + action.mask else p.mask)
         && p'.actions == (if prepared && action.resetHand
              then p.actions[n - 1 := action.(handler := Default)] else p.actions)
         && p' == p.(mask := p'.mask, actions := p'.actions)
  }

  lemma ActedPending(p: Process, p': Process, r: Delivery, prepared: bool)
    requires r != Nothing && Acted(p, p', r, prepared)
    ensures (forall m :: Pending(p', m) <==> Pending(p, m)) && p'.queue == p.queue && p'.pending == p.pending
  {
  }

  /** The delivered signal is pending no longer, and its action has been carried out. */
  ghost predicate Delivered(p: Process, p': Process, r: Delivery, prepared: bool)
    requires r != Nothing
  {
    && Number(r.signal.signo) && Pending(p, r.signal.signo) && Acted(Discarded(p, r.signal.signo), p', r, prepared)
    && forall m :: Pending(p', m) <==> Pending(p, m) && m != r.signal.signo
  }

  /** The process after its handler for a signal has been set up. */
  function Caught(p: Process, signo: nat): Process
    requires 1 <= signo <= |p.actions|
  {
    var a := p.actions[signo - 1];
    var actions := if a.resetHand then p.actions[signo - 1 := a.(handler := Default)] else p.actions;
    p.(mask := p.mask + a.mask, actions := actions)
  }

  /** Resetting a handler can make the signal ignored, but it has just been taken off. */
  lemma CaughtGood(p: Process, signo: nat)
    requires Good(p) && Number(signo) && !Pending(p, signo)
    ensures Good(Caught(p, signo)) && forall n :: Pending(Caught(p, signo), n) <==> Pending(p, n)
  {
    var p' := Caught(p, signo);
    assert forall n :: Pending(p', n) <==> Pending(p, n);
    assert Matched(p');
  }

  lemma StoppedGood(p: Process)
    requires Good(p) && !Pending(p, SIGCONT)
    ensures Good(p.(state := Stopped)) && forall n :: Pending(p.(state := Stopped), n) <==> Pending(p, n)
  {
    assert forall n :: Pending(p.(state := Stopped), n) <==> Pending(p, n);
  }

  lemma ZombieGood(p: Process)
    requires Good(p)
    ensures Good(p.(state := Zombie))
  {
    assert forall n :: Pending(p.(state := Zombie), n) <==> Pending(p, n);
  }

  lemma MaskGood(p: Process, mask: set<nat>)
    requires Good(p)
    ensures Good(p.(mask := mask))
  {
    assert forall n :: Pending(p.(mask := mask), n) <==> Pending(p, n);
  }

  lemma GroupGood(p: Process, group: nat)
    requires Good(p)
    ensures Good(p.(group := group))
  {
    assert forall n :: Pending(p.(group := group), n) <==> Pending(p, n);
  }

  function Newborn(p: Process, pid: nat): Process {
    Process(Active, pid, p.group, p.actions, seq(NSIG, i => None), [], p.mask)
  }

  lemma NewbornGood(p: Process, pid: nat)
    requires NotCaught(p)
    ensures Good(Newborn(p, pid))
  {
    assert forall n :: !Pending(Newborn(p, pid), n);
  }

  /** Discarding before or after the action changes is the same to everyone else. */
  lemma ActionGood(p: Process, signo: nat, action: Action)
    requires Good(p) && Number(signo) && (action.handler == Default || CanBeIgnored(signo))
    ensures var q := p.(actions := p.actions[signo - 1 := action]);
      var p' := if IgnoredBy(action, signo) then Discarded(q, signo) else q;
      && Good(p') && p'.actions == p.actions[signo - 1 := action]
      && (forall n :: Pending(p', n) <==> Pending(p, n) && (n != signo || !IgnoredBy(action, signo)))
      && p'.state == p.state && p'.mask == p.mask && p'.parent == p.parent && p'.group == p.group && Kept(p, p')
  {
    DiscardedKept(p.(actions := p.actions[signo - 1 := action]), signo);
    hide SameOrder;
    var q := p.(actions := p.actions[signo - 1 := action]);
    assert forall n :: Pending(q, n) <==> Pending(p, n);
    if IgnoredBy(action, signo) {
      DiscardedGood(p, signo);
      var p1 := Discarded(p, signo);
      var p' := Discarded(q, signo);
      assert p' == p1.(actions := p.actions[signo - 1 := action]);
      assert forall n :: Pending(p', n) <==> Pending(p1, n);
      assert Matched(p');
    }
  }

  lemma DiscardedShape(p: Process, signo: nat)
    ensures var p' := Discarded(p, signo);
      p'.mask == p.mask && p'.parent == p.parent && p'.state == p.state && p'.actions == p.actions
  {
  }

  /** What a good process knows about the signals that may be delivered. */
  lemma DeliveredFacts(p: Process)
    requires Good(p)
    ensures Sized(p) && forall n: nat :: Pending(p, n) ==> Number(n) && !IgnoredBy(p.actions[n - 1], n)
    ensures Pending(p, SIGCONT) ==> p.state != Stopped && forall n :: IsStop(n) ==> !Pending(p, n)
  {
  }

  lemma AllButOne(procs: Procs, pid: nat)
    requires AllGood(procs) && pid in procs
    ensures Good(procs[pid]) && forall p: Process :: Good(p) ==> AllGood(procs[pid := p])
  {
    hide Good;
  }

  lemma AllSized(procs: Procs)
    requires AllGood(procs)
    ensures forall q :: q in procs ==> Sized(procs[q])
  {
  }

  /** After, one branch at a time. */
  lemma AfterSteps(p: Process, signo: nat, code: int)
    requires Good(p) && Number(signo)
    ensures p.pending[signo - 1].Some? ==> After(p, signo, code) == p
    ensures !p.pending[signo - 1].Some? ==>
      var p1 := Cleared(p, signo);
      var p2 := p1.(state := if signo == SIGCONT && p1.state == Stopped then Active else p1.state);
      After(p, signo, code) == if IgnoredBy(p2.actions[signo - 1], signo) then p2 else Queued(p2, Signal(signo, code))
  {
    ClearedGood(p, signo);
    GoodSized(Cleared(p, signo));
    hide Cleared;
  }
}
