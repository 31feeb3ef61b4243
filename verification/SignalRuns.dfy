/** Laws about runs of the signal system: who is delivered first, and what cannot be escaped. */
module SignalRuns {
  import opened Arith
  import opened Lists
  import opened Signals

  // ---- One step keeps the order of every queue ----------------------------------------------------------

  ghost predicate AllKept(procs: Procs, procs': Procs) {
    procs.Keys <= procs'.Keys && forall q :: q in procs ==> Kept(procs[q], procs'[q])
  }

  lemma SelfKept(procs: Procs, procs': Procs)
    requires procs.Keys <= procs'.Keys
    requires forall q :: q in procs ==> procs'[q].queue == procs[q].queue && procs'[q].pending == procs[q].pending
    ensures AllKept(procs, procs')
  {
    hide Kept;
    forall q | q in procs ensures Kept(procs[q], procs'[q]) { KeptSame(procs[q], procs'[q]); }
  }

  /** The other processes stay as they are, or hear of a child. */
  lemma OthersKept(procs: Procs, procs': Procs, pid: nat, told: bool, zombie: bool, q: nat)
    requires AllGood(procs) && OthersAfter(procs, procs', pid, told, zombie) && q in procs && q != pid
    ensures Kept(procs[q], procs'[q]) && forall n :: Pending(procs[q], n) ==> Pending(procs'[q], n)
  {
    hide Good, Kept, Told;
    KeptSame(procs[q], procs[q]);
    ToldKept(procs[q], zombie);
  }

  lemma TakenKept(p: Process, p': Process, r: Delivery, prepared: bool)
    requires r != Nothing && Delivered(p, p', r, prepared)
    ensures Kept(p, p')
  {
    hide Acted, SameOrder, Discarded;
    var p1 := Discarded(p, r.signal.signo);
    DiscardedKept(p, r.signal.signo);
    ActedPending(p1, p', r, prepared);
  }

  lemma DeliveredKept(procs: Procs, procs': Procs, pid: nat, r: Delivery, prepared: bool)
    requires AllGood(procs) && DeliveredOne(procs, procs', pid, r, prepared)
    ensures AllKept(procs, procs')
    ensures forall q, n :: q in procs && q != pid && Pending(procs[q], n) ==> Pending(procs'[q], n)
  {
    hide Good, Kept, OthersAfter, Delivered, First, Pending, Deliverable;
    if r == Nothing {
      SelfKept(procs, procs');
    } else {
      TakenKept(procs[pid], procs'[pid], r, prepared);
      forall q | q in procs && q != pid
        ensures Kept(procs[q], procs'[q]) && forall n :: Pending(procs[q], n) ==> Pending(procs'[q], n)
      {
        OthersKept(procs, procs', pid, StopsNow(procs[pid], r.signal.signo), false, q);
      }
    }
  }

  lemma ExitedKept(procs: Procs, procs': Procs, pid: nat, q: nat)
    requires AllGood(procs) && Exited(procs, procs', pid) && q in procs
    ensures q in procs' && Kept(procs[q], procs'[q])
    ensures q == pid ==> forall n :: Pending(procs'[q], n) <==> Pending(procs[q], n)
    ensures q != pid ==> forall n :: Pending(procs[q], n) ==> Pending(procs'[q], n)
  {
    hide Kept, Good;
    if q == pid {
      KeptSame(procs[q], procs'[q]);
    } else {
      OthersKept(procs, procs', pid, true, true, q);
    }
  }

  lemma ReturnedKept(procs: Procs, procs': Procs, pid: nat, prepared: bool)
    requires AllGood(procs) && AllGood(procs') && Returned(procs, procs', pid, prepared)
    ensures AllKept(procs, procs')
  {
    hide Kept, DeliveredOne, Exited, Good, Pending;
    var mid, r :| AllGood(mid) && DeliveredOne(procs, mid, pid, r, prepared) &&
      if Ends(r) then Exited(mid, procs', pid) else procs' == mid;
    DeliveredKept(procs, mid, pid, r, prepared);
    if Ends(r) {
      forall q | q in procs ensures q in procs' && Kept(procs[q], procs'[q]) {
        ExitedKept(mid, procs', pid, q);
        GoodMatched(procs[q]);
        GoodMatched(mid[q]);
        GoodMatched(procs'[q]);
        KeptTrans(procs[q], mid[q], procs'[q]);
      }
    }
  }

  lemma SteppedKept(w: World, op: Op, w': World)
    requires AllGood(w.procs) && AllGood(w'.procs) && Stepped(w, op, w')
    ensures AllKept(w.procs, w'.procs)
  {
    hide Kept, Returned, Exited, Good, Pending, SentTo, Meant, OthersAfter, AllKept;
    match op
    case Kill(caller, target, signo, code) =>
      if caller in w.procs && Number(signo) {
        SentKept(w.procs, w'.procs, Meant(w.procs, target, w.procs[caller].group), signo, code);
      } else {
        SelfKept(w.procs, w'.procs);
      }
    case ReturnToUser(pid, prepared) =>
      if pid in w.procs { ReturnedKept(w.procs, w'.procs, pid, prepared); } else { SelfKept(w.procs, w'.procs); }
    case Sigaction(pid, signo, action, _) =>
      if pid in w.procs && action.Some? && signo != 0 && !Refused(signo, action) {
        ChangedKept(w.procs, w'.procs, pid, signo, action.value);
      } else {
        SelfKept(w.procs, w'.procs);
      }
    case Quit(pid) =>
      if pid in w.procs { QuitKept(w.procs, w'.procs, pid); } else { SelfKept(w.procs, w'.procs); }
    case _ => SelfKept(w.procs, w'.procs);
  }

  lemma SentKept(procs: Procs, procs': Procs, sel: set<nat>, signo: nat, code: int)
    requires Sent(procs, procs', sel, signo, code)
    ensures AllKept(procs, procs')
  {
    hide Kept, PendingAfter;
  }

  lemma ChangedKept(procs: Procs, procs': Procs, pid: nat, signo: nat, action: Action)
    requires ActionChanged(procs, procs', pid, signo, action)
    ensures AllKept(procs, procs')
  {
    hide Kept;
    forall q | q in procs && q != pid ensures Kept(procs[q], procs'[q]) { KeptSame(procs[q], procs'[q]); }
  }

  lemma QuitKept(procs: Procs, procs': Procs, pid: nat)
    requires AllGood(procs) && Exited(procs, procs', pid)
    ensures AllKept(procs, procs')
  {
    hide Kept, Good;
    forall q | q in procs ensures Kept(procs[q], procs'[q]) { ExitedKept(procs, procs', pid, q); }
  }

  // ---- Every run ------------------------------------------------------------------------------------

  /** Signal a is in the queue of the process in all states from i to k. */
  ghost predicate Waits(trace: seq<World>, pid: nat, i: nat, k: nat, a: Signal)
    requires k < |trace|
  {
    forall m :: i <= m <= k ==> pid in trace[m].procs && a in trace[m].procs[pid].queue
  }

  /** No signal overtakes another: what stands in front of a now stood in front of it all along. */
  lemma {:induction false} NoOvertaking(trace: seq<World>, ops: seq<Op>, pid: nat, i: nat, k: nat, a: Signal, x: Signal)
    requires IsRun(trace, ops) && i <= k < |trace| && Waits(trace, pid, i, k, a)
    requires Ahead(trace[k].procs[pid].queue, x, a)
    ensures Ahead(trace[i].procs[pid].queue, x, a)
    decreases k - i
  {
    hide Stepped, Ahead, AllGood;
    if i < k {
      SteppedKept(trace[k - 1], ops[k - 1], trace[k]);
      NoOvertaking(trace, ops, pid, i, k - 1, a, x);
    }
  }

  /**
   * Signals are delivered in the order in which they were generated: when a signal that has been
   * pending since state i can be delivered, the one that is was in front of it then already.
   */
  lemma DeliveredInOrder(trace: seq<World>, ops: seq<Op>, pid: nat, prepared: bool, i: nat, k: nat, a: Signal)
    returns (mid: Procs, r: Delivery)
    requires IsRun(trace, ops) && i <= k < |ops| && Waits(trace, pid, i, k, a) && ops[k] == ReturnToUser(pid, prepared)
    requires Deliverable(trace[k].procs[pid], a)
    ensures DeliveredOne(trace[k].procs, mid, pid, r, prepared) && r != Nothing
    ensures if Ends(r) then Exited(mid, trace[k + 1].procs, pid) else trace[k + 1].procs == mid
    ensures r.signal == a || Ahead(trace[i].procs[pid].queue, r.signal, a)
  {
    hide AllGood, Delivered, OthersAfter, Exited, Deliverable, SameOrder;
    var procs, procs' := trace[k].procs, trace[k + 1].procs;
    assert Stepped(trace[k], ops[k], trace[k + 1]);
    mid, r :| AllGood(mid) && DeliveredOne(procs, mid, pid, r, prepared) &&
      if Ends(r) then Exited(mid, procs', pid) else procs' == mid;
    FirstAhead(procs[pid], r.signal, a);
    if r.signal != a { NoOvertaking(trace, ops, pid, i, k, a, r.signal); }
  }

  lemma FirstAhead(p: Process, s: Signal, a: Signal)
    requires First(p, s) && a in p.queue && Deliverable(p, a)
    ensures s == a || Ahead(p.queue, s, a)
  {
    hide Deliverable;
    var k :| 0 <= k < |p.queue| && p.queue[k] == s && Deliverable(p, s) && forall i :: 0 <= i < k ==>
      !Deliverable(p, p.queue[i]);
    var j :| 0 <= j < |p.queue| && p.queue[j] == a;
    assert k <= j;
  }

  // ---- What the tests of a signal's number and of a process mean ---------------------------------------------

  /** A pending SIGKILL can always be delivered, whatever is blocked and also to a stopped process, and ends it. */
  lemma KillAlways(procs: Procs, procs': Procs, pid: nat, r: Delivery, prepared: bool, s: Signal)
    requires AllGood(procs) && DeliveredOne(procs, procs', pid, r, prepared)
    requires s in procs[pid].queue && s.signo == SIGKILL
    ensures Deliverable(procs[pid], s) && r != Nothing
    ensures r.signal == s ==> r == ByDefault(s, SIGKILL) && Ends(r)
  {
    hide OthersAfter, First;
    assert Good(procs[pid]);
    if r.signal == s { DiscardedShape(procs[pid], SIGKILL); }
  }

  /** No other signal but SIGSTOP escapes the mask, and a stopped process gets no other but SIGCONT. */
  lemma DeliverableMeans(p: Process, s: Signal)
    ensures Deliverable(p, s) <==>
      && (s.signo in p.mask ==> s.signo == SIGKILL || s.signo == SIGSTOP)
      && (p.state == Stopped ==> s.signo == SIGKILL || s.signo == SIGCONT)
  {
  }

  /** By default a signal ends the process, stops it, continues it, is ignored, or is one of seven without an effect. */
  lemma DefaultActions(n: nat, mask: set<nat>, resetHand: bool, noCldStop: bool)
    requires Number(n)
    ensures var ignored := IgnoredBy(Action(Default, mask, resetHand, noCldStop), n);
      var idle := n in {7, 23, 26, 27, 28, 29, 32};
      && (Terminates(n) <==> !IsStop(n) && n != SIGCONT && !ignored && !idle)
      && !(IsStop(n) && (n == SIGCONT || ignored || idle)) && !(n == SIGCONT && (ignored || idle)) && !(ignored && idle)
  {
  }

  /** The processes that a positive number, zero, minus one and any other negative number mean. */
  lemma MeantMeans(procs: Procs, pid: int, group: nat)
    requires 0 !in procs
    ensures pid > 0 ==> Meant(procs, pid, group) == procs.Keys * {pid as nat}
    ensures pid == 0 ==> Meant(procs, pid, group) == set q | q in procs && procs[q].group == group
    ensures pid == -1 ==> Meant(procs, pid, group) == procs.Keys
    ensures pid < -1 ==> Meant(procs, pid, group) == set q | q in procs && procs[q].group == -pid
  {
  }

  /** A new process runs, in its parent's group, with its actions and mask, and with nothing pending. */
  lemma NewbornMeans(p: Process, pid: nat)
    ensures var c := Newborn(p, pid);
      && c.state == Active && c.parent == pid && c.group == p.group && c.actions == p.actions && c.mask == p.mask
      && c.queue == [] && forall n :: !Pending(c, n)
  {
  }

  lemma InitialMeans(pid: nat, table: seq<Action>)
    ensures var c := Initial(pid, table);
      && c.state == Active && c.mask == {} && c.queue == [] && (forall n :: !Pending(c, n))
      && |c.actions| == |table| && forall i :: 0 <= i < |table| ==> c.actions[i].handler == Default
  {
  }
}
