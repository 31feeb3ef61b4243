/** Laws about runs of the timers: the clock counts the ticks, and a timer that was stopped stays quiet. */
module TimerRuns {
  import opened Arith
  import opened TimeoutHistory
  import opened Timers

  function TickCount(steps: seq<Step>): nat {
    if steps == [] then 0 else TickCount(steps[..|steps| - 1]) + if steps[|steps| - 1].Tick? then 1 else 0
  }

  lemma {:induction false} RoundsClock(ms: seq<Moment>, ids: seq<nat>, act: (nat, nat) -> seq<Op>, period: nat -> nat,
                                       i: nat)
    requires Rounds(ms, ids, act, period) && i < |ms|
    ensures ms[i].now == ms[0].now
  {
    if i > 0 {
      RoundsClock(ms, ids, act, period, i - 1);
      assert Round(ms[i - 1], ms[i], act, period, ids[i - 1]);
    }
  }

  /** The clock moves with the ticks and with nothing else. */
  lemma {:induction false} ClockCounts(trace: seq<Moment>, steps: seq<Step>, act: (nat, nat) -> seq<Op>,
                                       period: nat -> nat)
    requires IsRun(trace, steps, act, period)
    ensures trace[|steps|].now == trace[0].now + TickCount(steps)
    decreases |steps|
  {
    if steps != [] {
      var i := |steps| - 1;
      hide Round;
      ClockCounts(trace[..i + 1], steps[..i], act, period);
      assert Took(trace[i], steps[i], trace[i + 1], act, period);
      if steps[i].Tick? {
        var ms, ids :| Rounds(ms, ids, act, period) && ms[0] == trace[i].(now := trace[i].now + 1) &&
          ms[|ids|] == trace[i + 1];
        RoundsClock(ms, ids, act, period, |ids|);
      }
    }
  }

  // ---- A timer that is not started ------------------------------------------------------------------------

  ghost predicate Starts(op: Op, id: nat) {
    op.Start? && op.id == id
  }

  /** From position n on the timer is neither queued nor does it fire. */
  ghost predicate Silent(h: History, n: nat, id: nat) {
    forall k :: n <= k < |h| ==> !(h[k].id == id && (h[k].Fired? || h[k].Enqueued?))
  }

  ghost predicate NoCallbackStarts(act: (nat, nat) -> seq<Op>, id: nat) {
    forall now: nat, x: nat, op: Op :: op in act(now, x) ==> !Starts(op, id)
  }

  lemma {:induction false} DidSilent(d: Doing, ops: seq<Op>, now: nat, id: nat)
    requires id !in d.queued && forall op :: op in ops ==> !Starts(op, id)
    ensures var e := DidAll(d, ops, now); id !in e.queued && d.events <= e.events && Silent(e.events, |d.events|, id)
    decreases |ops|
  {
    if ops != [] {
      var rest, op := ops[..|ops| - 1], ops[|ops| - 1];
      assert op in ops && forall o :: o in rest ==> o in ops;
      DidSilent(d, rest, now, id);
    }
  }

  lemma RoundSilent(m: Moment, m': Moment, act: (nat, nat) -> seq<Op>, period: nat -> nat, x: nat, id: nat)
    requires Round(m, m', act, period, x) && id !in m.born && NoCallbackStarts(act, id)
    ensures id !in m'.born && m.hist <= m'.hist && Silent(m'.hist, |m.hist|, id)
  {
    hide DidAll, Due;
    var d := Doing(m.born.Keys - {x}, Some(x), m.hist + [Fired(m.now, x, m.born[x])]);
    DidSilent(d, act(m.now, x), m.now, id);
  }

  lemma {:induction false} RoundsSilent(ms: seq<Moment>, ids: seq<nat>, act: (nat, nat) -> seq<Op>,
                                        period: nat -> nat, i: nat, id: nat)
    requires Rounds(ms, ids, act, period) && i < |ms| && id !in ms[0].born && NoCallbackStarts(act, id)
    ensures id !in ms[i].born && ms[0].hist <= ms[i].hist && Silent(ms[i].hist, |ms[0].hist|, id)
  {
    hide Round, NoCallbackStarts;
    if i > 0 {
      RoundsSilent(ms, ids, act, period, i - 1, id);
      RoundSilent(ms[i - 1], ms[i], act, period, ids[i - 1], id);
    }
  }

  lemma TookSilent(m: Moment, step: Step, m': Moment, act: (nat, nat) -> seq<Op>, period: nat -> nat, id: nat)
    requires Took(m, step, m', act, period) && id !in m.born && NoCallbackStarts(act, id)
    requires step.Do? ==> !Starts(step.op, id)
    ensures id !in m'.born && m.hist <= m'.hist && Silent(m'.hist, |m.hist|, id)
  {
    hide Round, NoCallbackStarts, Due;
    if step.Tick? {
      var ms, ids :| Rounds(ms, ids, act, period) && ms[0] == m.(now := m.now + 1) && ms[|ids|] == m';
      RoundsSilent(ms, ids, act, period, |ids|, id);
    }
  }

  lemma {:induction false} RunSilent(trace: seq<Moment>, steps: seq<Step>, act: (nat, nat) -> seq<Op>,
                                     period: nat -> nat, i: nat, k: nat, id: nat)
    requires IsRun(trace, steps, act, period) && i <= k < |trace| && id !in trace[i].born && NoCallbackStarts(act, id)
    requires forall j :: i <= j < k && steps[j].Do? ==> !Starts(steps[j].op, id)
    ensures id !in trace[k].born && trace[i].hist <= trace[k].hist && Silent(trace[k].hist, |trace[i].hist|, id)
    decreases k - i
  {
    hide Took, NoCallbackStarts;
    if i < k {
      RunSilent(trace, steps, act, period, i, k - 1, id);
      TookSilent(trace[k - 1], steps[k - 1], trace[k], act, period, id);
    }
  }

  /** A timer that has been stopped and is not started again does not fire again. */
  lemma StoppedStays(trace: seq<Moment>, steps: seq<Step>, act: (nat, nat) -> seq<Op>, period: nat -> nat, i: nat,
                     id: nat)
    requires IsRun(trace, steps, act, period) && i < |steps| && steps[i] == Do(Stop(id)) && NoCallbackStarts(act, id)
    requires forall j :: i < j < |steps| && steps[j].Do? ==> !Starts(steps[j].op, id)
    ensures id !in trace[|steps|].born && Silent(trace[|steps|].hist, |trace[i].hist|, id)
  {
    hide NoCallbackStarts;
    assert Took(trace[i], steps[i], trace[i + 1], act, period);
    hide Took;
    RunSilent(trace, steps, act, period, i + 1, |steps|, id);
  }

  /** A periodic timer whose callback stops it is not queued again. */
  lemma StoppedFromCallback(m: Moment, m': Moment, act: (nat, nat) -> seq<Op>, period: nat -> nat, id: nat)
    requires Round(m, m', act, period, id) && act(m.now, id) == [Stop(id)]
    ensures id !in m'.born && m'.hist == m.hist + [Fired(m.now, id, m.born[id]), Stopped(m.now, id)]
  {
    var d := Doing(m.born.Keys - {id}, Some(id), m.hist + [Fired(m.now, id, m.born[id])]);
    assert act(m.now, id)[..0] == [];
    assert DidAll(d, [Stop(id)], m.now) == Did(d, Stop(id), m.now);
  }
}
