/**
 * What happens to timeouts, as a history of events, and what it means for the history to be
 * exact.  A Fire event records the position of the Enqueue event that caused it.
 */
module TimeoutHistory {
  import opened Arith

  datatype Event =
    | Enqueued(time: nat, id: nat, delay: nat)
    | Dequeued(time: nat, id: nat)
    | Fired(time: nat, id: nat, cause: nat)
    | Stopped(time: nat, id: nat)

  type History = seq<Event>

  /** Nothing happens to id after position j. */
  ghost predicate Quiet(h: History, id: nat, j: nat) {
    forall k :: j < k < |h| ==> h[k].id != id
  }

  /** Event k is the next one after j that concerns the same timeout. */
  ghost predicate NextOn(h: History, j: nat, k: nat) {
    j < k < |h| && h[k].id == h[j].id && forall i :: j < i < k ==> h[i].id != h[j].id
  }

  /** A queued timeout is next dequeued, or fires exactly delay ticks after it was queued. */
  ghost predicate Exact(h: History) {
    forall j: nat, k: nat :: j < k < |h| && NextOn(h, j, k) && h[j].Enqueued? ==>
      h[k].Dequeued? || h[k] == Fired(h[j].time + h[j].delay, h[j].id, j)
  }

  /** Nothing fires that was not queued just before. */
  ghost predicate Caused(h: History) {
    forall k :: 0 <= k < |h| && h[k].Fired? ==> h[k].cause < k && NextOn(h, h[k].cause, k) && h[h[k].cause].Enqueued?
  }

  /** Timeouts that fire at the same tick fire in the order in which they were queued. */
  ghost predicate TiesInOrder(h: History) {
    forall k, l :: 0 <= k < l < |h| && h[k].Fired? && h[l].Fired? && h[k].time == h[l].time ==> h[k].cause < h[l].cause
  }

  /** A periodic timer that fires is queued again at once, or has been stopped from its callback. */
  ghost predicate Rearmed(h: History, period: nat -> nat) {
    forall k: nat, l: nat :: k < l < |h| && NextOn(h, k, l) && h[k].Fired? && period(h[k].id) != 0 ==>
      Requeued(h[k].time, h[l]) || h[l] == Stopped(h[k].time, h[k].id)
  }

  ghost predicate Requeued(time: nat, e: Event) {
    e.Enqueued? && e.time == time
  }

  /** The callback itself has queued its periodic timer, for another delay than the period. */
  ghost predicate Misfit(h: History, period: nat -> nat, l: nat) {
    && l < |h| && h[l].Enqueued? && h[l].delay != period(h[l].id) && period(h[l].id) != 0
    && exists k: nat :: k < l && NextOn(h, k, l) && h[k].Fired?
  }

  /** Such a timer has been dequeued again before the callback was over. */
  ghost predicate Redone(h: History, period: nat -> nat) {
    forall l: nat, m: nat :: l < m < |h| && NextOn(h, l, m) && Misfit(h, period, l) ==>
      h[m] == Dequeued(h[l].time, h[l].id)
  }

  ghost predicate Past(h: History, now: nat) {
    forall k :: 0 <= k < |h| ==> h[k].time <= now
  }

  ghost predicate Sound(h: History, period: nat -> nat, now: nat) {
    Exact(h) && Caused(h) && TiesInOrder(h) && Rearmed(h, period) && Redone(h, period) && Past(h, now)
  }

  // ---- One more event --------------------------------------------------------------------------

  lemma NextOnAppend(h: History, e: Event, j: nat, k: nat)
    ensures NextOn(h + [e], j, k) <==>
      if k == |h| then j < k && h[j].id == e.id && Quiet(h, e.id, j) else NextOn(h, j, k)
  {
    var g := h + [e];
    assert forall i :: 0 <= i < |h| ==> g[i] == h[i];
  }

  lemma QuietAppend(h: History, e: Event, id: nat, j: nat)
    ensures Quiet(h + [e], id, j) <==> Quiet(h, id, j) && (e.id != id || j >= |h|)
  {
    var g := h + [e];
    assert g[|h|] == e && forall i :: 0 <= i < |h| ==> g[i] == h[i];
  }

  /** What an event must satisfy to keep the history sound. */
  ghost predicate Allowed(h: History, period: nat -> nat, now: nat, e: Event) {
    && e.time == now
    && (forall j :: 0 <= j < |h| && h[j].id == e.id && Quiet(h, e.id, j) ==>
          && (h[j].Enqueued? ==> e.Dequeued? || e == Fired(h[j].time + h[j].delay, e.id, j))
          && (Misfit(h, period, j) ==> e == Dequeued(h[j].time, e.id))
          && (h[j].Fired? && period(e.id) != 0 ==> Requeued(h[j].time, e) || e == Stopped(h[j].time, e.id)))
    && (e.Fired? ==>
          && e.cause < |h| && h[e.cause].Enqueued? && h[e.cause].id == e.id && Quiet(h, e.id, e.cause)
          && forall k :: 0 <= k < |h| && h[k].Fired? && h[k].time == now ==> h[k].cause < e.cause)
  }

  lemma AppendSound(h: History, period: nat -> nat, now: nat, e: Event)
    requires Sound(h, period, now) && Allowed(h, period, now, e)
    ensures Sound(h + [e], period, now)
  {
    hide NextOn, Quiet, Misfit;
    var g := h + [e];
    assert g[|h|] == e && forall i :: 0 <= i < |h| ==> g[i] == h[i];
    AppendExact(h, period, now, e, g);
    AppendRearmed(h, period, now, e, g);
    AppendRedone(h, period, now, e, g);
    forall k | 0 <= k < |g| && g[k].Fired?
      ensures g[k].cause < k && NextOn(g, g[k].cause, k) && g[g[k].cause].Enqueued?
    {
      NextOnAppend(h, e, g[k].cause, k);
    }
  }

  lemma AppendExact(h: History, period: nat -> nat, now: nat, e: Event, g: History)
    requires Exact(h) && Allowed(h, period, now, e) && g == h + [e]
    ensures Exact(g)
  {
    hide NextOn, Quiet, Misfit;
    forall j: nat, k: nat | j < k < |g| && NextOn(g, j, k) && g[j].Enqueued?
      ensures g[k].Dequeued? || g[k] == Fired(g[j].time + g[j].delay, g[j].id, j)
    {
      NextOnAppend(h, e, j, k);
    }
  }

  lemma AppendRearmed(h: History, period: nat -> nat, now: nat, e: Event, g: History)
    requires Rearmed(h, period) && Allowed(h, period, now, e) && g == h + [e]
    ensures Rearmed(g, period)
  {
    hide NextOn, Quiet, Misfit;
    forall k: nat, l: nat | k < l < |g| && NextOn(g, k, l) && g[k].Fired? && period(g[k].id) != 0
      ensures Requeued(g[k].time, g[l]) || g[l] == Stopped(g[k].time, g[k].id)
    {
      NextOnAppend(h, e, k, l);
    }
  }

  lemma MisfitAppend(h: History, period: nat -> nat, e: Event, l: nat)
    ensures l < |h| ==> (Misfit(h + [e], period, l) <==> Misfit(h, period, l))
  {
    hide NextOn;
    var g := h + [e];
    if l < |h| {
      assert forall i :: 0 <= i < |h| ==> g[i] == h[i];
      forall k: nat ensures NextOn(g, k, l) <==> NextOn(h, k, l) { NextOnAppend(h, e, k, l); }
    }
  }

  lemma AppendRedone(h: History, period: nat -> nat, now: nat, e: Event, g: History)
    requires Redone(h, period) && Allowed(h, period, now, e) && g == h + [e]
    ensures Redone(g, period)
  {
    hide NextOn, Quiet, Misfit;
    forall l: nat, m: nat | l < m < |g| && NextOn(g, l, m) && Misfit(g, period, l)
      ensures g[m] == Dequeued(g[l].time, g[l].id)
    {
      NextOnAppend(h, e, l, m);
      MisfitAppend(h, period, e, l);
    }
  }

  // ---- How the queue is tied to the history ------------------------------------------------------

  /** The queued timeouts are those whose last event is an Enqueued, found at position born[id]. */
  ghost predicate Pending(h: History, born: map<nat, nat>) {
    && (forall id :: id in born ==>
          born[id] < |h| && h[born[id]].Enqueued? && h[born[id]].id == id && Quiet(h, id, born[id]))
    && (forall j: nat :: j < |h| && h[j].Enqueued? && Quiet(h, h[j].id, j) ==> h[j].id in born && born[h[j].id] == j)
  }

  /** Between a firing and the end of the callback: the timer has fired, or its callback has queued it. */
  ghost predicate Running(h: History, period: nat -> nat, k: nat) {
    k < |h| && ((h[k].Fired? && period(h[k].id) != 0) || Misfit(h, period, k))
  }

  /** A periodic timer whose last event is one of a running callback is the one whose callback runs. */
  ghost predicate InCallback(h: History, period: nat -> nat, current: Option<nat>, now: nat) {
    forall k: nat :: Running(h, period, k) && Quiet(h, h[k].id, k) ==> current == Some(h[k].id) && h[k].time == now
  }

  ghost function Due(h: History, born: map<nat, nat>, id: nat): nat {
    if id in born && born[id] < |h| && h[born[id]].Enqueued? then h[born[id]].time + h[born[id]].delay else 0
  }

  lemma PendingEnqueue(h: History, born: map<nat, nat>, e: Event)
    requires Pending(h, born) && e.Enqueued? && e.id !in born
    ensures Pending(h + [e], born[e.id := |h|])
    ensures forall id :: id in born ==> Due(h + [e], born[e.id := |h|], id) == Due(h, born, id)
  {
    hide Quiet;
    forall id: nat, j: nat
      ensures Quiet(h + [e], id, j) <==> Quiet(h, id, j) && (e.id != id || j >= |h|)
    {
      QuietAppend(h, e, id, j);
    }
    QuietEnd(h + [e], e.id);
  }

  lemma QuietEnd(h: History, id: nat)
    requires |h| > 0
    ensures Quiet(h, id, |h| - 1)
  {
  }

  lemma PendingDrop(h: History, born: map<nat, nat>, e: Event)
    requires Pending(h, born) && !e.Enqueued?
    ensures Pending(h + [e], born - {e.id})
    ensures forall id :: id in born && id != e.id ==> Due(h + [e], born - {e.id}, id) == Due(h, born, id)
  {
    hide Quiet;
    forall id: nat, j: nat
      ensures Quiet(h + [e], id, j) <==> Quiet(h, id, j) && (e.id != id || j >= |h|)
    {
      QuietAppend(h, e, id, j);
    }
  }

  /** An event on the running timer may end its callback's claim; events on others leave it. */
  lemma CallbackAppend(h: History, period: nat -> nat, current: Option<nat>, current': Option<nat>, now: nat, e: Event)
    requires InCallback(h, period, current, now) && e.time == now
    requires e.Fired? ==> current == None && current' == Some(e.id)
    requires e.Enqueued? ==> current' == current
    requires !e.Fired? ==> current' == current || current == Some(e.id)
    ensures InCallback(h + [e], period, current', now)
  {
    var g := h + [e];
    hide Quiet;
    forall k: nat | Running(g, period, k) && Quiet(g, g[k].id, k)
      ensures current' == Some(g[k].id) && g[k].time == now
    {
      QuietAppend(h, e, g[k].id, k);
      MisfitAppend(h, period, e, k);
      if k < |h| {
        assert Running(h, period, k);
      } else if e.Enqueued? {
        var j: nat :| j < k && NextOn(g, j, k) && g[j].Fired?;
        NextOnAppend(h, e, j, k);
        assert Running(h, period, j);
      }
    }
  }

  /** There is a next event on a timeout that is not quiet. */
  lemma {:induction false} NextExists(h: History, j: nat, k: nat) returns (l: nat)
    requires j < k < |h| && h[k].id == h[j].id
    ensures j < l <= k && NextOn(h, j, l)
    decreases k
  {
    if i :| j < i < k && h[i].id == h[j].id {
      l := NextExists(h, j, i);
    } else {
      l := k;
    }
  }

  lemma {:induction false} PreviousExists(h: History, j: nat, k: nat) returns (l: nat)
    requires j < k < |h| && h[k].id == h[j].id
    ensures j <= l < k && NextOn(h, l, k)
    decreases k - j
  {
    if i :| j < i < k && h[i].id == h[j].id {
      l := PreviousExists(h, i, k);
    } else {
      l := j;
    }
  }

  // ---- What a sound history promises ----------------------------------------------------------------

  /** The state between ticks: all queued timeouts are due later and no callback runs. */
  ghost predicate Between(h: History, period: nat -> nat, now: nat, born: map<nat, nat>) {
    && Sound(h, period, now) && Pending(h, born) && InCallback(h, period, None, now)
    && forall id :: id in born ==> Due(h, born, id) > now
  }

  /** Once delay ticks have passed a timeout has fired, at that tick, or has been dequeued before; and never earlier. */
  lemma FiresOnTime(h: History, period: nat -> nat, now: nat, born: map<nat, nat>, j: nat) returns (k: nat)
    requires Between(h, period, now, born) && j < |h| && h[j].Enqueued? && h[j].time + h[j].delay <= now
    ensures k < |h| && NextOn(h, j, k) && (h[k].Dequeued? || h[k] == Fired(h[j].time + h[j].delay, h[j].id, j))
  {
    assert !Quiet(h, h[j].id, j);
    var i :| j < i < |h| && h[i].id == h[j].id;
    k := NextExists(h, j, i);
  }

  /** From position j on the timer is neither dequeued nor stopped. */
  ghost predicate Undisturbed(h: History, j: nat) {
    j < |h| && forall k :: j < k < |h| && h[k].id == h[j].id ==> !h[k].Dequeued? && !h[k].Stopped?
  }

  /** One period later it fires again. */
  lemma FiresAgain(h: History, period: nat -> nat, now: nat, born: map<nat, nat>, i: nat) returns (k: nat)
    requires Between(h, period, now, born) && Undisturbed(h, i) && h[i].Fired? && period(h[i].id) != 0
    requires h[i].time + period(h[i].id) <= now
    ensures i < k < |h| && h[k].Fired? && h[k].id == h[i].id && h[k].time == h[i].time + period(h[i].id)
  {
    assert Running(h, period, i) && !Quiet(h, h[i].id, i);
    var l :| i < l < |h| && h[l].id == h[i].id;
    l := NextExists(h, i, l);
    assert h[l].Enqueued? && h[l].time == h[i].time;
    if h[l].delay != period(h[l].id) {
      assert Misfit(h, period, l) && Running(h, period, l);
      var m :| l < m < |h| && h[m].id == h[l].id;
      m := NextExists(h, l, m);
      assert false;
    }
    k := FiresOnTime(h, period, now, born, l);
  }

  /** A periodic timer left alone fires delay, delay + period, delay + 2 * period, ... ticks after it was queued. */
  lemma {:induction false} FiresPeriodically(h: History, period: nat -> nat, now: nat, born: map<nat, nat>, j: nat,
                                             n: nat)
    returns (k: nat)
    requires Between(h, period, now, born) && Undisturbed(h, j) && h[j].Enqueued? && period(h[j].id) != 0
    requires h[j].time + h[j].delay + n * period(h[j].id) <= now
    ensures j < k < |h| && h[k].Fired? && h[k].id == h[j].id
    ensures h[k].time == h[j].time + h[j].delay + n * period(h[j].id)
    decreases n
  {
    hide Between;
    if n == 0 {
      k := FiresOnTime(h, period, now, born, j);
    } else {
      MulNext(n - 1, period(h[j].id));
      k := FiresPeriodically(h, period, now, born, j, n - 1);
      k := FiresAgain(h, period, now, born, k);
    }
  }

  /** And at no other tick. */
  lemma {:induction false} FiresOnlyThen(h: History, period: nat -> nat, now: nat, j: nat, k: nat) returns (n: nat)
    requires Sound(h, period, now) && Undisturbed(h, j) && h[j].Enqueued? && period(h[j].id) != 0
    requires j < k < |h| && h[k].Fired? && h[k].id == h[j].id
    ensures h[k].time == h[j].time + h[j].delay + n * period(h[j].id)
    decreases k
  {
    var c := h[k].cause;
    assert NextOn(h, c, k) && j <= c;
    if c == j {
      n := 0;
    } else {
      var q := PreviousExists(h, j, c);
      assert !h[q].Enqueued? && h[q].Fired?;
      assert h[c].Enqueued? && h[c].time == h[q].time;
      assert !Misfit(h, period, c) && h[c].delay == period(h[c].id);
      var m := FiresOnlyThen(h, period, now, j, q);
      MulNext(m, period(h[j].id));
      n := m + 1;
    }
  }
}
