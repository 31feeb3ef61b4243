/** Timeouts kept as a list of differences, and the timers built on them. */
module Timers {
  import opened Arith
  import opened TimeoutHistory

  const ULONG_LIMIT: nat := 0x1_0000_0000

  /** A queued timeout and its `remain` field. */
  datatype Entry = Entry(id: nat, remain: nat)

  type Queue = seq<Entry>

  // ---- The list of differences -----------------------------------------------------------------

  ghost predicate Listed(q: Queue, id: nat) {
    exists k :: 0 <= k < |q| && q[k].id == id
  }

  ghost predicate Distinct(q: Queue) {
    forall i, j :: 0 <= i < j < |q| ==> q[i].id != q[j].id
  }

  /** The deadline that position k counts from. */
  ghost function Base(q: Queue, h: History, born: map<nat, nat>, now: nat, k: nat): nat
    requires k <= |q|
  {
    if k == 0 then now else Due(h, born, q[k - 1].id)
  }

  ghost predicate DeltaAt(q: Queue, h: History, born: map<nat, nat>, now: nat, k: nat) {
    k < |q| ==> q[k].id in born && q[k].remain + Base(q, h, born, now, k) == Due(h, born, q[k].id)
  }

  /** Each entry holds the difference to the deadline before it. */
  ghost predicate Deltas(q: Queue, h: History, born: map<nat, nat>, now: nat) {
    forall k: nat :: DeltaAt(q, h, born, now, k)
  }

  /** Entries stand in the order of their deadlines, equal ones in the order they came. */
  ghost predicate InOrder(q: Queue, h: History, born: map<nat, nat>) {
    forall i, j :: 0 <= i < j < |q| ==> Before(h, born, q[i].id, q[j].id)
  }

  ghost predicate Before(h: History, born: map<nat, nat>, a: nat, b: nat) {
    && a in born && b in born
    && (Due(h, born, a) < Due(h, born, b) || (Due(h, born, a) == Due(h, born, b) && born[a] < born[b]))
  }

  /** The list holds the pending timeouts. */
  ghost predicate Holds(q: Queue, born: map<nat, nat>) {
    Distinct(q) && forall id :: Listed(q, id) <==> id in born
  }

  ghost predicate InRange(h: History, born: map<nat, nat>, now: nat) {
    forall id :: id in born ==> now <= Due(h, born, id) < now + ULONG_LIMIT
  }

  /** What already fired at this tick was queued before everything that is still due. */
  ghost predicate FiredFirst(h: History, born: map<nat, nat>, now: nat) {
    forall k, id :: 0 <= k < |h| && h[k].Fired? && h[k].time == now && id in born && Due(h, born, id) == now ==>
      h[k].cause < born[id]
  }

  /** Due times of all queued timeouts but id carry over to a longer history. */
  ghost predicate SameDue(h: History, born: map<nat, nat>, h': History, born': map<nat, nat>, id: nat) {
    forall x :: x in born && x != id ==> x in born' && born'[x] == born[x] && Due(h', born', x) == Due(h, born, x)
  }

  // ---- Inserting and removing ------------------------------------------------------------------

  /** Put id with remainder r in front of position k, whose own remainder shrinks by r. */
  function Insert(q: Queue, k: nat, id: nat, r: nat): Queue
    requires k <= |q| && (k < |q| ==> q[k].remain >= r)
  {
    if k < |q| then q[..k] + [Entry(id, r), q[k].(remain := q[k].remain - r)] + q[k + 1..]
    else q + [Entry(id, r)]
  }

  /** Take position k out; the next entry takes over its remainder. */
  function Delete(q: Queue, k: nat): Queue
    requires k < |q|
  {
    if k + 1 < |q| then q[..k] + [q[k + 1].(remain := q[k + 1].remain + q[k].remain)] + q[k + 2..]
    else q[..k]
  }

  lemma InsertAtIndex(q: Queue, k: nat, id: nat, r: nat, i: nat)
    requires k <= |q| && (k < |q| ==> q[k].remain >= r) && i <= |q|
    ensures |Insert(q, k, id, r)| == |q| + 1
    ensures Insert(q, k, id, r)[i] ==
      if i < k then q[i] else if i == k then Entry(id, r)
      else if i == k + 1 then q[k].(remain := q[k].remain - r) else q[i - 1]
  {
  }

  lemma DeleteAtIndex(q: Queue, k: nat, i: nat)
    requires k < |q|
    ensures |Delete(q, k)| == |q| - 1
    ensures i < |q| - 1 ==>
      Delete(q, k)[i] ==
        if i < k then q[i]
        else if i == k then q[k + 1].(remain := q[k + 1].remain + q[k].remain)
        else q[i + 1]
  {
  }

  lemma ListedAt(q: Queue, i: nat)
    requires i < |q|
    ensures Listed(q, q[i].id)
  {
  }

  lemma InsertHolds(q: Queue, born: map<nat, nat>, k: nat, id: nat, r: nat, born': map<nat, nat>)
    requires Holds(q, born) && k <= |q| && (k < |q| ==> q[k].remain >= r) && id !in born
    requires born'.Keys == born.Keys + {id}
    ensures Holds(Insert(q, k, id, r), born')
  {
    hide Insert, Listed, Distinct;
    forall x: nat ensures Listed(Insert(q, k, id, r), x) <==> x in born' { InsertListed(q, k, id, r, x); }
    InsertDistinct(q, born, k, id, r);
  }

  lemma InsertListed(q: Queue, k: nat, id: nat, r: nat, x: nat)
    requires k <= |q| && (k < |q| ==> q[k].remain >= r)
    ensures Listed(Insert(q, k, id, r), x) <==> Listed(q, x) || x == id
  {
    var q' := Insert(q, k, id, r);
    InsertAtIndex(q, k, id, r, k);
    hide Insert;
    if Listed(q, x) {
      var i :| 0 <= i < |q| && q[i].id == x;
      InsertAtIndex(q, k, id, r, if i < k then i else i + 1);
    }
    if Listed(q', x) {
      var i :| 0 <= i < |q'| && q'[i].id == x;
      InsertAtIndex(q, k, id, r, i);
    }
  }

  lemma InsertDistinct(q: Queue, born: map<nat, nat>, k: nat, id: nat, r: nat)
    requires Holds(q, born) && k <= |q| && (k < |q| ==> q[k].remain >= r) && id !in born
    ensures Distinct(Insert(q, k, id, r))
  {
    var q' := Insert(q, k, id, r);
    InsertAtIndex(q, k, id, r, k);
    hide Insert;
    forall i, j | 0 <= i < j < |q'| ensures q'[i].id != q'[j].id {
      InsertAtIndex(q, k, id, r, i);
      InsertAtIndex(q, k, id, r, j);
      if i == k {
        ListedAt(q, j - 1);
      } else if j == k {
        ListedAt(q, i);
      } else {
        assert q[if i < k then i else i - 1].id != q[if j < k then j else j - 1].id;
      }
    }
  }

  lemma DeleteHolds(q: Queue, born: map<nat, nat>, k: nat, born': map<nat, nat>)
    requires Holds(q, born) && k < |q| && born'.Keys == born.Keys - {q[k].id}
    ensures Holds(Delete(q, k), born')
  {
    var q' := Delete(q, k);
    DeleteAtIndex(q, k, 0);
    hide Delete;
    forall x: nat ensures Listed(q', x) <==> x in born' {
      if x in born' {
        var i :| 0 <= i < |q| && q[i].id == x;
        DeleteAtIndex(q, k, if i < k then i else i - 1);
      }
      if Listed(q', x) {
        var i :| 0 <= i < |q'| && q'[i].id == x;
        DeleteAtIndex(q, k, i);
        ListedAt(q, if i < k then i else i + 1);
        assert q[if i < k then i else i + 1].id != q[k].id;
      }
    }
    forall i, j | 0 <= i < j < |q'| ensures q'[i].id != q'[j].id {
      DeleteAtIndex(q, k, i);
      DeleteAtIndex(q, k, j);
      assert q[if i < k then i else i + 1].id != q[if j < k then j else j + 1].id;
    }
  }

  lemma InsertDeltas(q: Queue, h: History, born: map<nat, nat>, now: nat, k: nat, id: nat, d: nat, h': History,
                     born': map<nat, nat>)
    requires Deltas(q, h, born, now) && k <= |q|
    requires SameDue(h, born, h', born', id) && id !in born && id in born' && Due(h', born', id) == d
    requires Base(q, h, born, now, k) <= d && (k < |q| ==> Due(h, born, q[k].id) >= d)
    ensures k < |q| ==> q[k].remain >= d - Base(q, h, born, now, k)
    ensures Deltas(Insert(q, k, id, d - Base(q, h, born, now, k)), h', born', now)
  {
    hide Due;
    var r := d - Base(q, h, born, now, k);
    assert DeltaAt(q, h, born, now, k);
    var q' := Insert(q, k, id, r);
    InsertAtIndex(q, k, id, r, k);
    hide Insert;
    forall i: nat ensures DeltaAt(q', h', born', now, i) {
      if i < |q'| {
        InsertAtIndex(q, k, id, r, i);
        if i > 0 {
          InsertAtIndex(q, k, id, r, i - 1);
          assert DeltaAt(q, h, born, now, i - 1);
        }
        assert DeltaAt(q, h, born, now, i);
        if i > 1 { assert DeltaAt(q, h, born, now, i - 2); }
      }
    }
  }

  lemma InsertOrder(q: Queue, h: History, born: map<nat, nat>, k: nat, id: nat, r: nat, d: nat, h': History,
                    born': map<nat, nat>)
    requires InOrder(q, h, born) && Holds(q, born) && k <= |q| && (k < |q| ==> q[k].remain >= r)
    requires SameDue(h, born, h', born', id) && id !in born && id in born' && Due(h', born', id) == d
    requires forall x :: x in born ==> born[x] < born'[id]
    requires forall i :: 0 <= i < k ==> Due(h, born, q[i].id) <= d
    requires k < |q| ==> Due(h, born, q[k].id) > d
    ensures InOrder(Insert(q, k, id, r), h', born')
  {
    hide Due;
    var q' := Insert(q, k, id, r);
    InsertAtIndex(q, k, id, r, k);
    hide Insert;
    forall i, j | 0 <= i < j < |q'| ensures Before(h', born', q'[i].id, q'[j].id) {
      InsertAtIndex(q, k, id, r, i);
      InsertAtIndex(q, k, id, r, j);
      if i == k {
        ListedAt(q, j - 1);
        assert j - 1 > k ==> Before(h, born, q[k].id, q[j - 1].id);
      } else if j == k {
        ListedAt(q, i);
      } else {
        assert Before(h, born, q[if i < k then i else i - 1].id, q[if j < k then j else j - 1].id);
        ListedAt(q, if i < k then i else i - 1);
        ListedAt(q, if j < k then j else j - 1);
      }
    }
  }

  lemma DeleteDeltas(q: Queue, h: History, born: map<nat, nat>, now: nat, k: nat, h': History, born': map<nat, nat>)
    requires Deltas(q, h, born, now) && Distinct(q) && k < |q| && SameDue(h, born, h', born', q[k].id)
    ensures Deltas(Delete(q, k), h', born', now)
  {
    hide Due;
    var q' := Delete(q, k);
    DeleteAtIndex(q, k, 0);
    hide Delete;
    forall i: nat ensures DeltaAt(q', h', born', now, i) {
      if i < |q'| {
        DeleteAtIndex(q, k, i);
        if i > 0 {
          DeleteAtIndex(q, k, i - 1);
          assert DeltaAt(q, h, born, now, i - 1);
        }
        assert DeltaAt(q, h, born, now, i) && DeltaAt(q, h, born, now, i + 1);
      }
    }
  }

  lemma DeleteOrder(q: Queue, h: History, born: map<nat, nat>, k: nat, h': History, born': map<nat, nat>)
    requires InOrder(q, h, born) && Distinct(q) && k < |q| && SameDue(h, born, h', born', q[k].id)
    ensures InOrder(Delete(q, k), h', born')
  {
    hide Due;
    var q' := Delete(q, k);
    DeleteAtIndex(q, k, 0);
    hide Delete;
    forall i, j | 0 <= i < j < |q'| ensures Before(h', born', q'[i].id, q'[j].id) {
      DeleteAtIndex(q, k, i);
      DeleteAtIndex(q, k, j);
      assert Before(h, born, q[if i < k then i else i + 1].id, q[if j < k then j else j + 1].id);
    }
  }

  // ---- The queue -------------------------------------------------------------------------------------

  type ULong = x: int | 0 <= x < ULONG_LIMIT

  datatype Op = Start(id: nat, delay: ULong) | Stop(id: nat)

  datatype Step = Do(op: Op) | Tick

  /**
   * How the kernel fares: well; a timer is started that is queued, or for no delay; or a timer
   * is found queued after its callback.
   */
  datatype Outcome = Fine | BadStart(op: Op) | StillQueued(id: nat)

  /** Why the kernel stops. */
  ghost predicate Explained(r: Outcome, born: map<nat, nat>, period: nat -> nat, current: Option<nat>) {
    match r
    case Fine => false
    case BadStart(op) => op.Start? && (op.delay == 0 || op.id in born)
    case StillQueued(id) => current == Some(id) && period(id) != 0 && id in born
  }

  // ---- What the steps do, as events ---------------------------------------------------------------------

  /** The timers that are queued, the one whose callback runs, and what has happened. */
  datatype Doing = Doing(queued: set<nat>, current: Option<nat>, events: History)

  /** A start queues; a stop dequeues, or keeps the running timer from being queued again, or does nothing. */
  ghost function Did(d: Doing, op: Op, now: nat): Doing {
    match op
    case Start(id, delay) => d.(queued := d.queued + {id}, events := d.events + [Enqueued(now, id, delay)])
    case Stop(id) =>
      if id in d.queued then d.(queued := d.queued - {id}, events := d.events + [Dequeued(now, id)])
      else if d.current == Some(id) then d.(current := None, events := d.events + [Stopped(now, id)])
      else d
  }

  ghost function DidAll(d: Doing, ops: seq<Op>, now: nat): Doing
    decreases |ops|
  {
    if ops == [] then d else Did(DidAll(d, ops[..|ops| - 1], now), ops[|ops| - 1], now)
  }

  /** A start of a timer that is queued, or for no delay. */
  ghost predicate Bad(d: Doing, op: Op) {
    op.Start? && (op.delay == 0 || op.id in d.queued)
  }

  ghost predicate NoneBad(d: Doing, ops: seq<Op>, now: nat) {
    forall i :: 0 <= i < |ops| ==> !Bad(DidAll(d, ops[..i], now), ops[i])
  }

  lemma DidNext(d: Doing, ops: seq<Op>, now: nat, i: nat)
    requires i < |ops|
    ensures DidAll(d, ops[..i + 1], now) == Did(DidAll(d, ops[..i], now), ops[i], now)
  {
    assert ops[..i + 1][..i] == ops[..i];
  }

  lemma DidNone(d: Doing, ops: seq<Op>, now: nat)
    ensures DidAll(d, ops[..0], now) == d
  {
  }

  lemma DidCurrent(d: Doing, op: Op, now: nat)
    ensures Did(d, op, now).current == d.current || Did(d, op, now).current == None
  {
  }

  lemma BadMeans(d: Doing, op: Op, born: map<nat, nat>, period: nat -> nat, current: Option<nat>)
    requires d.queued == born.Keys && Bad(d, op)
    ensures Explained(BadStart(op), born, period, current)
  {
  }

  lemma SelfStarted(d: Doing, act: (nat, nat) -> seq<Op>, now: nat, id: nat)
    requires SelfStart(act, now, id) && id !in d.queued
    ensures NoneBad(d, act(now, id), now) && DidAll(d, act(now, id), now).current == d.current
    ensures id in DidAll(d, act(now, id), now).queued
  {
    var delay: ULong :| delay > 0 && act(now, id) == [Start(id, delay)];
    var ops := act(now, id);
    assert ops[..0] == [];
  }

  /** What is queued, what has happened and when. */
  datatype Moment = Moment(hist: History, born: map<nat, nat>, now: nat)

  /**
   * A timer that is due fires, its callback does what it does, and it is queued again if it is
   * periodic and not stopped.
   */
  ghost predicate Round(m: Moment, m': Moment, act: (nat, nat) -> seq<Op>, period: nat -> nat, id: nat) {
    && id in m.born && Due(m.hist, m.born, id) == m.now && m'.now == m.now
    && var start := Doing(m.born.Keys - {id}, Some(id), m.hist + [Fired(m.now, id, m.born[id])]);
       var d := DidAll(start, act(m.now, id), m.now);
       var again := d.current.Some? && period(id) != 0;
       && m'.hist == d.events + (if again then [Enqueued(m.now, id, period(id))] else [])
       && m'.born.Keys == d.queued + if again then {id} else {}
  }

  /** One round after the other, for the timers `ids`. */
  ghost predicate Rounds(ms: seq<Moment>, ids: seq<nat>, act: (nat, nat) -> seq<Op>, period: nat -> nat) {
    |ms| == |ids| + 1 && forall i :: 0 <= i < |ids| ==> Round(ms[i], ms[i + 1], act, period, ids[i])
  }

  /** The clock moves on and rounds follow until nothing is due. */
  ghost predicate Ticks(m: Moment, m': Moment, act: (nat, nat) -> seq<Op>, period: nat -> nat) {
    && (exists ms, ids :: Rounds(ms, ids, act, period) && ms[0] == m.(now := m.now + 1) && ms[|ids|] == m')
    && forall id :: id in m'.born ==> Due(m'.hist, m'.born, id) > m'.now
  }

  ghost predicate Took(m: Moment, step: Step, m': Moment, act: (nat, nat) -> seq<Op>, period: nat -> nat) {
    match step
    case Do(op) =>
      var d := Did(Doing(m.born.Keys, None, m.hist), op, m.now);
      m'.hist == d.events && m'.born.Keys == d.queued && m'.now == m.now
    case Tick => Ticks(m, m', act, period)
  }

  ghost predicate IsRun(trace: seq<Moment>, steps: seq<Step>, act: (nat, nat) -> seq<Op>, period: nat -> nat) {
    |trace| == |steps| + 1 && forall i :: 0 <= i < |steps| ==> Took(trace[i], steps[i], trace[i + 1], act, period)
  }

  /** The callback does nothing but start its own timer. */
  ghost predicate SelfStart(act: (nat, nat) -> seq<Op>, now: nat, id: nat) {
    exists d: ULong :: d > 0 && act(now, id) == [Start(id, d)]
  }

  class TimerQueue {
    /** Each initialisation of a timer counts as a new one, so that its period stays. */
    const period: nat -> nat
    var queue: Queue
    var current: Option<nat>
    var now: nat
    ghost var hist: History
    ghost var born: map<nat, nat>

    ghost predicate Inv()
      reads this
    {
      && Holds(queue, born) && Deltas(queue, hist, born, now) && InOrder(queue, hist, born)
      && Sound(hist, period, now) && Pending(hist, born) && InCallback(hist, period, current, now)
      && InRange(hist, born, now) && FiredFirst(hist, born, now)
      && (forall id :: period(id) < ULONG_LIMIT)
    }

    /** The state between ticks. */
    ghost predicate Settled()
      reads this
    {
      Inv() && current == None && forall id :: id in born ==> Due(hist, born, id) > now
    }

    constructor (period: nat -> nat)
      requires forall id :: period(id) < ULONG_LIMIT
      ensures Settled() && queue == [] && hist == [] && now == 0 && this.period == period
    {
      this.period := period;
      queue, current, now, hist, born := [], None, 0, [], map[];
    }

    /** Queue a timeout that is not queued. */
    method Enqueue(id: nat, delay: nat)
      requires Inv() && !Listed(queue, id) && 0 < delay < ULONG_LIMIT
      modifies this`queue, this`hist, this`born
      ensures Inv() && hist == old(hist) + [Enqueued(now, id, delay)] && born == old(born)[id := |old(hist)|]
      ensures forall x :: x in old(born) ==> Due(hist, born, x) == Due(old(hist), old(born), x)
      ensures Due(hist, born, id) == now + delay
    {
      hide Due, Deltas, InOrder, Sound, Pending, InCallback, InRange, FiredFirst, Insert;
      var k, r := 0, delay;
      StartBase(queue, hist, born, now);
      while k < |queue| && queue[k].remain <= r
        invariant queue == old(queue) && hist == old(hist) && born == old(born)
        invariant 0 <= k <= |queue| && r + Base(queue, hist, born, now, k) == now + delay
        invariant forall i :: 0 <= i < k ==> Due(hist, born, queue[i].id) <= now + delay
      {
        Passed(queue, hist, born, now, k);
        r := r - queue[k].remain;
        k := k + 1;
      }
      if k < |queue| { Passed(queue, hist, born, now, k); }
      ghost var e := Enqueued(now, id, delay);
      Enqueuing(queue, hist, born, now, period, current, k, e);
      queue := Insert(queue, k, id, r);
      born := born[id := |hist|];
      hist := hist + [e];
    }

    /** Take the timeout at position k off the queue. */
    method Dequeue(k: nat)
      requires Inv() && k < |queue|
      modifies this`queue, this`hist, this`born
      ensures Inv() && born == old(born) - {old(queue)[k].id} && hist == old(hist) + [Dequeued(now, old(queue)[k].id)]
      ensures forall x :: x in born ==> Due(hist, born, x) == Due(old(hist), old(born), x)
    {
      hide Due, Deltas, InOrder, Sound, Pending, InCallback, InRange, FiredFirst, Delete, Holds;
      ghost var e := Dequeued(now, queue[k].id);
      Leaving(queue, hist, born, now, period, current, current, k, e);
      queue := Delete(queue, k);
      born := born - {e.id};
      hist := hist + [e];
    }

    /** The first timeout is due: take it off and make it the current one. */
    method Pop() returns (id: nat)
      requires Inv() && queue != [] && queue[0].remain == 0 && current == None
      modifies this`queue, this`hist, this`born, this`current
      ensures Inv() && current == Some(id) && id == old(queue)[0].id && id in old(born) && born == old(born) - {id}
      ensures Due(old(hist), old(born), id) == now
      ensures hist == old(hist) + [Fired(now, id, old(born)[id])]
      ensures forall x :: x in born ==> Due(hist, born, x) == Due(old(hist), old(born), x)
    {
      hide Due, Deltas, InOrder, Sound, Pending, InCallback, InRange, FiredFirst, Holds;
      id := queue[0].id;
      HeadDue(queue, hist, born, now);
      ghost var e := Fired(now, id, born[id]);
      Leaving(queue, hist, born, now, period, current, Some(id), 0, e);
      assert Delete(queue, 0) == queue[1..];
      queue := queue[1..];
      born := born - {id};
      hist := hist + [e];
      current := Some(id);
    }

    /** Where a timeout is queued; the length of the queue if it is not. */
    method Find(id: nat) returns (k: nat)
      ensures k <= |queue| && (k < |queue| ==> queue[k].id == id) && (k < |queue| <==> Listed(queue, id))
    {
      k := 0;
      while k < |queue| && queue[k].id != id
        invariant k <= |queue| && forall i :: 0 <= i < k ==> queue[i].id != id
      {
        k := k + 1;
      }
    }

    /** Stop a timer: if it is queued take it off, if its callback runs keep it from being queued again. */
    method StopTimer(id: nat)
      requires Inv()
      modifies this`queue, this`hist, this`born, this`current
      ensures Inv() && NothingNewDue(old(hist), old(born), hist, born, now) && born.Keys == old(born).Keys - {id}
      ensures current == if old(current) == Some(id) && id !in old(born) then None else old(current)
      ensures hist == old(hist) +
        if id in old(born) then [Dequeued(now, id)] else if old(current) == Some(id) then [Stopped(now, id)] else []
    {
      hide Due, Deltas, InOrder, Sound, Pending, InCallback, InRange, FiredFirst;
      var k := Find(id);
      assert Listed(queue, id) <==> id in born;
      if k < |queue| {
        Dequeue(k);
      } else if current == Some(id) {
        ghost var e := Stopped(now, id);
        Stopping(queue, hist, born, now, period, current, e);
        hist := hist + [e];
        current := None;
      }
      assert id !in born;
    }

    /** Start a timer; the kernel stops if it is queued, or if the delay is zero. */
    method StartTimer(id: nat, delay: ULong) returns (ok: bool)
      requires Inv()
      modifies this`queue, this`hist, this`born
      ensures Inv() && NothingNewDue(old(hist), old(born), hist, born, now)
      ensures ok <==> delay > 0 && id !in old(born)
      ensures !ok ==> hist == old(hist) && born == old(born) && queue == old(queue)
      ensures ok ==> hist == old(hist) + [Enqueued(now, id, delay)] && born.Keys == old(born).Keys + {id}
    {
      hide Due, Deltas, InOrder, Sound, Pending, InCallback, InRange, FiredFirst;
      var k := Find(id);
      assert Listed(queue, id) <==> id in born;
      ok := k == |queue| && delay > 0;
      if ok {
        Enqueue(id, delay);
      }
    }

    /** One operation of other code, also while a callback runs. */
    method ApplyOne(op: Op) returns (ok: bool)
      requires Inv()
      modifies this`queue, this`hist, this`born, this`current
      ensures Inv() && NothingNewDue(old(hist), old(born), hist, born, now)
      ensures ok <==> !Bad(Doing(old(born).Keys, old(current), old(hist)), op)
      ensures Doing(born.Keys, current, hist) == if ok
        then Did(Doing(old(born).Keys, old(current), old(hist)), op, now)
        else Doing(old(born).Keys, old(current), old(hist))
    {
      hide Due, Deltas, InOrder, Sound, Pending, InCallback, InRange, FiredFirst, Holds;
      match op {
        case Start(id, delay) => ok := StartTimer(id, delay);
        case Stop(id) =>
          StopTimer(id);
          ok := true;
      }
    }

    /** What other code does, up to the first start that fails. */
    method Apply(ops: seq<Op>) returns (r: Outcome)
      requires Inv()
      modifies this`queue, this`hist, this`born, this`current
      ensures Inv() && NothingNewDue(old(hist), old(born), hist, born, now)
      ensures current == old(current) || current == None
      ensures r != Fine ==> r.BadStart? && r.op in ops && Explained(r, born, period, current)
      ensures r == Fine <==> NoneBad(Doing(old(born).Keys, old(current), old(hist)), ops, now)
      ensures r == Fine ==>
        Doing(born.Keys, current, hist) == DidAll(Doing(old(born).Keys, old(current), old(hist)), ops, now)
    {
      hide Due, Deltas, InOrder, Sound, Pending, InCallback, InRange, FiredFirst, Holds, Did, DidAll, Bad, Explained;
      ghost var d := Doing(born.Keys, current, hist);
      DidNone(d, ops, now);
      for i := 0 to |ops|
        invariant Inv() && NothingNewDue(old(hist), old(born), hist, born, now)
        invariant current == old(current) || current == None
        invariant Doing(born.Keys, current, hist) == DidAll(d, ops[..i], now)
        invariant forall j :: 0 <= j < i ==> !Bad(DidAll(d, ops[..j], now), ops[j])
      {
        DidNext(d, ops, now, i);
        DidCurrent(Doing(born.Keys, current, hist), ops[i], now);
        var ok := ApplyOne(ops[i]);
        if !ok {
          BadMeans(Doing(born.Keys, current, hist), ops[i], born, period, current);
          return BadStart(ops[i]);
        }
      }
      assert ops[..|ops|] == ops;
      return Fine;
    }

    /**
     * Fire the first timeout, run its callback, and queue it again if it is periodic and was not
     * stopped.  A periodic timer that its callback has started and not stopped is found queued
     * then, and the kernel stops.
     */
    method Fire(act: (nat, nat) -> seq<Op>) returns (r: Outcome)
      requires Inv() && queue != [] && queue[0].remain == 0 && current == None
      modifies this`queue, this`hist, this`born, this`current
      ensures Inv() && DueNow(hist, born, now) < old(DueNow(hist, born, now))
      ensures old(hist) < hist && hist[|old(hist)|].Fired? && hist[|old(hist)|].id == old(queue)[0].id
      ensures r == Fine ==> current == None
      ensures r != Fine ==> Explained(r, born, period, current)
      ensures var id := old(queue)[0].id; period(id) != 0 && SelfStart(act, now, id) ==> r == StillQueued(id)
      ensures r == Fine ==>
        Round(Moment(old(hist), old(born), now), Moment(hist, born, now), act, period, old(queue)[0].id)
    {
      hide Due, Deltas, InOrder, Sound, Pending, InCallback, InRange, FiredFirst, Holds, Explained, DidAll, NoneBad;
      var id := Pop();
      if SelfStart(act, now, id) { SelfStarted(Doing(born.Keys, current, hist), act, now, id); }
      FewerDue(old(hist), old(born), hist, born, now, id);
      ghost var h1, born1 := hist, born;
      r := Apply(act(now, id));
      NoMoreDue(h1, born1, hist, born, now);
      assert h1 <= hist;
      if r != Fine {
        return;
      }
      if current.Some? {
        r := Finish(id);
        assert h1 <= hist;
      }
    }

    /** The end of a callback that has not been stopped. */
    method Finish(id: nat) returns (r: Outcome)
      requires Inv() && current == Some(id)
      modifies this`queue, this`hist, this`born, this`current
      ensures Inv() && DueNow(hist, born, now) <= old(DueNow(hist, born, now)) && old(hist) <= hist
      ensures r == Fine ==> current == None
      ensures r != Fine ==> r == StillQueued(id) && Explained(r, born, period, current)
      ensures r == Fine <==> period(id) == 0 || id !in old(born)
      ensures r == Fine ==> hist == old(hist) + if period(id) != 0 then [Enqueued(now, id, period(id))] else []
      ensures r == Fine ==> born.Keys == old(born).Keys + if period(id) != 0 then {id} else {}
    {
      hide Due, Deltas, InOrder, Sound, Pending, InCallback, InRange, FiredFirst, Holds;
      if period(id) != 0 {
        HoldsListed(queue, born, id);
        var k := Find(id);
        if k < |queue| {
          return StillQueued(id);
        }
        ghost var h2, born2 := hist, born;
        Enqueue(id, period(id));
        NoMoreDue(h2, born2, hist, born, now);
      }
      CallbackEnds(hist, born, period, id, now);
      current := None;
      return Fine;
    }

    /** One tick: the first difference shrinks by one, and everything that is due fires. */
    method Process(act: (nat, nat) -> seq<Op>) returns (r: Outcome)
      requires Settled()
      modifies this
      ensures Inv() && now == old(now) + 1 && old(hist) <= hist
      ensures r == Fine ==> Settled()
      ensures r != Fine ==> Explained(r, born, period, current)
      ensures old(queue) != [] && old(queue)[0].remain == 1 ==>
        var id := old(queue)[0].id; period(id) != 0 && SelfStart(act, now, id) ==> r == StillQueued(id)
      ensures r == Fine ==> Ticks(Moment(old(hist), old(born), old(now)), Moment(hist, born, now), act, period)
    {
      hide Due, Deltas, InOrder, Sound, Pending, InCallback, InRange, FiredFirst, Holds, Explained, Round;
      Ticking(queue, hist, born, now, period);
      now := now + 1;
      r := Fine;
      ghost var ms, ids: seq<nat> := [Moment(hist, born, now)], [];
      if queue == [] {
        AllLater(queue, hist, born, now);
        assert Rounds(ms, ids, act, period);
        return;
      }
      queue := [queue[0].(remain := queue[0].remain - 1)] + queue[1..];
      ghost var ticked := queue;
      while queue != [] && queue[0].remain == 0
        invariant Inv() && current == None && now == old(now) + 1 && old(hist) <= hist && r == Fine
        invariant queue == ticked || ticked[0].remain != 0 || period(ticked[0].id) == 0 ||
          !SelfStart(act, now, ticked[0].id)
        invariant Rounds(ms, ids, act, period) && ms[|ids|] == Moment(hist, born, now)
        invariant ms[0] == Moment(old(hist), old(born), now)
        decreases DueNow(hist, born, now)
      {
        ids := ids + [queue[0].id];
        r := Fire(act);
        if r != Fine {
          return;
        }
        ms := ms + [Moment(hist, born, now)];
      }
      AllLater(queue, hist, born, now);
    }

    /**
     * Any run of ticks and of other code leaves a sound history, also one in which the kernel
     * stops.  Each step does what Took says, up to the first in which it does; `trace` holds the
     * states in between.
     */
    method Execute(steps: seq<Step>, act: (nat, nat) -> seq<Op>) returns (r: Outcome, ghost trace: seq<Moment>)
      requires Settled()
      modifies this
      ensures Sound(hist, period, now) && old(hist) <= hist
      ensures r == Fine ==> Settled() && Between(hist, period, now, born)
      ensures r != Fine ==> Explained(r, born, period, current)
      ensures 0 < |trace| <= |steps| + 1 && IsRun(trace, steps[..|trace| - 1], act, period)
      ensures trace[0] == Moment(old(hist), old(born), old(now))
      ensures r == Fine ==> |trace| == |steps| + 1 && trace[|steps|] == Moment(hist, born, now)
      ensures r != Fine ==> |trace| <= |steps|
    {
      hide Due, Deltas, InOrder, Sound, Pending, InCallback, InRange, FiredFirst, Holds, Explained, Took;
      r, trace := Fine, [Moment(hist, born, now)];
      for i := 0 to |steps|
        invariant Settled() && old(hist) <= hist && r == Fine
        invariant |trace| == i + 1 && IsRun(trace, steps[..i], act, period)
        invariant trace[0] == Moment(old(hist), old(born), old(now)) && trace[i] == Moment(hist, born, now)
      {
        assert steps[..i + 1] == steps[..i] + [steps[i]];
        r := TakeStep(steps[i], act);
        if r != Fine {
          return;
        }
        trace := trace + [Moment(hist, born, now)];
      }
      assert steps[..|steps|] == steps;
    }

    method TakeStep(step: Step, act: (nat, nat) -> seq<Op>) returns (r: Outcome)
      requires Settled()
      modifies this
      ensures Inv() && old(hist) <= hist
      ensures r == Fine ==> Settled()
      ensures r != Fine ==> Explained(r, born, period, current)
      ensures r == Fine ==>
        Took(Moment(old(hist), old(born), old(now)), step, Moment(hist, born, now), act, period)
      ensures step.Do? ==> (r == Fine <==> !Bad(Doing(old(born).Keys, None, old(hist)), step.op))
    {
      hide Due, Deltas, InOrder, Sound, Pending, InCallback, InRange, FiredFirst, Holds, Explained, Ticks;
      match step {
        case Do(op) =>
          ghost var d := Doing(born.Keys, current, hist);
          var ok := ApplyOne(op);
          StillLater(old(hist), old(born), hist, born, now);
          if !ok {
            BadMeans(d, op, born, period, current);
            return BadStart(op);
          }
          return Fine;
        case Tick => r := Process(act);
      }
    }
  }

  /** The history grew, and what is pending is due later than now or was pending with the same deadline. */
  ghost predicate NothingNewDue(h: History, born: map<nat, nat>, h': History, born': map<nat, nat>, now: nat) {
    && h <= h'
    && forall x :: x in born' ==> Due(h', born', x) > now || (x in born && Due(h', born', x) == Due(h, born, x))
  }

  /** The timeouts due at this tick. */
  ghost function DueNow(h: History, born: map<nat, nat>, now: nat): set<nat> {
    set id | id in born && Due(h, born, id) == now
  }

  lemma StartBase(q: Queue, h: History, born: map<nat, nat>, now: nat)
    ensures Base(q, h, born, now, 0) == now
  {
  }

  lemma Passed(q: Queue, h: History, born: map<nat, nat>, now: nat, k: nat)
    requires Deltas(q, h, born, now) && k < |q|
    ensures q[k].remain + Base(q, h, born, now, k) == Due(h, born, q[k].id) == Base(q, h, born, now, k + 1)
  {
    assert DeltaAt(q, h, born, now, k);
  }

  /** Queueing at the right place keeps everything. */
  lemma Enqueuing(q: Queue, h: History, born: map<nat, nat>, now: nat, period: nat -> nat, current: Option<nat>, k: nat,
                  e: Event)
    requires Holds(q, born) && Deltas(q, h, born, now) && InOrder(q, h, born) && Sound(h, period, now)
    requires Pending(h, born)
    requires InCallback(h, period, current, now) && InRange(h, born, now) && FiredFirst(h, born, now)
    requires e.Enqueued? && e.time == now && 0 < e.delay < ULONG_LIMIT && e.id !in born && k <= |q|
    requires Base(q, h, born, now, k) <= now + e.delay
    requires forall i :: 0 <= i < k ==> Due(h, born, q[i].id) <= now + e.delay
    requires k < |q| ==> Due(h, born, q[k].id) > now + e.delay
    ensures var h', born' := h + [e], born[e.id := |h|];
      && Due(h', born', e.id) == now + e.delay
      && (forall x :: x in born ==> Due(h', born', x) == Due(h, born, x))
      && Sound(h', period, now) && Pending(h', born') && InCallback(h', period, current, now)
      && InRange(h', born', now) && FiredFirst(h', born', now)
    ensures var h', born', r := h + [e], born[e.id := |h|], now + e.delay - Base(q, h, born, now, k);
      && (k < |q| ==> q[k].remain >= r)
      && Holds(Insert(q, k, e.id, r), born') && Deltas(Insert(q, k, e.id, r), h', born', now)
      && InOrder(Insert(q, k, e.id, r), h', born')
  {
    hide Deltas, InOrder, Sound, InCallback, Holds, Insert, Quiet;
    var h', born', r := h + [e], born[e.id := |h|], now + e.delay - Base(q, h, born, now, k);
    PendingEnqueue(h, born, e);
    AllowEnqueue(h, period, now, born, current, e);
    AppendSound(h, period, now, e);
    CallbackAppend(h, period, current, current, now, e);
    InsertDeltas(q, h, born, now, k, e.id, now + e.delay, h', born');
    InsertHolds(q, born, k, e.id, r, born');
    InsertOrder(q, h, born, k, e.id, r, now + e.delay, h', born');
    FiredFirstLater(h, born, h', born', now, e);
  }

  lemma AllowEnqueue(h: History, period: nat -> nat, now: nat, born: map<nat, nat>, current: Option<nat>, e: Event)
    requires Pending(h, born) && InCallback(h, period, current, now)
    requires e.Enqueued? && e.time == now && e.id !in born
    ensures Allowed(h, period, now, e)
  {
    hide Quiet, Misfit;
    forall j: nat | j < |h| && h[j].id == e.id && Quiet(h, e.id, j)
      ensures !h[j].Enqueued? && (h[j].Fired? && period(e.id) != 0 ==> h[j].time == now)
      ensures !Misfit(h, period, j)
    {
      assert h[j].Fired? && period(e.id) != 0 ==> Running(h, period, j);
      MisfitQueued(h, period, j);
    }
  }

  lemma MisfitQueued(h: History, period: nat -> nat, j: nat)
    ensures Misfit(h, period, j) ==> j < |h| && h[j].Enqueued? && h[j].delay != period(h[j].id) && period(h[j].id) != 0
  {
  }

  lemma FiredFirstLater(h: History, born: map<nat, nat>, h': History, born': map<nat, nat>, now: nat, e: Event)
    requires FiredFirst(h, born, now) && h' == h + [e] && !e.Fired?
    requires forall x :: x in born' ==>
      Due(h', born', x) > now || (x in born && born'[x] == born[x] && Due(h', born', x) == Due(h, born, x))
    ensures FiredFirst(h', born', now)
  {
    hide Due;
  }

  // ---- Leaving the queue -------------------------------------------------------------------------------

  lemma HoldsListed(q: Queue, born: map<nat, nat>, id: nat)
    requires Holds(q, born)
    ensures Listed(q, id) <==> id in born
  {
  }

  lemma HeadDue(q: Queue, h: History, born: map<nat, nat>, now: nat)
    requires Holds(q, born) && Deltas(q, h, born, now) && q != [] && q[0].remain == 0
    ensures q[0].id in born && Due(h, born, q[0].id) == now
  {
    assert DeltaAt(q, h, born, now, 0);
  }

  lemma LastIsBorn(h: History, born: map<nat, nat>, id: nat, j: nat)
    requires Pending(h, born) && id in born && j < |h| && h[j].id == id && Quiet(h, id, j)
    ensures j == born[id]
  {
  }

  lemma AllowLeave(h: History, period: nat -> nat, now: nat, born: map<nat, nat>, current: Option<nat>, e: Event)
    requires Pending(h, born) && e.id in born && e.time == now && FiredFirst(h, born, now)
    requires InCallback(h, period, current, now) && (e.Fired? ==> current == None)
    requires e.Dequeued? || (Due(h, born, e.id) == now && e == Fired(now, e.id, born[e.id]))
    ensures Allowed(h, period, now, e)
  {
    hide Quiet, Misfit;
    forall j: nat | j < |h| && h[j].id == e.id && Quiet(h, e.id, j)
      ensures j == born[e.id] && (Misfit(h, period, j) ==> e == Dequeued(h[j].time, e.id))
    {
      LastIsBorn(h, born, e.id, j);
      assert Misfit(h, period, j) ==> Running(h, period, j);
    }
  }

  lemma DropDue(h: History, born: map<nat, nat>, e: Event)
    requires Pending(h, born) && !e.Enqueued?
    ensures Pending(h + [e], born - {e.id}) && SameDue(h, born, h + [e], born - {e.id}, e.id)
  {
    PendingDrop(h, born, e);
    hide Due, Pending;
  }

  lemma FiredFirstNext(q: Queue, h: History, born: map<nat, nat>, now: nat, e: Event)
    requires Holds(q, born) && InOrder(q, h, born) && q != [] && Pending(h, born) && FiredFirst(h, born, now)
    requires e == Fired(now, q[0].id, born[q[0].id]) && q[0].id in born && Due(h, born, q[0].id) == now
    requires SameDue(h, born, h + [e], born - {e.id}, e.id)
    ensures FiredFirst(h + [e], born - {e.id}, now)
  {
    hide Due, Pending;
    var h', born' := h + [e], born - {e.id};
    forall k, id | 0 <= k < |h'| && h'[k].Fired? && h'[k].time == now && id in born' && Due(h', born', id) == now
      ensures h'[k].cause < born'[id]
    {
      HoldsListed(q, born, id);
      var i :| 0 <= i < |q| && q[i].id == id;
      assert i > 0 ==> Before(h, born, q[0].id, q[i].id);
    }
  }

  lemma RangeKept(h: History, born: map<nat, nat>, h': History, born': map<nat, nat>, id: nat, now: nat)
    requires InRange(h, born, now) && SameDue(h, born, h', born', id) && born'.Keys <= born.Keys - {id}
    ensures InRange(h', born', now)
  {
    hide Due;
  }

  /** Taking position k off the queue keeps everything, whether it is dequeued or fires. */
  lemma Leaving(q: Queue, h: History, born: map<nat, nat>, now: nat, period: nat -> nat,
                current: Option<nat>, current': Option<nat>, k: nat, e: Event)
    requires Holds(q, born) && Deltas(q, h, born, now) && InOrder(q, h, born) && Sound(h, period, now)
    requires Pending(h, born)
    requires InCallback(h, period, current, now) && InRange(h, born, now) && FiredFirst(h, born, now)
    requires k < |q| && e.id == q[k].id && e.time == now
    requires (e.Dequeued? && current' == current) ||
      (k == 0 && e.id in born && Due(h, born, e.id) == now && e == Fired(now, e.id, born[e.id]) && current == None &&
        current' == Some(e.id))
    ensures var h', born' := h + [e], born - {e.id};
      && (forall x :: x in born' ==> Due(h', born', x) == Due(h, born, x))
      && Sound(h', period, now) && Pending(h', born') && InCallback(h', period, current', now)
      && InRange(h', born', now) && FiredFirst(h', born', now)
      && Holds(Delete(q, k), born') && Deltas(Delete(q, k), h', born', now) && InOrder(Delete(q, k), h', born')
  {
    hide Deltas, InOrder, Sound, Holds, Delete, Quiet, Due, Pending, FiredFirst, InRange;
    var h', born' := h + [e], born - {e.id};
    ListedAt(q, k);
    HoldsListed(q, born, e.id);
    HoldsDistinct(q, born);
    DropDue(h, born, e);
    AllowLeave(h, period, now, born, current, e);
    AppendSound(h, period, now, e);
    CallbackAppend(h, period, current, current', now, e);
    DeleteDeltas(q, h, born, now, k, h', born');
    DeleteHolds(q, born, k, born');
    DeleteOrder(q, h, born, k, h', born');
    RangeKept(h, born, h', born', e.id, now);
    if e.Fired? {
      FiredFirstNext(q, h, born, now, e);
    } else {
      FiredFirstLater(h, born, h', born', now, e);
    }
  }

  lemma HoldsDistinct(q: Queue, born: map<nat, nat>)
    requires Holds(q, born)
    ensures Distinct(q)
  {
  }

  /** A history that grew by an event on a timeout that is not pending. */
  lemma Carry(q: Queue, h: History, h': History, born: map<nat, nat>, now: nat)
    requires Holds(q, born) && Deltas(q, h, born, now) && InOrder(q, h, born)
    requires forall x :: x in born ==> Due(h', born, x) == Due(h, born, x)
    ensures Deltas(q, h', born, now) && InOrder(q, h', born)
  {
    hide Due;
    forall k: nat ensures DeltaAt(q, h', born, now, k) {
      assert DeltaAt(q, h, born, now, k);
      if 0 < k <= |q| { assert DeltaAt(q, h, born, now, k - 1); }
    }
    forall i, j | 0 <= i < j < |q| ensures Before(h', born, q[i].id, q[j].id) {
      assert Before(h, born, q[i].id, q[j].id);
    }
  }

  lemma AllowStop(h: History, period: nat -> nat, now: nat, born: map<nat, nat>, current: Option<nat>, e: Event)
    requires Pending(h, born) && InCallback(h, period, current, now) && e.Stopped? && e.time == now && e.id !in born
    ensures Allowed(h, period, now, e)
  {
    hide Quiet, Misfit;
    forall j: nat | j < |h| && h[j].id == e.id && Quiet(h, e.id, j)
      ensures !h[j].Enqueued? && (h[j].Fired? && period(e.id) != 0 ==> h[j].time == now)
      ensures !Misfit(h, period, j)
    {
      assert h[j].Fired? && period(e.id) != 0 ==> Running(h, period, j);
      MisfitQueued(h, period, j);
    }
  }

  lemma Stopping(q: Queue, h: History, born: map<nat, nat>, now: nat, period: nat -> nat, current: Option<nat>,
                 e: Event)
    requires Holds(q, born) && Deltas(q, h, born, now) && InOrder(q, h, born) && Sound(h, period, now)
    requires Pending(h, born)
    requires InCallback(h, period, current, now) && InRange(h, born, now) && FiredFirst(h, born, now)
    requires e.Stopped? && e.time == now && e.id !in born && current == Some(e.id)
    ensures var h' := h + [e];
      && (forall x :: x in born ==> Due(h', born, x) == Due(h, born, x))
      && Sound(h', period, now) && Pending(h', born) && InCallback(h', period, None, now)
      && InRange(h', born, now) && FiredFirst(h', born, now)
      && Deltas(q, h', born, now) && InOrder(q, h', born)
  {
    hide Deltas, InOrder, Sound, Holds, Quiet, Due, Pending, FiredFirst;
    var h' := h + [e];
    assert born - {e.id} == born;
    DropDue(h, born, e);
    AllowStop(h, period, now, born, current, e);
    AppendSound(h, period, now, e);
    CallbackAppend(h, period, current, None, now, e);
    Carry(q, h, h', born, now);
    FiredFirstLater(h, born, h', born, now, e);
  }

  // ---- A tick --------------------------------------------------------------------------------------------

  lemma FewerDue(h: History, born: map<nat, nat>, h': History, born': map<nat, nat>, now: nat, id: nat)
    requires id in born && born' == born - {id} && Due(h, born, id) == now
    requires forall x :: x in born' ==> Due(h', born', x) == Due(h, born, x)
    ensures DueNow(h', born', now) < DueNow(h, born, now)
  {
    hide Due;
    assert id in DueNow(h, born, now) && id !in DueNow(h', born', now);
  }

  lemma NoMoreDue(h: History, born: map<nat, nat>, h': History, born': map<nat, nat>, now: nat)
    requires NothingNewDue(h, born, h', born', now)
    ensures DueNow(h', born', now) <= DueNow(h, born, now)
  {
    hide Due;
  }

  /** After its callback the timer has been queued again, was stopped, or has no period. */
  lemma CallbackEnds(h: History, born: map<nat, nat>, period: nat -> nat, id: nat, now: nat)
    requires Pending(h, born) && InCallback(h, period, Some(id), now)
    requires period(id) != 0 ==> id in born && h[|h| - 1] == Enqueued(now, id, period(id)) && born[id] == |h| - 1
    ensures InCallback(h, period, None, now)
  {
    hide Quiet, Misfit;
    forall k: nat | Running(h, period, k) && Quiet(h, h[k].id, k) ensures false {
      MisfitQueued(h, period, k);
      LastIsBorn(h, born, id, k);
    }
  }

  lemma AllLater(q: Queue, h: History, born: map<nat, nat>, now: nat)
    requires Holds(q, born) && Deltas(q, h, born, now) && InOrder(q, h, born) && (q == [] || q[0].remain != 0)
    ensures forall id :: id in born ==> Due(h, born, id) > now
  {
    hide Due;
    assert DeltaAt(q, h, born, now, 0);
    forall id | id in born ensures Due(h, born, id) > now {
      HoldsListed(q, born, id);
      var i :| 0 <= i < |q| && q[i].id == id;
      assert i > 0 ==> Before(h, born, q[0].id, q[i].id);
    }
  }

  lemma StillLater(h: History, born: map<nat, nat>, h': History, born': map<nat, nat>, now: nat)
    requires NothingNewDue(h, born, h', born', now) && forall id :: id in born ==> Due(h, born, id) > now
    ensures forall id :: id in born' ==> Due(h', born', id) > now
  {
  }

  /** The queue after the clock has moved on. */
  ghost function Ticked(q: Queue): Queue
    requires q != [] ==> q[0].remain > 0
  {
    if q == [] then [] else [q[0].(remain := q[0].remain - 1)] + q[1..]
  }

  lemma TickedQueue(q: Queue, h: History, born: map<nat, nat>, now: nat, later: nat)
    requires Holds(q, born) && Deltas(q, h, born, now) && InOrder(q, h, born) && later == now + 1
    requires q != [] ==> q[0].remain > 0
    ensures Holds(Ticked(q), born) && Deltas(Ticked(q), h, born, later) && InOrder(Ticked(q), h, born)
  {
    hide Due;
    var q' := Ticked(q);
    assert |q'| == |q| && forall i :: 0 <= i < |q| ==> q'[i].id == q[i].id;
    assert forall i :: 0 < i < |q| ==> q'[i] == q[i];
    assert q != [] ==> q'[0].remain == q[0].remain - 1;
    hide Ticked;
    forall k: nat ensures DeltaAt(q', h, born, later, k) {
      assert DeltaAt(q, h, born, now, k);
    }
    forall id: nat ensures Listed(q', id) <==> Listed(q, id) {
      if Listed(q, id) { var i :| 0 <= i < |q| && q[i].id == id; assert q'[i].id == id; }
    }
  }

  /** Between ticks the first difference is not zero, so the clock can move on. */
  lemma Ticking(q: Queue, h: History, born: map<nat, nat>, now: nat, period: nat -> nat)
    requires Holds(q, born) && Deltas(q, h, born, now) && InOrder(q, h, born) && Sound(h, period, now)
    requires InCallback(h, period, None, now) && InRange(h, born, now)
    requires forall id :: id in born ==> Due(h, born, id) > now
    ensures q != [] ==> q[0].remain > 0
    ensures Sound(h, period, now + 1) && InCallback(h, period, None, now + 1) && InRange(h, born, now + 1)
    ensures FiredFirst(h, born, now + 1)
    ensures Holds(Ticked(q), born) && Deltas(Ticked(q), h, born, now + 1) && InOrder(Ticked(q), h, born)
  {
    hide Due, Exact, Caused, Rearmed, TiesInOrder, InOrder, Quiet;
    assert DeltaAt(q, h, born, now, 0);
    if q != [] {
      ListedAt(q, 0);
      HoldsListed(q, born, q[0].id);
    }
    TickedQueue(q, h, born, now, now + 1);
  }

  /** A periodic timer that its own callback starts: after the first tick the end of the callback finds it queued. */
  method StartedFromCallback() returns (r: Outcome)
    ensures r == StillQueued(0)
  {
    hide Deltas, InOrder, Sound, Pending, InCallback, InRange, FiredFirst;
    var q := new TimerQueue(_ => 3);
    var ok := q.StartTimer(0, 1);
    FirstDelay(q.queue, q.hist, q.born, q.now);
    var act := (now: nat, id: nat) => [Start(0, 5)];
    assert act(1, 0) == [Start(0, 5)];
    r := q.Process(act);
  }

  lemma FirstDelay(q: Queue, h: History, born: map<nat, nat>, now: nat)
    requires Holds(q, born) && Deltas(q, h, born, now) && born.Keys == {0} && Due(h, born, 0) == now + 1
    ensures q == [Entry(0, 1)]
  {
    assert |q| > 1 ==> q[0].id != q[1].id;
    HoldsListed(q, born, 0);
    var i :| 0 <= i < |q| && q[i].id == 0;
    forall j | 0 <= j < |q| ensures q[j].id == 0 {
      ListedAt(q, j);
      HoldsListed(q, born, q[j].id);
    }
    assert DeltaAt(q, h, born, now, 0);
  }
}
