/** Pools of equal-sized objects: slabs, their free chains and the three lists of slabs. */
module ObjectPool {
  import opened Arith
  import Buddy
  import PageAlloc
  import opened Lists
  import opened SlabGeometry

  /** A slab: the page block, where its objects start, the chain of free tags, and the count of objects in use. */
  datatype Slab = Slab(base: nat, data: nat, free: seq<nat>, used: nat)

  type Slabs = map<nat, Slab>

  ghost predicate SlabOk(g: Geometry, s: Slab)
    requires WellFormed(g)
  {
    && g.block > 0 && Total(g.order) > 0 && s.base % Total(g.order) == 0
    && s.base <= s.data && Colour(g, s.data - s.base)
    && NoDup(s.free) && (forall i :: i in s.free ==> i < g.capacity) && s.used + |s.free| == g.capacity
  }

  ghost predicate BlocksApart(g: Geometry, b: nat, b': nat) {
    b + Total(g.order) <= b' || b' + Total(g.order) <= b
  }

  ghost predicate SlabsOk(g: Geometry, slabs: Slabs)
    requires WellFormed(g)
  {
    && (forall s :: s in slabs ==> SlabOk(g, slabs[s]))
    && (forall s, s' :: s in slabs && s' in slabs && s != s' ==> BlocksApart(g, slabs[s].base, slabs[s'].base))
  }

  /** Each slab is on the list that its count of used objects names. */
  ghost predicate Listed(g: Geometry, slabs: Slabs, empty: seq<nat>, partial: seq<nat>, full: seq<nat>) {
    && NoDup(empty) && NoDup(partial) && NoDup(full)
    && (forall s :: s in empty <==> s in slabs && slabs[s].used == g.capacity)
    && (forall s :: s in partial <==> s in slabs && 0 < slabs[s].used < g.capacity)
    && (forall s :: s in full <==> s in slabs && slabs[s].used == 0)
  }

  /** Page k of the block at base points to slab s. */
  ghost predicate PageAt(pages: map<nat, nat>, base: nat, k: nat, s: nat) {
    base + k * PAGE_SIZE in pages && pages[base + k * PAGE_SIZE] == s
  }

  /** Every page of a slab's block points to the slab. */
  ghost predicate Marked(g: Geometry, slabs: Slabs, pages: map<nat, nat>) {
    forall s, k: nat :: s in slabs && k < Pow2(g.order) ==> PageAt(pages, slabs[s].base, k, s)
  }

  /** Object i of slab s lies at address a and is in use. */
  ghost predicate LiveAt(g: Geometry, slabs: Slabs, s: nat, i: nat, a: nat) {
    s in slabs && i < g.capacity && i !in slabs[s].free && a == ObjectAt(g, slabs[s].data, i)
  }

  ghost predicate Live(g: Geometry, slabs: Slabs, a: nat) {
    exists s, i :: LiveAt(g, slabs, s, i, a)
  }

  // ---- What the invariant says about objects -----------------------------------------------------------

  lemma ObjectOf(g: Geometry, slabs: Slabs, s: nat, i: nat)
    requires WellFormed(g) && SlabsOk(g, slabs) && s in slabs && i < g.capacity
    ensures var a := ObjectAt(g, slabs[s].data, i);
      && slabs[s].data <= a && a + g.block <= End(g, slabs[s].base) <= slabs[s].base + Total(g.order)
      && a % g.align == 0 && RoundDown(a, Total(g.order)) == slabs[s].base
      && g.block > 0 && (a - slabs[s].data) / g.block == i
  {
    var x := slabs[s];
    assert SlabOk(g, x);
    var c := x.data - x.base;
    ObjectInside(g, x.base, c, i);
    ObjectAligned(g, x.base, c, i);
    hide ObjectAt, End, WellFormed, RoundDown;
    BlockFound(g, x.base, ObjectAt(g, x.data, i));
    TagFound(g, x.data, i);
  }

  lemma SomeRoom(g: Geometry)
    requires WellFormed(g)
    ensures g.align > 0 && g.capacity >= 1
  {
    hide Total, Stride;
  }

  /** An address is an object of at most one slab, at one index. */
  lemma ObjectUnique(g: Geometry, slabs: Slabs, s: nat, i: nat, s': nat, i': nat)
    requires WellFormed(g) && SlabsOk(g, slabs) && s in slabs && s' in slabs && i < g.capacity && i' < g.capacity
    requires ObjectAt(g, slabs[s].data, i) == ObjectAt(g, slabs[s'].data, i')
    ensures s == s' && i == i'
  {
    ObjectOf(g, slabs, s, i);
    ObjectOf(g, slabs, s', i');
    SomeRoom(g);
    hide ObjectAt, End, WellFormed, RoundDown, SlabOk, Total;
    assert s != s' ==> BlocksApart(g, slabs[s].base, slabs[s'].base);
    TotalPositive(g.order);
  }

  lemma TotalPositive(order: nat)
    ensures Total(order) > 0
  {
    TotalMin(order);
  }

  /** Objects in use are aligned, inside their block, clear of the descriptor, and do not overlap each other. */
  lemma LiveObjects(g: Geometry, slabs: Slabs, a: nat, b: nat)
    requires WellFormed(g) && SlabsOk(g, slabs) && Live(g, slabs, a) && Live(g, slabs, b)
    ensures a % g.align == 0
    ensures exists s ::
      s in slabs && slabs[s].base <= a && a + g.size <= End(g, slabs[s].base) <= slabs[s].base + Total(g.order)
    ensures a < b ==> a + g.size <= b
  {
    var s, i :| LiveAt(g, slabs, s, i, a);
    var s', i' :| LiveAt(g, slabs, s', i', b);
    ObjectOf(g, slabs, s, i);
    ObjectOf(g, slabs, s', i');
    assert SlabOk(g, slabs[s]) && g.size <= g.block;
    if a < b {
      if s == s' {
        ObjectOrder(g, slabs[s].data, i, i');
      } else {
        assert BlocksApart(g, slabs[s].base, slabs[s'].base) && SlabOk(g, slabs[s']);
      }
    }
  }

  lemma ObjectOrder(g: Geometry, data: nat, i: nat, j: nat)
    requires ObjectAt(g, data, i) < ObjectAt(g, data, j)
    ensures ObjectAt(g, data, i) + g.block <= ObjectAt(g, data, j)
  {
    if i < j {
      ObjectsApart(g, data, i, j);
    } else if j < i {
      ObjectsApart(g, data, j, i);
    }
  }

  // ---- One object taken or given back -------------------------------------------------------------------

  /** The chain of slab s changed and nothing else. */
  ghost predicate Changed(slabs: Slabs, slabs': Slabs, s: nat, free: seq<nat>) {
    && s in slabs && |free| <= slabs[s].used + |slabs[s].free|
    && slabs' == slabs[s := slabs[s].(free := free, used := slabs[s].used + |slabs[s].free| - |free|)]
  }

  /** The chain's new contents are tags of the slab. */
  lemma ChangedOk(g: Geometry, slabs: Slabs, slabs': Slabs, s: nat, free: seq<nat>)
    requires WellFormed(g) && SlabsOk(g, slabs) && Changed(slabs, slabs', s, free)
    requires NoDup(free) && forall i :: i in free ==> i < g.capacity
    ensures SlabsOk(g, slabs')
  {
    hide WellFormed, NoDup, Colour;
    assert SlabOk(g, slabs[s]);
    assert SlabOk(g, slabs'[s]);
    hide SlabOk, BlocksApart;
  }

  lemma OneFewer(g: Geometry, slabs: Slabs, slabs': Slabs, s: nat, a: nat, x: nat)
    requires s in slabs && slabs[s].free != [] && NoDup(slabs[s].free) && slabs[s].free[0] < g.capacity
    requires Changed(slabs, slabs', s, slabs[s].free[1..]) && a == ObjectAt(g, slabs[s].data, slabs[s].free[0])
    ensures Live(g, slabs', x) <==> Live(g, slabs, x) || x == a
  {
    hide ObjectAt;
    var f := slabs[s].free;
    var i := f[0];
    assert f == [i] + f[1..];
    if Live(g, slabs, x) {
      var t, j :| LiveAt(g, slabs, t, j, x);
      assert LiveAt(g, slabs', t, j, x);
    }
    if Live(g, slabs', x) {
      var t, j :| LiveAt(g, slabs', t, j, x);
      assert (t == s && j == i) || LiveAt(g, slabs, t, j, x);
    }
    assert LiveAt(g, slabs', s, i, a);
  }

  lemma TakenLive(g: Geometry, slabs: Slabs, slabs': Slabs, s: nat, a: nat)
    requires WellFormed(g) && SlabsOk(g, slabs) && s in slabs && slabs[s].free != []
    requires Changed(slabs, slabs', s, slabs[s].free[1..]) && a == ObjectAt(g, slabs[s].data, slabs[s].free[0])
    ensures SlabsOk(g, slabs') && !Live(g, slabs, a)
    ensures forall x :: Live(g, slabs', x) <==> Live(g, slabs, x) || x == a
  {
    hide ObjectAt, WellFormed, Live, Colour, BlocksApart;
    var f := slabs[s].free;
    assert SlabOk(g, slabs[s]) && f[0] in f;
    forall i | i in f[1..] ensures i < g.capacity { assert i in f; }
    ChangedOk(g, slabs, slabs', s, f[1..]);
    hide SlabsOk, SlabOk;
    forall x: nat ensures Live(g, slabs', x) <==> Live(g, slabs, x) || x == a { OneFewer(g, slabs, slabs', s, a, x); }
    FreeNotLive(g, slabs, s, f[0], a);
  }

  lemma FreeNotLive(g: Geometry, slabs: Slabs, s: nat, i: nat, a: nat)
    requires WellFormed(g) && SlabsOk(g, slabs) && s in slabs && i < g.capacity && i in slabs[s].free
    requires a == ObjectAt(g, slabs[s].data, i)
    ensures !Live(g, slabs, a)
  {
    hide ObjectAt, WellFormed, SlabsOk;
    if Live(g, slabs, a) {
      var t, j :| LiveAt(g, slabs, t, j, a);
      ObjectUnique(g, slabs, s, i, t, j);
      assert false;
    }
  }

  lemma OneMore(g: Geometry, slabs: Slabs, slabs': Slabs, s: nat, i: nat, a: nat, x: nat)
    requires WellFormed(g) && SlabsOk(g, slabs) && LiveAt(g, slabs, s, i, a)
    requires Changed(slabs, slabs', s, [i] + slabs[s].free)
    ensures Live(g, slabs', x) <==> Live(g, slabs, x) && x != a
  {
    hide ObjectAt, WellFormed, SlabsOk;
    if Live(g, slabs, x) && x != a {
      var t, j :| LiveAt(g, slabs, t, j, x);
      assert LiveAt(g, slabs', t, j, x);
    }
    if Live(g, slabs', x) {
      var t, j :| LiveAt(g, slabs', t, j, x);
      assert LiveAt(g, slabs, t, j, x);
      if x == a { ObjectUnique(g, slabs, s, i, t, j); }
    }
  }

  lemma GivenLive(g: Geometry, slabs: Slabs, slabs': Slabs, s: nat, i: nat, a: nat)
    requires WellFormed(g) && SlabsOk(g, slabs) && LiveAt(g, slabs, s, i, a)
    requires Changed(slabs, slabs', s, [i] + slabs[s].free)
    ensures SlabsOk(g, slabs')
    ensures forall x :: Live(g, slabs', x) <==> Live(g, slabs, x) && x != a
  {
    assert SlabOk(g, slabs[s]);
    ChangedOk(g, slabs, slabs', s, [i] + slabs[s].free);
    hide ObjectAt, WellFormed, SlabsOk, LiveAt;
    forall x ensures Live(g, slabs', x) <==> Live(g, slabs, x) && x != a { OneMore(g, slabs, slabs', s, i, a, x); }
  }

  /** A slab with an object in use is not counted as unused. */
  lemma {:induction false} Pigeonhole(n: nat, free: seq<nat>, i: nat)
    requires NoDup(free) && (forall j :: j in free ==> j < n) && i < n && i !in free
    ensures |free| < n
    decreases n
  {
    var last := n - 1;
    if last in free {
      var rest := Remove(free, last);
      RemoveNoDup(free, last);
      RemoveLength(free, last);
      if i != last { Pigeonhole(last, rest, i); }
    } else if i == last {
      Bounded(last, free);
    } else {
      Pigeonhole(last, free, i);
    }
  }

  lemma {:induction false} Bounded(n: nat, free: seq<nat>)
    requires NoDup(free) && forall j :: j in free ==> j < n
    ensures |free| <= n
    decreases n
  {
    assert free != [] ==> free[0] in free;
    if n == 0 {
      assert free == [];
    } else if n - 1 in free {
      RemoveNoDup(free, n - 1);
      RemoveLength(free, n - 1);
      Bounded(n - 1, Remove(free, n - 1));
    } else {
      Bounded(n - 1, free);
    }
  }

  // ---- The lists of slabs ------------------------------------------------------------------------------------

  /** A slab that gets its first free object back, or its last, moves to the front of the list it belongs to. */
  ghost predicate GivenLists(g: Geometry, used: nat, s: nat, empty: seq<nat>, partial: seq<nat>, full: seq<nat>,
                             empty': seq<nat>, partial': seq<nat>, full': seq<nat>)
  {
    if used == 0 then empty' == Remove(empty, s) && partial' == Remove(partial, s) && full' == [s] + full
    else if used == g.capacity - 1 then empty' == Remove(empty, s) && partial' == [s] + partial && full' == full
    else empty' == empty && partial' == partial && full' == full
  }

  /** The three lists after slab s changed its count. */
  lemma Relisted(g: Geometry, slabs: Slabs, slabs': Slabs, s: nat, empty: seq<nat>, partial: seq<nat>, full: seq<nat>,
                 empty': seq<nat>, partial': seq<nat>, full': seq<nat>)
    requires Listed(g, slabs, empty, partial, full) && slabs'.Keys == slabs.Keys + {s}
    requires forall t :: t in slabs && t != s ==> slabs'[t].used == slabs[t].used
    requires NoDup(empty') && NoDup(partial') && NoDup(full')
    requires forall t :: t != s ==>
      (t in empty' <==> t in empty) && (t in partial' <==> t in partial) && (t in full' <==> t in full)
    requires s in empty' <==> slabs'[s].used == g.capacity
    requires s in partial' <==> 0 < slabs'[s].used < g.capacity
    requires s in full' <==> slabs'[s].used == 0
    ensures Listed(g, slabs', empty', partial', full')
  {
    hide NoDup;
  }

  datatype Got = Object(address: nat) | NoMemory | DividesByZero

  /** A pool of empty objects has no slab. */
  lemma NoSlabs(g: Geometry, slabs: Slabs)
    requires WellFormed(g) && SlabsOk(g, slabs) && g.block == 0
    ensures slabs == map[] && forall pages :: Marked(g, slabs, pages)
  {
    assert forall s :: s in slabs ==> !SlabOk(g, slabs[s]);
  }

  lemma SomeSlab(g: Geometry, slabs: Slabs, empty: seq<nat>, partial: seq<nat>, full: seq<nat>)
    requires WellFormed(g) && SlabsOk(g, slabs) && Listed(g, slabs, empty, partial, full)
    requires partial != [] || full != []
    ensures g.block > 0
  {
    var s := if partial != [] then partial[0] else full[0];
    assert s in partial || s in full;
    assert SlabOk(g, slabs[s]);
  }

  class Pool {
    const g: Geometry
    var slabs: Slabs
    var pages: map<nat, nat>
    var empty: seq<nat>
    var partial: seq<nat>
    var full: seq<nat>
    var colour: nat

    ghost predicate Valid()
      reads this
    {
      && WellFormed(g) && g.align > 0 && Colour(g, colour) && SlabsOk(g, slabs)
      && Listed(g, slabs, empty, partial, full) && Marked(g, slabs, pages)
    }

    constructor (g: Geometry)
      requires WellFormed(g)
      ensures Valid() && this.g == g && slabs == map[]
    {
      this.g := g;
      slabs, pages, empty, partial, full, colour := map[], map[], [], [], [], 0;
      new;
      SomeRoom(g);
      ModUnique(0, g.align, 0, 0);
    }

    /** Take the first free object of a slab that has one; an unused slab moves to the partly used ones first. */
    method SlabGet(s: nat) returns (a: nat)
      requires Valid() && s in slabs && slabs[s].used < g.capacity
      modifies this`slabs, this`empty, this`partial, this`full
      ensures Valid() && !Live(g, old(slabs), a)
      ensures forall x :: Live(g, slabs, x) <==> Live(g, old(slabs), x) || x == a
      ensures s in slabs && slabs == old(slabs)[s := slabs[s]]
      ensures slabs[s].base == old(slabs)[s].base && slabs[s].used == old(slabs)[s].used + 1
      ensures old(slabs)[s].free != [] && slabs[s].free == old(slabs)[s].free[1..]
      ensures a == ObjectAt(g, slabs[s].data, old(slabs)[s].free[0])
      ensures slabs[s].data == old(slabs)[s].data
      ensures full == if old(slabs)[s].used == 0 then Remove(old(full), s) else old(full)
      ensures var part := if old(slabs)[s].used == 0 then old(partial) + [s] else old(partial);
        partial == if slabs[s].used == g.capacity then Remove(part, s) else part
      ensures empty == if slabs[s].used == g.capacity then old(empty) + [s] else old(empty)
    {
      hide WellFormed, ObjectAt, Live, Colour, NoDup, Marked, SlabsOk, Listed, Remove;
      var x := slabs[s];
      HasFree(g, slabs, s);
      a := ObjectAt(g, x.data, x.free[0]);
      slabs := slabs[s := x.(free := x.free[1..], used := x.used + 1)];
      TakenLive(g, old(slabs), slabs, s, a);
      MarkedSame(g, old(slabs), slabs, pages, s);
      if x.used == 0 {
        full := Remove(full, s);
        partial := partial + [s];
      }
      if x.used + 1 == g.capacity {
        partial := Remove(partial, s);
        empty := empty + [s];
      }
      TakenLists(g, old(slabs), slabs, s, old(empty), old(partial), old(full), empty, partial, full);
    }

    /** Divide a fresh page block into objects, all free.  The index of the first divides by the block size. */
    method CreateSlab(s: nat, base: nat) returns (ok: bool)
      requires Valid() && s !in slabs && Total(g.order) > 0 && base % Total(g.order) == 0
      requires forall t :: t in slabs ==> BlocksApart(g, base, slabs[t].base)
      modifies this`slabs, this`pages, this`full, this`colour
      ensures Valid() && (ok <==> g.block > 0)
      ensures ok ==> s in slabs && slabs == old(slabs)[s := slabs[s]] && full == old(full) + [s]
      ensures ok ==> slabs[s].base == base && slabs[s].data == base + old(colour) && slabs[s].used == 0
      ensures ok ==> |slabs[s].free| == g.capacity && forall i :: 0 <= i < g.capacity ==>
        slabs[s].free[i] == g.capacity - 1 - i
      ensures !ok ==> slabs == old(slabs) == map[] && full == old(full)
      ensures colour == NextColour(g, old(colour))
      ensures forall x :: Live(g, slabs, x) <==> Live(g, old(slabs), x)
    {
      hide WellFormed, ObjectAt, Live, Colour, NoDup, Marked, Total, SlabsOk, BlocksApart, End, Listed;
      SomeRoom(g);
      MarkPages(s, base);
      var data, c := base + colour, colour;
      NextColourOk(g, colour);
      colour := NextColour(g, colour);
      ok := g.block > 0;
      if !ok {
        NoSlabs(g, slabs);
        return;
      }
      var free, p, i := [], data, 0;
      RoomFor(g, base, c);
      NextObject(g, data, 0);
      ghost var pages1 := pages;
      while i < g.capacity
        invariant slabs == old(slabs) && pages == pages1 && full == old(full)
        invariant Colour(g, colour) && colour == NextColour(g, old(colour))
        invariant 0 <= i <= g.capacity && p == ObjectAt(g, data, i) && free == Countdown(i)
      {
        TagFound(g, data, i);
        free := [(p - data) / g.block] + free;
        ObjectInside(g, base, c, i);
        NextObject(g, data, i);
        p := p + g.block;
        assert p <= End(g, base);
        i := i + 1;
      }
      CountdownAll(g.capacity);
      slabs := slabs[s := Slab(base, data, free, 0)];
      full := full + [s];
      Created(g, old(slabs), slabs, s, old(pages), pages, old(empty), old(partial), old(full));
    }

    /** Make every page of a block point to its slab. */
    method MarkPages(s: nat, base: nat)
      modifies this`pages
      ensures forall k: nat :: k < Pow2(g.order) ==> PageAt(pages, base, k, s)
      ensures forall a :: a in old(pages) && !(base <= a < base + Total(g.order)) ==>
        a in pages && pages[a] == old(pages)[a]
    {
      var k := 0;
      while k < Pow2(g.order)
        invariant 0 <= k <= Pow2(g.order)
        invariant forall j: nat :: j < k ==> PageAt(pages, base, j, s)
        invariant forall a :: a in old(pages) && !(base <= a < base + Total(g.order)) ==>
          a in pages && pages[a] == old(pages)[a]
      {
        MarkOne(pages, base, k, s);
        PageInside(g, base, k);
        pages := pages[base + k * PAGE_SIZE := s];
        k := k + 1;
      }
    }

    /** A slab with a free object: partly used ones first, then unused ones, then a new one. */
    method Choose(desc: nat, base: nat) returns (s: nat)
      requires Valid() && g.block > 0
      requires partial == [] && full == [] ==>
        desc !in slabs && Total(g.order) > 0 && base % Total(g.order) == 0 && forall t :: t in slabs ==>
          BlocksApart(g, base, slabs[t].base)
      modifies this`slabs, this`pages, this`full, this`colour
      ensures Valid() && s in slabs && slabs[s].used < g.capacity
      ensures s == if old(partial) != [] then old(partial)[0] else if old(full) != [] then old(full)[0] else desc
      ensures slabs.Keys == old(slabs).Keys + if old(partial) == [] && old(full) == [] then {desc} else {}
      ensures SameBases(old(slabs), slabs, base)
      ensures forall x :: Live(g, slabs, x) <==> Live(g, old(slabs), x)
    {
      hide WellFormed, ObjectAt, Live, Colour, Marked, SlabsOk, BlocksApart, Total;
      SomeRoom(g);
      if partial != [] {
        s := partial[0];
        assert s in partial;
      } else if full != [] {
        s := full[0];
        assert s in full;
      } else {
        s := desc;
        var _ := CreateSlab(desc, base);
      }
    }

    /** Allocate an object; a new slab, should one be needed, gets descriptor `desc` and the page block at `base`. */
    method GetAt(desc: nat, base: nat) returns (a: nat)
      requires Valid() && g.block > 0
      requires partial == [] && full == [] ==>
        desc !in slabs && Total(g.order) > 0 && base % Total(g.order) == 0 && forall t :: t in slabs ==>
          BlocksApart(g, base, slabs[t].base)
      modifies this
      ensures Valid() && !Live(g, old(slabs), a)
      ensures forall x :: Live(g, slabs, x) <==> Live(g, old(slabs), x) || x == a
      ensures slabs.Keys == old(slabs).Keys + if old(partial) == [] && old(full) == [] then {desc} else {}
      ensures var s := if old(partial) != [] then old(partial)[0] else if old(full) != [] then old(full)[0] else desc;
        s in slabs && slabs[s].used > 0 && exists i: nat :: LiveAt(g, slabs, s, i, a)
      ensures SameBases(old(slabs), slabs, base)
    {
      hide WellFormed, ObjectAt, Live, Colour, Marked, SlabsOk, BlocksApart, Total, Listed;
      var s := Choose(desc, base);
      ghost var i := FirstFree(g, slabs, s);
      a := SlabGet(s);
      assert LiveAt(g, slabs, s, i, a);
    }

    /**
     * Allocate an object.  When no slab has a free one, a new slab takes its page block from the
     * page allocator; it fails, where the source panics, exactly when that has no run of free pages.
     * A pool of empty objects never has a slab: making the first one divides by zero.
     */
    method Get(pa: PageAlloc.PageAllocator, desc: nat) returns (r: Got)
      requires Valid() && pa.Valid() && desc !in slabs && Funded(g, slabs, pa.bitmap)
      modifies this, pa
      ensures Valid() && pa.Valid() && Funded(g, slabs, pa.bitmap)
      ensures r.NoMemory? <==> old(partial) == [] && old(full) == [] && !Buddy.HasFreeRun(old(pa.bitmap), g.order)
      ensures r.DividesByZero? <==> g.block == 0 && Buddy.HasFreeRun(old(pa.bitmap), g.order)
      ensures !r.Object? ==> slabs == old(slabs)
      ensures r.NoMemory? ==> pa.bitmap == old(pa.bitmap)
      ensures old(partial) != [] || old(full) != [] ==> pa.bitmap == old(pa.bitmap)
      ensures r.Object? ==>
        && !Live(g, old(slabs), r.address)
        && (forall x :: Live(g, slabs, x) <==> Live(g, old(slabs), x) || x == r.address)
        && slabs.Keys == old(slabs).Keys + (if old(partial) == [] && old(full) == [] then {desc} else {})
      ensures r.Object? ==>
        var s := if old(partial) != [] then old(partial)[0] else if old(full) != [] then old(full)[0] else desc;
        s in slabs && slabs[s].used > 0 && exists i: nat :: LiveAt(g, slabs, s, i, r.address)
    {
      hide WellFormed, ObjectAt, Live, Colour, Marked, SlabsOk, BlocksApart, Total, Listed, LiveAt, Funded, SameBases,
        Buddy.AllFree, Buddy.Loses, Buddy.NoneFree, Buddy.HasFreeRun, Buddy.Canonical, Buddy.Shape;
      if partial != [] || full != [] {
        SomeSlab(g, slabs, empty, partial, full);
        var a := GetAt(desc, 0);
        BasesFunded(g, old(slabs), slabs, pa.bitmap, 0);
        return Object(a);
      }
      OrderBound(g);
      var page := pa.AllocBlock(g.order);
      if page.None? {
        return NoMemory;
      }
      FreshBlock(g, slabs, old(pa.bitmap), pa.bitmap, page.value);
      if g.block == 0 {
        NoSlabs(g, slabs);
        var _ := CreateSlab(desc, page.value * PAGE_SIZE);
        return Got.DividesByZero;
      }
      var a := GetAt(desc, page.value * PAGE_SIZE);
      BasesFunded(g, old(slabs), slabs, pa.bitmap, page.value * PAGE_SIZE);
      return Object(a);
    }

    /** Return an object in use to the slab that rounding its address down finds. */
    method Put(a: nat)
      requires Valid() && Live(g, slabs, a)
      modifies this`slabs, this`empty, this`partial, this`full
      ensures Valid() && (forall x :: Live(g, slabs, x) <==> Live(g, old(slabs), x) && x != a)
      ensures exists s, i: nat ::
        && LiveAt(g, old(slabs), s, i, a) && Changed(old(slabs), slabs, s, [i] + old(slabs)[s].free)
        && GivenLists(g, slabs[s].used, s, old(empty), old(partial), old(full), empty, partial, full)
      ensures slabs.Keys == old(slabs).Keys
      ensures SameBases(old(slabs), slabs, 0)
    {
      hide WellFormed, ObjectAt, Colour, NoDup, Marked, Live, SlabsOk, Total;
      SomeRoom(g);
      TotalPositive(g.order);
      ghost var s0, i0 := Owner(g, slabs, pages, a);
      var s := pages[RoundDown(a, Total(g.order))];
      var x := slabs[s];
      var i := (a - x.data) / g.block;
      InUse(g, slabs, s0, i0, a);
      slabs := slabs[s := x.(free := [i] + x.free, used := x.used - 1)];
      GivenLive(g, old(slabs), slabs, s, i, a);
      MarkedSame(g, old(slabs), slabs, pages, s);
      if x.used - 1 == 0 {
        OnlyOn(g, old(slabs), empty, partial, full, s);
        MoveTo(partial, full, s);
        MoveTo(empty, full, s);
        full := [s] + full;
        partial := Remove(partial, s);
        empty := Remove(empty, s);
      } else if x.used - 1 == g.capacity - 1 {
        OnlyOn(g, old(slabs), empty, partial, full, s);
        MoveTo(empty, partial, s);
        partial := [s] + partial;
        empty := Remove(empty, s);
      }
      Relisted(g, old(slabs), slabs, s, old(empty), old(partial), old(full), empty, partial, full);
      assert LiveAt(g, old(slabs), s, i, a) && Changed(old(slabs), slabs, s, [i] + old(slabs)[s].free);
    }
  }

  /** A pool of objects of size zero is made, and the first of them asked for. */
  method FirstEmptyObject(pa: PageAlloc.PageAllocator) returns (r: Got)
    requires pa.Valid()
    modifies pa
    ensures r == if Buddy.HasFreeRun(old(pa.bitmap), 0) then Got.DividesByZero else NoMemory
  {
    hide WellFormed, Buddy.HasFreeRun;
    var g := PlanEmpty();
    var pool := new Pool(g);
    r := pool.Get(pa, 0);
  }

  function Countdown(n: nat): seq<nat> {
    if n == 0 then [] else [n - 1] + Countdown(n - 1)
  }

  lemma {:induction false} CountdownAll(n: nat)
    ensures |Countdown(n)| == n && NoDup(Countdown(n)) && forall i: nat :: i in Countdown(n) <==> i < n
    ensures forall i :: 0 <= i < n ==> Countdown(n)[i] == n - 1 - i
  {
    if n > 0 {
      CountdownAll(n - 1);
      var c := Countdown(n - 1);
      assert Countdown(n) == [n - 1] + c && n - 1 !in c;
    }
  }

  lemma NextObject(g: Geometry, data: nat, i: nat)
    ensures ObjectAt(g, data, i + 1) == ObjectAt(g, data, i) + g.block && ObjectAt(g, data, 0) == data
  {
    MulNext(i, g.block);
  }

  lemma FirstFree(g: Geometry, slabs: Slabs, s: nat) returns (i: nat)
    requires WellFormed(g) && SlabsOk(g, slabs) && s in slabs && slabs[s].used < g.capacity
    ensures slabs[s].free != [] && i == slabs[s].free[0] < g.capacity && i !in slabs[s].free[1..]
  {
    HasFree(g, slabs, s);
    hide WellFormed, Colour;
    assert SlabOk(g, slabs[s]);
    i := slabs[s].free[0];
    assert i in slabs[s].free;
  }

  lemma HasFree(g: Geometry, slabs: Slabs, s: nat)
    requires WellFormed(g) && SlabsOk(g, slabs) && s in slabs && slabs[s].used < g.capacity
    ensures slabs[s].free != []
  {
    hide WellFormed, Colour;
    assert SlabOk(g, slabs[s]);
  }

  lemma TakenLists(g: Geometry, slabs: Slabs, slabs': Slabs, s: nat, empty: seq<nat>, partial: seq<nat>, full: seq<nat>,
                   empty': seq<nat>, partial': seq<nat>, full': seq<nat>)
    requires Listed(g, slabs, empty, partial, full) && s in slabs && slabs[s].used < g.capacity
    requires s in slabs' && slabs' == slabs[s := slabs'[s]] && slabs'[s].used == slabs[s].used + 1
    requires full' == if slabs[s].used == 0 then Remove(full, s) else full
    requires var partial1 := if slabs[s].used == 0 then partial + [s] else partial;
      partial' == if slabs[s].used + 1 == g.capacity then Remove(partial1, s) else partial1
    requires empty' == if slabs[s].used + 1 == g.capacity then empty + [s] else empty
    ensures Listed(g, slabs', empty', partial', full')
  {
    hide Remove;
    var partial1 := if slabs[s].used == 0 then partial + [s] else partial;
    assert s !in empty && (slabs[s].used == 0 ==> s !in partial);
    RemoveNoDup(full, s);
    RemoveNoDup(partial1, s);
    Relisted(g, slabs, slabs', s, empty, partial, full, empty', partial', full');
  }

  lemma MoveTo(l: seq<nat>, l': seq<nat>, s: nat)
    requires NoDup(l) && NoDup(l') && s !in l'
    ensures NoDup(Remove(l, s)) && s !in Remove(l, s) && NoDup(l' + [s]) && NoDup([s] + l')
  {
    RemoveNoDup(l, s);
  }

  lemma MarkedSame(g: Geometry, slabs: Slabs, slabs': Slabs, pages: map<nat, nat>, s: nat)
    requires Marked(g, slabs, pages) && s in slabs && s in slabs' && slabs' == slabs[s := slabs'[s]]
    requires slabs'[s].base == slabs[s].base
    ensures Marked(g, slabs', pages)
  {
    hide PageAt;
  }

  // ---- A new slab ------------------------------------------------------------------------------------------

  lemma PageInside(g: Geometry, base: nat, k: nat)
    requires k < Pow2(g.order)
    ensures base <= base + k * PAGE_SIZE < base + Total(g.order)
  {
    MulMono(k + 1, Pow2(g.order), PAGE_SIZE);
    MulNext(k, PAGE_SIZE);
  }

  lemma MarkOne(pages: map<nat, nat>, base: nat, k: nat, s: nat)
    ensures var pages' := pages[base + k * PAGE_SIZE := s];
      PageAt(pages', base, k, s) && forall j: nat :: PageAt(pages, base, j, s) ==> PageAt(pages', base, j, s)
  {
  }

  lemma CreatedMarks(g: Geometry, slabs: Slabs, slabs': Slabs, s: nat, pages: map<nat, nat>, pages': map<nat, nat>)
    requires Marked(g, slabs, pages) && s !in slabs && s in slabs' && slabs' == slabs[s := slabs'[s]]
    requires forall t :: t in slabs ==> BlocksApart(g, slabs'[s].base, slabs[t].base)
    requires forall k: nat :: k < Pow2(g.order) ==> PageAt(pages', slabs'[s].base, k, s)
    requires forall a :: a in pages && !(slabs'[s].base <= a < slabs'[s].base + Total(g.order)) ==>
      a in pages' && pages'[a] == pages[a]
    ensures Marked(g, slabs', pages')
  {
    hide Total, Pow2;
    forall t, k: nat | t in slabs' && k < Pow2(g.order) ensures PageAt(pages', slabs'[t].base, k, t) {
      if t != s {
        PageInside(g, slabs[t].base, k);
        assert PageAt(pages, slabs[t].base, k, t);
      }
    }
  }

  lemma Created(g: Geometry, slabs: Slabs, slabs': Slabs, s: nat, pages: map<nat, nat>, pages': map<nat, nat>,
                empty: seq<nat>, partial: seq<nat>, full: seq<nat>)
    requires WellFormed(g) && SlabsOk(g, slabs) && Listed(g, slabs, empty, partial, full) && Marked(g, slabs, pages)
    requires s !in slabs && s in slabs' && slabs' == slabs[s := slabs'[s]]
    requires SlabOk(g, slabs'[s]) && slabs'[s].used == 0 && forall i: nat :: i < g.capacity ==> i in slabs'[s].free
    requires forall t :: t in slabs ==> BlocksApart(g, slabs'[s].base, slabs[t].base)
    requires forall k: nat :: k < Pow2(g.order) ==> PageAt(pages', slabs'[s].base, k, s)
    requires forall a :: a in pages && !(slabs'[s].base <= a < slabs'[s].base + Total(g.order)) ==>
      a in pages' && pages'[a] == pages[a]
    ensures SlabsOk(g, slabs') && Listed(g, slabs', empty, partial, full + [s]) && Marked(g, slabs', pages')
    ensures forall x :: Live(g, slabs', x) <==> Live(g, slabs, x)
  {
    SomeRoom(g);
    hide WellFormed, SlabOk, ObjectAt, Total, PageAt;
    CreatedMarks(g, slabs, slabs', s, pages, pages');
    hide Marked;
    assert SlabsOk(g, slabs');
    hide SlabsOk;
    Relisted(g, slabs, slabs', s, empty, partial, full, empty, partial, full + [s]);
    hide Listed;
    forall x: nat ensures Live(g, slabs', x) <==> Live(g, slabs, x) {
      if Live(g, slabs, x) {
        var t, j :| LiveAt(g, slabs, t, j, x);
        assert LiveAt(g, slabs', t, j, x);
      }
      if Live(g, slabs', x) {
        var t, j :| LiveAt(g, slabs', t, j, x);
        assert LiveAt(g, slabs, t, j, x);
      }
    }
  }

  // ---- Finding the slab of an object ---------------------------------------------------------------------------

  /** Rounding the address of an object in use down to the block size leads to the slab that owns it. */
  lemma Owner(g: Geometry, slabs: Slabs, pages: map<nat, nat>, a: nat) returns (s: nat, i: nat)
    requires WellFormed(g) && SlabsOk(g, slabs) && Marked(g, slabs, pages) && Live(g, slabs, a) && Total(g.order) > 0
    ensures LiveAt(g, slabs, s, i, a) && RoundDown(a, Total(g.order)) in pages
    ensures pages[RoundDown(a, Total(g.order))] == s
    ensures slabs[s].data <= a && g.block > 0 && (a - slabs[s].data) / g.block == i
  {
    s, i :| LiveAt(g, slabs, s, i, a);
    ObjectOf(g, slabs, s, i);
    SomeRoom(g);
    assert PageAt(pages, slabs[s].base, 0, s);
  }

  lemma InUse(g: Geometry, slabs: Slabs, s: nat, i: nat, a: nat)
    requires WellFormed(g) && SlabsOk(g, slabs) && LiveAt(g, slabs, s, i, a)
    ensures 0 < slabs[s].used <= g.capacity
  {
    hide WellFormed, ObjectAt;
    assert SlabOk(g, slabs[s]);
    Pigeonhole(g.capacity, slabs[s].free, i);
  }

  lemma OnlyOn(g: Geometry, slabs: Slabs, empty: seq<nat>, partial: seq<nat>, full: seq<nat>, s: nat)
    requires Listed(g, slabs, empty, partial, full) && s in slabs && slabs[s].used > 0
    ensures NoDup(empty) && NoDup(partial) && NoDup(full) && s !in full
    ensures slabs[s].used == g.capacity ==> s !in partial
  {
  }

  /** Blocks of the page allocator meet what a new slab asks of its block: they are aligned to their size and apart. */
  lemma BuddyBlocks(g: Geometry, i: nat, j: nat)
    ensures Total(g.order) > 0
    ensures (Buddy.FirstPage(g.order, i) * PAGE_SIZE) % Total(g.order) == 0
    ensures i != j ==> BlocksApart(g, Buddy.FirstPage(g.order, i) * PAGE_SIZE, Buddy.FirstPage(g.order, j) * PAGE_SIZE)
  {
    TotalPositive(g.order);
    BlockAddress(g, i);
    BlockAddress(g, j);
    var t := Total(g.order);
    hide Total;
    ModUnique(i * t, t, i, 0);
    MulNext(i, t);
    MulNext(j, t);
    if i < j { MulMono(i + 1, j, t); }
    if j < i { MulMono(j + 1, i, t); }
  }

  lemma BlockAddress(g: Geometry, i: nat)
    ensures Buddy.FirstPage(g.order, i) * PAGE_SIZE == i * Total(g.order)
  {
    assert (i * Pow2(g.order)) * PAGE_SIZE == i * (PAGE_SIZE * Pow2(g.order));
  }

  // ---- Page blocks of the allocator ------------------------------------------------------------------------

  /** The address is that of a block of the allocator none of whose pages is free. */
  ghost predicate TakenBlock(g: Geometry, f: Buddy.FreeMap, base: nat) {
    exists i: nat :: base == Buddy.FirstPage(g.order, i) * PAGE_SIZE && Buddy.NoneFree(f, g.order, i)
  }

  /** Every slab lies in a block that the pool has taken from the allocator. */
  ghost predicate Funded(g: Geometry, slabs: Slabs, f: Buddy.FreeMap) {
    forall s :: s in slabs ==> TakenBlock(g, f, slabs[s].base)
  }

  /** Old slabs keep their blocks; a new one has the block at base. */
  ghost predicate SameBases(slabs: Slabs, slabs': Slabs, base: nat) {
    forall s :: s in slabs' ==> slabs'[s].base == if s in slabs then slabs[s].base else base
  }

  lemma OrderBound(g: Geometry)
    requires WellFormed(g)
    ensures g.order <= PAGE_ORDER_MAX
  {
  }

  lemma BasesFunded(g: Geometry, slabs: Slabs, slabs': Slabs, f: Buddy.FreeMap, base: nat)
    requires Funded(g, slabs, f) && SameBases(slabs, slabs', base)
    requires slabs'.Keys <= slabs.Keys || TakenBlock(g, f, base)
    ensures Funded(g, slabs', f)
  {
    hide TakenBlock;
  }

  /** A block that was free is none of those taken before, and now it is taken too. */
  lemma TakenStays(g: Geometry, f: Buddy.FreeMap, f': Buddy.FreeMap, j: nat, base: nat)
    requires Buddy.AllFree(f, g.order, j) && Buddy.Loses(f, f', g.order, j) && TakenBlock(g, f, base)
    ensures TakenBlock(g, f', base) && BlocksApart(g, Buddy.FirstPage(g.order, j) * PAGE_SIZE, base)
  {
    var i: nat :| base == Buddy.FirstPage(g.order, i) * PAGE_SIZE && Buddy.NoneFree(f, g.order, i);
    Buddy.FirstPageUp(g.order, j);
    assert Buddy.In(Buddy.FirstPage(g.order, j), g.order, j);
    assert i != j;
    BuddyBlocks(g, j, i);
    hide BlocksApart, Buddy.FirstPage, Buddy.In, Buddy.PageFree;
    assert Buddy.NoneFree(f', g.order, i);
  }

  lemma FreshBlock(g: Geometry, slabs: Slabs, f: Buddy.FreeMap, f': Buddy.FreeMap, page: nat)
    requires Funded(g, slabs, f) && PageAlloc.Aligned(page, g.order)
    requires Buddy.AllFree(f, g.order, Shr(page, g.order)) && Buddy.Loses(f, f', g.order, Shr(page, g.order))
    ensures Total(g.order) > 0 && (page * PAGE_SIZE) % Total(g.order) == 0
    ensures forall t :: t in slabs ==> BlocksApart(g, page * PAGE_SIZE, slabs[t].base)
    ensures Funded(g, slabs, f') && TakenBlock(g, f', page * PAGE_SIZE)
  {
    var j := Shr(page, g.order);
    BuddyBlocks(g, j, j);
    assert TakenBlock(g, f', page * PAGE_SIZE) by {
      assert Buddy.NoneFree(f', g.order, j);
    }
    hide Total, TakenBlock, BlocksApart, Buddy.AllFree, Buddy.Loses;
    forall t | t in slabs ensures BlocksApart(g, page * PAGE_SIZE, slabs[t].base) && TakenBlock(g, f', slabs[t].base) {
      TakenStays(g, f, f', j, slabs[t].base);
    }
  }
}
