/** How a slab divides its page block among a descriptor, a colour offset and objects. */
module SlabGeometry {
  import opened Arith

  const DESCRIPTOR_SIZE: nat := 24
  const TAG_SIZE: nat := 4
  const WORD_SIZE: nat := 4
  const WIDTH: nat := 0x1_0000_0000

  function RoundDown(x: nat, n: nat): nat
    requires n > 0
  {
    x - x % n
  }

  function RoundUp(x: nat, n: nat): nat
    requires n > 0
  {
    RoundDown(x + n - 1, n)
  }

  lemma RoundUpMeans(x: nat, n: nat)
    requires n > 0
    ensures x <= RoundUp(x, n) < x + n && RoundUp(x, n) % n == 0
  {
    var y := x + n - 1;
    DivMod(y, n);
    ModUnique(y - y % n, n, y / n, 0);
  }

  /** Rounding up as 32-bit arithmetic does it. */
  function RoundUp32(x: nat, n: nat): nat
    requires n > 0
  {
    RoundDown((x + n - 1) % WIDTH, n)
  }

  /** Close to the end of the range the sum wraps and rounds to zero. */
  lemma RoundUp32Means(x: nat, n: nat)
    requires 0 < n <= PAGE_SIZE && x < WIDTH
    ensures RoundUp32(x, n) == if x + n <= WIDTH then RoundUp(x, n) else 0
  {
    var y := x + n - 1;
    if y < WIDTH {
      ModUnique(y, WIDTH, 0, y);
    } else {
      ModUnique(y, WIDTH, 1, y - WIDTH);
      ModUnique(y - WIDTH, n, 0, y - WIDTH);
    }
  }

  function Total(order: nat): nat {
    PAGE_SIZE * Pow2(order)
  }

  function Extra(offSlab: bool): nat {
    if offSlab then 0 else DESCRIPTOR_SIZE
  }

  /** The room each object takes, with its tag if tags are on the slab. */
  function Stride(block: nat, offSlab: bool): nat {
    if offSlab then block else block + TAG_SIZE
  }

  lemma TotalMin(order: nat)
    ensures Total(order) >= PAGE_SIZE
  {
    MulMono(1, Pow2(order), PAGE_SIZE);
  }

  function Capacity(block: nat, offSlab: bool, order: nat): nat
    requires Stride(block, offSlab) > 0
  {
    TotalMin(order);
    DivNat(Total(order) - Extra(offSlab), Stride(block, offSlab));
    (Total(order) - Extra(offSlab)) / Stride(block, offSlab)
  }

  function Wastage(block: nat, offSlab: bool, order: nat): nat
    requires Stride(block, offSlab) > 0
  {
    TotalMin(order);
    DivMod(Total(order) - Extra(offSlab), Stride(block, offSlab));
    Total(order) - Capacity(block, offSlab, order) * Stride(block, offSlab) - Extra(offSlab)
  }

  /** The capacity is the largest number of objects that fit. */
  lemma CapacityLargest(block: nat, offSlab: bool, order: nat, n: nat)
    requires Stride(block, offSlab) > 0
    ensures n <= Capacity(block, offSlab, order) <==> Extra(offSlab) + n * Stride(block, offSlab) <= Total(order)
  {
    TotalMin(order);
    var room, stride, c := Total(order) - Extra(offSlab), Stride(block, offSlab), Capacity(block, offSlab, order);
    DivMod(room, stride);
    hide Total, Extra, Stride, Capacity;
    if n <= c {
      MulMono(n, c, stride);
    } else {
      MulNext(c, stride);
      MulMono(c + 1, n, stride);
    }
  }

  /** At most an eighth of the block is unused. */
  predicate Roomy(block: nat, offSlab: bool, order: nat)
    requires Stride(block, offSlab) > 0
  {
    Wastage(block, offSlab, order) * 8 <= Total(order)
  }

  /** What the objects leave over is at most an eighth of the block. */
  lemma RoomyMeans(block: nat, offSlab: bool, order: nat)
    requires Stride(block, offSlab) > 0
    ensures Roomy(block, offSlab, order) <==>
      8 * ((Total(order) - Extra(offSlab)) % Stride(block, offSlab)) <= Total(order)
  {
    TotalMin(order);
    DivMod(Total(order) - Extra(offSlab), Stride(block, offSlab));
  }

  datatype Geometry = Geometry(
    size: nat, align: nat, block: nat, offSlab: bool, order: nat, capacity: nat, wastage: nat)

  ghost predicate WellFormed(g: Geometry) {
    && g.size <= g.block && g.align > 0
    && g.align % WORD_SIZE == 0 && PAGE_SIZE % g.align == 0 && g.block % g.align == 0
    && g.order <= PAGE_ORDER_MAX && g.capacity >= 1
    && g.capacity * Stride(g.block, g.offSlab) + Extra(g.offSlab) + g.wastage == Total(g.order)
    && 8 * g.wastage <= Total(g.order)
  }

  function Align(align: nat): nat {
    if align == 0 then WORD_SIZE else RoundUp(align, WORD_SIZE)
  }

  lemma AlignMeans(align: nat)
    requires align != 0 ==> PAGE_SIZE % align == 0
    ensures Align(align) > 0 && Align(align) % WORD_SIZE == 0 && align <= Align(align) && PAGE_SIZE % Align(align) == 0
  {
    if align != 0 {
      hide RoundUp;
      RoundUpMeans(align, WORD_SIZE);
      var r := RoundUp(align, WORD_SIZE);
      if align % WORD_SIZE == 0 {
        assert r == align;
      } else {
        OddAlign(align);
        assert r == 4;
      }
    }
  }

  /** A divisor of the page size that is not a multiple of a word is 1 or 2. */
  lemma OddAlign(align: nat)
    requires align != 0 && PAGE_SIZE % align == 0 && align % 4 != 0
    ensures align <= 2
  {
    DivMod(PAGE_SIZE, align);
    assert Divides(align, PAGE_SIZE);
    OddFactor(align);
  }

  ghost predicate Divides(a: nat, n: nat) {
    exists k: nat :: k * a == n
  }

  lemma HalfDivides(a: nat, n: nat)
    requires Divides(2 * a, 2 * n)
    ensures Divides(a, n)
  {
    var k: nat :| k * (2 * a) == 2 * n;
    MulTwice(k, a);
    assert k * a == n;
  }

  lemma OddFactor(align: nat)
    requires Divides(align, PAGE_SIZE) && align % 4 != 0
    ensures align <= 2
  {
    PageIsPower();
    hide Pow2, Divides;
    if align % 2 == 1 {
      OddDivides(align, 12);
    } else {
      HalfDivides(align / 2, 2048);
      OddDivides(align / 2, 11);
    }
  }

  lemma PageIsPower()
    ensures Pow2(11) == 2048 && Pow2(12) == PAGE_SIZE
  {
    assert Pow2(3) == 8 && Pow2(4) == 16;
    Pow2Add(4, 4);
    Pow2Add(8, 3);
    assert Pow2(12) == 2 * Pow2(11);
  }

  /** An odd divisor of a power of two is 1. */
  lemma {:induction false} OddDivides(a: nat, n: nat)
    requires a % 2 == 1 && Divides(a, Pow2(n))
    ensures a == 1
    decreases n
  {
    if n == 0 {
      UnitDivisor(a);
    } else {
      EvenMultiple(a, Pow2(n - 1));
      OddDivides(a, n - 1);
    }
  }

  lemma UnitDivisor(a: nat)
    requires Divides(a, 1)
    ensures a == 1
  {
    var k: nat :| k * a == 1;
    if a > 1 && k > 0 { MulMono(2, a, k); }
  }

  /** An odd number that divides 2n divides n. */
  lemma EvenMultiple(a: nat, n: nat)
    requires a % 2 == 1 && Divides(a, 2 * n)
    ensures Divides(a, n)
  {
    var k: nat :| k * a == 2 * n;
    OddTimes(a, k);
    var h := k / 2;
    MulTwice(h, a);
    assert h * a == n;
  }

  lemma OddTimes(a: nat, k: nat)
    requires a % 2 == 1 && (k * a) % 2 == 0
    ensures k % 2 == 0
  {
    if k % 2 == 1 { OddProduct(a, k); }
  }

  lemma OddProduct(a: nat, k: nat)
    requires a % 2 == 1 && k % 2 == 1
    ensures (k * a) % 2 == 1
  {
    var x, y := a / 2, k / 2;
    MulTwice(y, a);
    MulNext(2 * y, a);
    assert k * a == 2 * (y * a) + a;
    ModUnique(k * a, 2, y * a + x, 1);
  }

  // ---- Choosing the page order ------------------------------------------------------------------

  lemma ChosenOrder(size: nat, align: nat, block: nat, offSlab: bool, order: nat)
    requires size <= block && align > 0 && align % WORD_SIZE == 0 && PAGE_SIZE % align == 0 && block % align == 0
    requires order <= PAGE_ORDER_MAX && Stride(block, offSlab) > 0 && Roomy(block, offSlab, order)
    ensures WellFormed(Geometry(size, align, block, offSlab, order, Capacity(block, offSlab, order),
      Wastage(block, offSlab, order)))
  {
    TotalMin(order);
    hide Total, Stride, Capacity;
    var c := Capacity(block, offSlab, order);
    assert 0 * Stride(block, offSlab) == 0;
  }

  ghost predicate NoneRoomy(block: nat, offSlab: bool)
    requires Stride(block, offSlab) > 0
  {
    forall o: nat :: o <= PAGE_ORDER_MAX ==> !Roomy(block, offSlab, o)
  }

  method FirstRoomy(block: nat, offSlab: bool) returns (r: Option<nat>)
    requires Stride(block, offSlab) > 0
    ensures r.None? <==> NoneRoomy(block, offSlab)
    ensures r.Some? ==>
      r.value <= PAGE_ORDER_MAX && Roomy(block, offSlab, r.value) && forall o: nat :: o < r.value ==>
        !Roomy(block, offSlab, o)
  {
    hide Roomy;
    var order := 0;
    while order <= PAGE_ORDER_MAX && !Roomy(block, offSlab, order)
      invariant order <= PAGE_ORDER_MAX + 1 && forall o: nat :: o < order ==> !Roomy(block, offSlab, o)
    {
      order := order + 1;
    }
    r := if order > PAGE_ORDER_MAX then None else Some(order);
  }

  /** What a caller may not ask for. */
  predicate BadAlign(size: nat, align: nat) {
    size < align || (align != 0 && PAGE_SIZE % align != 0)
  }

  datatype PoolPlan = Refused | Planned(geometry: Geometry) | DividesByZero

  /** The whole block of order zero goes to the tags of objects that take no room. */
  lemma EmptyObjects()
    ensures Roomy(0, false, 0) && Capacity(0, false, 0) == 1018 && Wastage(0, false, 0) == 0
  {
    assert Total(0) == PAGE_SIZE;
  }

  /**
   * Size a pool: refuse bad alignments, and take the smallest page order that wastes at most an
   * eighth of its memory, if there is one.  A size so large that rounding it wraps makes the
   * capacity a division by zero; a size of zero is accepted, and its blocks are the only ones that
   * are empty.
   */
  method Plan(size: nat, align: nat) returns (r: PoolPlan)
    requires size < WIDTH && align < WIDTH
    ensures !BadAlign(size, align) ==> Align(align) > 0 && (size > 0 ==> RoundUp(size, Align(align)) > 0)
    ensures r.DividesByZero? <==> !BadAlign(size, align) && size + Align(align) > WIDTH
    ensures r.Refused? <==>
      || BadAlign(size, align)
      || (0 < size && size + Align(align) <= WIDTH && NoneRoomy(RoundUp(size, Align(align)), size > PAGE_SIZE / 8))
    ensures r.Planned? ==> var g := r.geometry;
      && WellFormed(g) && g.size == size && align <= g.align == Align(align) && g.block == RoundUp(size, g.align)
      && g.block < size + g.align && (g.block > 0 <==> size > 0)
    ensures r.Planned? ==> var g := r.geometry;
      && g.offSlab == (size > PAGE_SIZE / 8) && Stride(g.block, g.offSlab) > 0
      && g.capacity == Capacity(g.block, g.offSlab, g.order) && g.wastage == Wastage(g.block, g.offSlab, g.order)
      && Roomy(g.block, g.offSlab, g.order) && forall o: nat :: o < g.order ==> !Roomy(g.block, g.offSlab, o)
  {
    hide BadAlign, Align, RoundUp, RoundUp32, Roomy, WellFormed, NoneRoomy, Capacity, Wastage;
    if BadAlign(size, align) {
      return Refused;
    }
    AlignFacts(size, align);
    var a := Align(align);
    var block, offSlab := RoundUp32(size, a), size > PAGE_SIZE / 8;
    if Stride(block, offSlab) == 0 {
      return DividesByZero;
    }
    var order := FirstRoomy(block, offSlab);
    EmptyObjects();
    if order.None? {
      if size == 0 { NotNone(0, false, 0); }
      return Refused;
    }
    var g := Geometry(size, a, block, offSlab, order.value, Capacity(block, offSlab, order.value),
                      Wastage(block, offSlab, order.value));
    PlannedWell(size, align, order.value);
    r := Planned(g);
  }

  /** What an alignment that is not refused gives. */
  lemma AlignFacts(size: nat, align: nat)
    requires !BadAlign(size, align) && size < WIDTH
    ensures 0 < Align(align) <= PAGE_SIZE && align <= Align(align)
    ensures size <= RoundUp(size, Align(align)) < size + Align(align)
    ensures RoundUp32(size, Align(align)) == if size + Align(align) <= WIDTH then RoundUp(size, Align(align)) else 0
    ensures size == 0 ==> RoundUp(size, Align(align)) == 0
  {
    AlignMeans(align);
    AlignBound(align);
    hide Align, BadAlign;
    RoundUpMeans(size, Align(align));
    RoundUp32Means(size, Align(align));
    if size == 0 { RoundUpZero(Align(align)); }
  }

  lemma PlannedWell(size: nat, align: nat, order: nat)
    requires !BadAlign(size, align) && Align(align) > 0 && Stride(RoundUp(size, Align(align)), size > PAGE_SIZE / 8) > 0
    requires Roomy(RoundUp(size, Align(align)), size > PAGE_SIZE / 8, order)
    requires order <= PAGE_ORDER_MAX
    ensures var block, offSlab := RoundUp(size, Align(align)), size > PAGE_SIZE / 8;
      WellFormed(Geometry(size, Align(align), block, offSlab, order,
                          Capacity(block, offSlab, order), Wastage(block, offSlab, order)))
  {
    AlignMeans(align);
    hide Align, BadAlign, Roomy, WellFormed, Capacity, Wastage;
    RoundUpMeans(size, Align(align));
    hide RoundUp;
    ChosenOrder(size, Align(align), RoundUp(size, Align(align)), size > PAGE_SIZE / 8, order);
  }

  lemma AlignBound(align: nat)
    requires align != 0 ==> PAGE_SIZE % align == 0
    ensures Align(align) <= PAGE_SIZE
  {
    AlignMeans(align);
    hide Align;
    if Align(align) > PAGE_SIZE { ModUnique(PAGE_SIZE, Align(align), 0, PAGE_SIZE); }
  }

  lemma RoundUpZero(n: nat)
    requires n > 0
    ensures RoundUp(0, n) == 0
  {
    ModUnique(n - 1, n, 0, n - 1);
  }

  lemma NotNone(block: nat, offSlab: bool, o: nat)
    requires Stride(block, offSlab) > 0 && Roomy(block, offSlab, o) && o <= PAGE_ORDER_MAX
    ensures !NoneRoomy(block, offSlab)
  {
    hide Roomy;
  }

  /** The largest size cannot be rounded up. */
  method PlanLargest() returns (r: PoolPlan)
    ensures r == DividesByZero
  {
    NoAlign(WIDTH - 1);
    hide BadAlign, Align, RoundUp, Roomy, WellFormed, NoneRoomy, Capacity, Wastage;
    r := Plan(WIDTH - 1, 0);
  }

  /** A pool of objects of size zero is accepted: 1018 objects to a page, all at one address. */
  method PlanEmpty() returns (g: Geometry)
    ensures WellFormed(g) && g.block == 0 && g.order == 0 && g.capacity == 1018
    ensures forall data: nat, i: nat :: ObjectAt(g, data, i) == data
  {
    hide BadAlign, Align, RoundUp, Roomy, WellFormed, NoneRoomy, Capacity, Wastage, Total, ObjectAt;
    NoAlign(0);
    EmptyObjects();
    var r := Plan(0, 0);
    g := r.geometry;
    EmptyAt(g);
  }

  lemma EmptyAt(g: Geometry)
    requires g.block == 0
    ensures forall data: nat, i: nat :: ObjectAt(g, data, i) == data
  {
    assert forall data: nat, i: nat :: ObjectAt(g, data, i) == data + i * 0;
  }

  lemma NoAlign(size: nat)
    ensures !BadAlign(size, 0) && Align(0) == WORD_SIZE
  {
  }

  // ---- Where objects lie ----------------------------------------------------------------------------

  /** A colour offset: the unused room is shifted in front of the objects in steps of the alignment. */
  ghost predicate Colour(g: Geometry, c: nat)
    requires g.align > 0
  {
    c <= g.wastage && c % g.align == 0
  }

  function NextColour(g: Geometry, c: nat): nat {
    if c + g.align > g.wastage then 0 else c + g.align
  }

  /** The colour of slab n of a pool, counting from zero. */
  ghost function ColourOf(g: Geometry, n: nat): nat {
    if n == 0 then 0 else NextColour(g, ColourOf(g, n - 1))
  }

  /** Colours go through the multiples of the alignment that the unused room has, and start over. */
  lemma {:induction false} ColourCycle(g: Geometry, n: nat)
    requires g.align > 0
    ensures g.wastage / g.align >= 0 && ColourOf(g, n) == (n % (g.wastage / g.align + 1)) * g.align
  {
    DivNat(g.wastage, g.align);
    DivMod(g.wastage, g.align);
    var m := g.wastage / g.align + 1;
    if n == 0 {
      ModUnique(0, m, 0, 0);
    } else {
      ColourCycle(g, n - 1);
      var r := (n - 1) % m;
      DivMod(n - 1, m);
      MulNext(r, g.align);
      if r + 1 < m {
        ModUnique(n, m, (n - 1) / m, r + 1);
        MulMono(r + 1, m - 1, g.align);
      } else {
        MulNext((n - 1) / m, m);
        ModUnique(n, m, (n - 1) / m + 1, 0);
      }
    }
  }

  /** Every colour that the unused room allows is used, once in every round. */
  lemma EveryColour(g: Geometry, c: nat)
    requires g.align > 0 && Colour(g, c)
    ensures 0 <= c / g.align <= g.wastage / g.align && ColourOf(g, c / g.align) == c
  {
    DivNat(c, g.align);
    DivNat(g.wastage, g.align);
    DivMod(c, g.align);
    DivMod(g.wastage, g.align);
    var q, m := c / g.align, g.wastage / g.align;
    if q > m {
      MulNext(m, g.align);
      MulMono(m + 1, q, g.align);
    }
    ColourCycle(g, q);
    ModUnique(q, m + 1, 0, q);
  }

  lemma NextColourOk(g: Geometry, c: nat)
    requires WellFormed(g) && Colour(g, c)
    ensures Colour(g, NextColour(g, c))
  {
    hide Total, Stride;
    DivMod(c, g.align);
    MulNext(c / g.align, g.align);
    ModUnique(c + g.align, g.align, c / g.align + 1, 0);
    ModUnique(0, g.align, 0, 0);
  }

  function ObjectAt(g: Geometry, data: nat, i: nat): nat {
    data + i * g.block
  }

  /** The end of the room for objects: the descriptor and the tags follow it, or the block ends. */
  function End(g: Geometry, base: nat): int {
    base + Total(g.order) - (if g.offSlab then 0 else DESCRIPTOR_SIZE + g.capacity * TAG_SIZE)
  }

  lemma RoomFor(g: Geometry, base: nat, c: nat)
    requires WellFormed(g) && Colour(g, c)
    ensures base + c + g.capacity * g.block <= End(g, base) <= base + Total(g.order)
  {
    hide Total;
    if !g.offSlab {
      assert g.capacity * (g.block + TAG_SIZE) == g.capacity * g.block + g.capacity * TAG_SIZE;
    }
  }

  /** An object lies inside the room for objects. */
  lemma ObjectInside(g: Geometry, base: nat, c: nat, i: nat)
    requires WellFormed(g) && Colour(g, c) && i < g.capacity
    ensures base + c <= ObjectAt(g, base + c, i)
    ensures ObjectAt(g, base + c, i) + g.block <= End(g, base) <= base + Total(g.order)
  {
    hide WellFormed, Total, End, Colour;
    RoomFor(g, base, c);
    MulMono(i + 1, g.capacity, g.block);
    MulNext(i, g.block);
  }

  lemma MultipleSum(x: nat, y: nat, n: nat)
    requires n > 0 && x % n == 0 && y % n == 0
    ensures (x + y) % n == 0
  {
    DivMod(x, n);
    DivMod(y, n);
    assert (x / n + y / n) * n == (x / n) * n + (y / n) * n;
    ModUnique(x + y, n, x / n + y / n, 0);
  }

  lemma MultipleTimes(i: nat, x: nat, n: nat)
    requires n > 0 && x % n == 0
    ensures (i * x) % n == 0
  {
    DivMod(x, n);
    var q := x / n;
    assert i * (q * n) == (i * q) * n;
    ModUnique(i * x, n, i * q, 0);
  }

  lemma MultipleTrans(x: nat, m: nat, n: nat)
    requires m > 0 && n > 0 && x % m == 0 && m % n == 0
    ensures x % n == 0
  {
    DivMod(x, m);
    MultipleTimes(x / m, m, n);
  }

  /** Objects are aligned because the page block is. */
  lemma ObjectAligned(g: Geometry, base: nat, c: nat, i: nat)
    requires WellFormed(g) && Colour(g, c) && Total(g.order) > 0 && base % Total(g.order) == 0
    ensures ObjectAt(g, base + c, i) % g.align == 0
  {
    MultipleTimes(Pow2(g.order), PAGE_SIZE, g.align);
    hide Pow2;
    MultipleTrans(base, Total(g.order), g.align);
    hide Total;
    MultipleTimes(i, g.block, g.align);
    MultipleSum(base, c, g.align);
    MultipleSum(base + c, i * g.block, g.align);
  }

  /** Rounding an object's address down to the size of the block finds the block, whichever object it is. */
  lemma BlockFound(g: Geometry, base: nat, x: nat)
    requires Total(g.order) > 0 && base % Total(g.order) == 0 && base <= x < base + Total(g.order)
    ensures RoundDown(x, Total(g.order)) == base
  {
    hide Total;
    var t := Total(g.order);
    DivMod(base, t);
    ModUnique(x, t, base / t, x - base);
  }

  /** An object's tag index can be recovered from its address. */
  lemma TagFound(g: Geometry, data: nat, i: nat)
    requires g.block > 0
    ensures (ObjectAt(g, data, i) - data) / g.block == i
  {
    ModUnique(i * g.block, g.block, i, 0);
  }

  /** Different objects of a slab do not overlap. */
  lemma ObjectsApart(g: Geometry, data: nat, i: nat, j: nat)
    requires i < j
    ensures ObjectAt(g, data, i) + g.block <= ObjectAt(g, data, j)
  {
    MulMono(i + 1, j, g.block);
    MulNext(i, g.block);
  }

  /** The objects of a slab have different addresses if and only if blocks are not empty. */
  lemma DistinctIff(g: Geometry, data: nat)
    requires g.capacity >= 2
    ensures g.block > 0 <==>
      forall i: nat, j: nat :: i < j < g.capacity ==> ObjectAt(g, data, i) != ObjectAt(g, data, j)
  {
    forall i: nat, j: nat | i < j ensures ObjectAt(g, data, i) + g.block <= ObjectAt(g, data, j) {
      ObjectsApart(g, data, i, j);
    }
    if g.block == 0 { assert ObjectAt(g, data, 0) == ObjectAt(g, data, 1); }
  }
}
