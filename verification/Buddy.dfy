/**
 * The binary buddy allocator of physical pages.
 *
 * A block of order o and index i is the run of pages [i * 2^o, (i + 1) * 2^o).
 * Its parent is block i / 2 of order o + 1 and its buddy is the other child of
 * that parent.  The theory is stated on the bitmaps alone; the class in
 * PageAllocator.dfy ties the free lists to them.
 */
module Buddy {
  import opened Arith

  /** One bitmap per order; bit i of bitmap o says that block i of order o is free. */
  type FreeMap = seq<seq<bool>>

  ghost predicate Shape(f: FreeMap) {
    && |f| == PAGE_ORDER_MAX + 1
    && forall o :: 0 <= o < PAGE_ORDER_MAX ==> |f[o]| == 2 * |f[o + 1]|
  }

  predicate IsFree(f: FreeMap, o: int, i: int) {
    0 <= o < |f| && 0 <= i < |f[o]| && f[o][i]
  }

  /** Page p belongs to block (o, i): i is p with its lowest o bits dropped. */
  ghost predicate In(p: nat, o: nat, i: nat) {
    Shr(p, o) == i
  }

  function BuddyIndex(i: nat): nat {
    if i % 2 == 0 then i + 1 else i - 1
  }

  /** Both children of block (o + 1, j) are free. */
  ghost predicate ChildrenFree(f: FreeMap, o: nat, j: nat) {
    IsFree(f, o, 2 * j) && IsFree(f, o, 2 * j + 1)
  }

  /** No two buddies below the maximum order are both free. */
  ghost predicate Coalesced(f: FreeMap) {
    forall o: nat, j: nat :: o < PAGE_ORDER_MAX ==> !ChildrenFree(f, o, j)
  }

  /** Page p lies in a free block of order o. */
  ghost predicate FreeAt(f: FreeMap, p: nat, o: nat) {
    IsFree(f, o, Shr(p, o))
  }

  ghost predicate PageFree(f: FreeMap, p: nat) {
    exists o: nat :: FreeAt(f, p, o)
  }

  /** No page lies in two free blocks. */
  ghost predicate Disjoint(f: FreeMap) {
    forall p: nat, o: nat, o': nat :: FreeAt(f, p, o) && FreeAt(f, p, o') ==> o == o'
  }

  ghost predicate Canonical(f: FreeMap) {
    Shape(f) && Disjoint(f) && Coalesced(f)
  }

  /** Every page of block (o, i) is free. */
  ghost predicate AllFree(f: FreeMap, o: nat, i: nat) {
    forall p: nat :: In(p, o, i) ==> PageFree(f, p)
  }

  /** No page of block (o, i) is free. */
  ghost predicate NoneFree(f: FreeMap, o: nat, i: nat) {
    forall p: nat :: In(p, o, i) ==> !PageFree(f, p)
  }

  // ---- Block geometry ------------------------------------------------------

  function FirstPage(o: nat, i: nat): nat {
    i * Pow2(o)
  }

  lemma FirstPageUp(o: nat, i: nat)
    ensures Shr(FirstPage(o, i), o) == i
  {
    ShrRange(FirstPage(o, i), o, i);
    MulNext(i, Pow2(o));
  }

  lemma {:induction false} ShapeLength(f: FreeMap, o: nat)
    requires Shape(f) && o <= PAGE_ORDER_MAX
    ensures |f[0]| == |f[o]| * Pow2(o)
  {
    if o > 0 {
      ShapeLength(f, o - 1);
      assert |f[o - 1]| == 2 * |f[o]|;
      MulTwice(|f[o]|, Pow2(o - 1));
    }
  }

  lemma FreePageBound(f: FreeMap, p: nat, o: nat)
    requires Shape(f) && FreeAt(f, p, o)
    ensures p < |f[0]|
  {
    ShrRange(p, o, Shr(p, o));
    ShapeLength(f, o);
    MulMono(Shr(p, o) + 1, |f[o]|, Pow2(o));
  }

  // ---- Completeness and canonicity ------------------------------------------

  lemma InHalves(o: nat, i: nat)
    ensures forall p: nat :: In(p, o + 1, i) <==> In(p, o, 2 * i) || In(p, o, 2 * i + 1)
  {
    forall p: nat ensures In(p, o + 1, i) <==> In(p, o, 2 * i) || In(p, o, 2 * i + 1) {
      ShrStep(p, o);
    }
  }

  /** A wholly free aligned run lies inside a single free block. */
  lemma {:induction false} CoveringBlock(f: FreeMap, o: nat, i: nat) returns (k: nat)
    requires Coalesced(f) && o <= PAGE_ORDER_MAX && AllFree(f, o, i)
    ensures IsFree(f, o + k, Shr(i, k))
    decreases o
  {
    if o == 0 {
      assert In(i, 0, i);
      k :| FreeAt(f, i, k);
    } else {
      InHalves(o - 1, i);
      var k0 := CoveringBlock(f, o - 1, 2 * i);
      var k1 := CoveringBlock(f, o - 1, 2 * i + 1);
      assert !ChildrenFree(f, o - 1, i);
      if k0 > 0 {
        assert Shr(2 * i, k0) == Shr(i, k0 - 1);
        k := k0 - 1;
      } else {
        assert Shr(2 * i + 1, k1) == Shr(i, k1 - 1);
        k := k1 - 1;
      }
    }
  }

  lemma BlockPagesFree(f: FreeMap, o: nat, i: nat, k: nat)
    requires IsFree(f, o + k, Shr(i, k))
    ensures AllFree(f, o, i)
  {
    forall p: nat | In(p, o, i) ensures PageFree(f, p) {
      ShrAdd(p, o, k);
      assert FreeAt(f, p, o + k);
    }
  }

  /** Some free block is large enough for a request of order o. */
  ghost predicate CanAllocate(f: FreeMap, o: nat) {
    exists o': nat, i: nat :: o <= o' && IsFree(f, o', i)
  }

  /** Some aligned run of 2^o pages is entirely free. */
  ghost predicate HasFreeRun(f: FreeMap, o: nat) {
    exists i: nat :: AllFree(f, o, i)
  }

  /** Allocation of order o fails exactly when no aligned run of 2^o pages is entirely free. */
  lemma Completeness(f: FreeMap, o: nat)
    requires Canonical(f) && o <= PAGE_ORDER_MAX
    ensures CanAllocate(f, o) <==> HasFreeRun(f, o)
  {
    if CanAllocate(f, o) {
      var o': nat, i': nat :| o <= o' && IsFree(f, o', i');
      FirstPageUp(o' - o, i');
      BlockPagesFree(f, o, FirstPage(o' - o, i'), o' - o);
    }
    if i: nat :| AllFree(f, o, i) {
      var k := CoveringBlock(f, o, i);
    }
  }

  /** Block (o, i) is a maximal aligned run of free pages. */
  ghost predicate Maximal(f: FreeMap, o: nat, i: nat) {
    && o <= PAGE_ORDER_MAX
    && AllFree(f, o, i)
    && (o < PAGE_ORDER_MAX ==> !AllFree(f, o + 1, i / 2))
  }

  /** A free block has no free proper ancestor. */
  lemma NoFreeAncestor(f: FreeMap, o: nat, i: nat, k: nat)
    requires Disjoint(f) && IsFree(f, o, i) && IsFree(f, o + k, Shr(i, k))
    ensures k == 0
  {
    var p := FirstPage(o, i);
    FirstPageUp(o, i);
    ShrAdd(p, o, k);
    assert FreeAt(f, p, o) && FreeAt(f, p, o + k);
  }

  lemma FreeIsMaximal(f: FreeMap, o: nat, i: nat)
    requires Canonical(f) && IsFree(f, o, i)
    ensures Maximal(f, o, i)
  {
    BlockPagesFree(f, o, i, 0);
    if o < PAGE_ORDER_MAX && AllFree(f, o + 1, i / 2) {
      var k := CoveringBlock(f, o + 1, i / 2);
      NoFreeAncestor(f, o, i, k + 1);
      assert false;
    }
  }

  lemma MaximalIsFree(f: FreeMap, o: nat, i: nat)
    requires Canonical(f) && Maximal(f, o, i)
    ensures IsFree(f, o, i)
  {
    var k := CoveringBlock(f, o, i);
    if k > 0 {
      BlockPagesFree(f, o + 1, i / 2, k - 1);
      assert false;
    }
  }

  ghost predicate SamePages(f: FreeMap, g: FreeMap) {
    forall p: nat :: PageFree(f, p) <==> PageFree(g, p)
  }

  /** The free blocks are the maximal aligned runs of free pages, so they depend only on the free pages. */
  lemma CanonicalUnique(f: FreeMap, g: FreeMap)
    requires Canonical(f) && Canonical(g) && |f[0]| == |g[0]|
    requires SamePages(f, g)
    ensures f == g
  {
    forall o: nat, i: nat ensures IsFree(f, o, i) <==> IsFree(g, o, i) {
      if IsFree(f, o, i) { FreeIsMaximal(f, o, i); MaximalIsFree(g, o, i); }
      if IsFree(g, o, i) { FreeIsMaximal(g, o, i); MaximalIsFree(f, o, i); }
    }
    forall o | 0 <= o <= PAGE_ORDER_MAX ensures f[o] == g[o] {
      SameLength(f, g, o);
      assert forall i :: 0 <= i < |f[o]| ==> f[o][i] == IsFree(f, o, i) == IsFree(g, o, i) == g[o][i];
    }
  }

  lemma {:induction false} SameLength(f: FreeMap, g: FreeMap, o: nat)
    requires Shape(f) && Shape(g) && |f[0]| == |g[0]| && o <= PAGE_ORDER_MAX
    ensures |f[o]| == |g[o]|
  {
    if o > 0 {
      SameLength(f, g, o - 1);
      assert |f[o - 1]| == 2 * |f[o]| && |g[o - 1]| == 2 * |g[o]|;
    }
  }

  /** The two blocks have no page in common. */
  ghost predicate Apart(o: nat, i: nat, o': nat, i': nat) {
    forall p: nat :: !(In(p, o, i) && In(p, o', i'))
  }

  // ---- Adding and removing one block -----------------------------------------

  function Mark(f: FreeMap, o: nat, i: nat, free: bool): FreeMap
    requires o < |f| && i < |f[o]|
  {
    f[o := f[o][i := free]]
  }

  ghost predicate InMap(f: FreeMap, o: nat, i: nat) {
    o < |f| && i < |f[o]|
  }

  /** g has the free pages of f and those of block (o, i). */
  ghost predicate Gains(f: FreeMap, g: FreeMap, o: nat, i: nat) {
    forall p: nat :: PageFree(g, p) <==> PageFree(f, p) || In(p, o, i)
  }

  /** g has the free pages of f without those of block (o, i). */
  ghost predicate Loses(f: FreeMap, g: FreeMap, o: nat, i: nat) {
    forall p: nat :: PageFree(g, p) <==> PageFree(f, p) && !In(p, o, i)
  }

  lemma RemoveBlock(f: FreeMap, o: nat, i: nat)
    requires Canonical(f) && IsFree(f, o, i)
    ensures Canonical(Mark(f, o, i, false)) && Loses(f, Mark(f, o, i, false), o, i)
  {
    var g := Mark(f, o, i, false);
    assert forall o': int, i': int :: IsFree(g, o', i') <==> IsFree(f, o', i') && !(o' == o && i' == i);
    assert forall o': nat, j: nat :: ChildrenFree(g, o', j) ==> ChildrenFree(f, o', j);
    assert forall p: nat, o': nat :: FreeAt(g, p, o') <==> FreeAt(f, p, o') && !(o' == o && In(p, o, i));
    forall p: nat ensures PageFree(g, p) <==> PageFree(f, p) && !In(p, o, i) {
      if In(p, o, i) {
        assert FreeAt(f, p, o);
      } else if o': nat :| FreeAt(f, p, o') {
        assert FreeAt(g, p, o');
      }
    }
  }

  lemma AddBlock(f: FreeMap, o: nat, i: nat)
    requires Canonical(f) && InMap(f, o, i) && NoneFree(f, o, i)
    requires o < PAGE_ORDER_MAX ==> !IsFree(f, o, BuddyIndex(i))
    ensures Canonical(Mark(f, o, i, true)) && Gains(f, Mark(f, o, i, true), o, i)
  {
    var g := Mark(f, o, i, true);
    assert forall o': int, i': int :: IsFree(g, o', i') <==> IsFree(f, o', i') || (o' == o && i' == i);
    forall o': nat, j: nat | o' < PAGE_ORDER_MAX ensures !ChildrenFree(g, o', j) {
      assert !ChildrenFree(f, o', j);
    }
    assert forall p: nat, o': nat :: FreeAt(g, p, o') <==> FreeAt(f, p, o') || (o' == o && In(p, o, i));
    forall p: nat ensures PageFree(g, p) <==> PageFree(f, p) || In(p, o, i) {
      if o': nat :| FreeAt(f, p, o') { assert FreeAt(g, p, o'); }
      if In(p, o, i) { assert FreeAt(g, p, o); }
    }
  }

  // ---- Freeing merges, allocating splits ---------------------------------------

  /** Free block (o, i), merging it with its buddy as long as the buddy is free. */
  function Merge(f: FreeMap, o: nat, i: nat): FreeMap
    requires Shape(f) && InMap(f, o, i)
    decreases PAGE_ORDER_MAX - o
  {
    if o < PAGE_ORDER_MAX && IsFree(f, o, BuddyIndex(i)) then
      Merge(Mark(f, o, BuddyIndex(i), false), o + 1, i / 2)
    else
      Mark(f, o, i, true)
  }

  lemma ParentHas(o: nat, i: nat)
    ensures forall p: nat :: In(p, o + 1, i / 2) <==> In(p, o, i) || In(p, o, BuddyIndex(i))
  {
    forall p: nat ensures In(p, o + 1, i / 2) <==> In(p, o, i) || In(p, o, BuddyIndex(i)) { ShrStep(p, o); }
  }

  lemma MergeStep(f: FreeMap, o: nat, i: nat, b: nat, g: FreeMap)
    requires Canonical(f) && InMap(f, o, i) && NoneFree(f, o, i)
    requires o < PAGE_ORDER_MAX && b == BuddyIndex(i) && IsFree(f, o, b) && g == Mark(f, o, b, false)
    ensures Canonical(g) && InMap(g, o + 1, i / 2) && NoneFree(g, o + 1, i / 2)
    ensures forall p: nat :: PageFree(g, p) || In(p, o + 1, i / 2) <==> PageFree(f, p) || In(p, o, i)
  {
    RemoveBlock(f, o, b);
    BlockPagesFree(f, o, b, 0);
    ParentHas(o, i);
    assert |f[o]| == 2 * |f[o + 1]|;
  }

  lemma {:induction false} MergeCorrect(f: FreeMap, o: nat, i: nat)
    requires Canonical(f) && InMap(f, o, i) && NoneFree(f, o, i)
    ensures Canonical(Merge(f, o, i)) && |Merge(f, o, i)[0]| == |f[0]|
    ensures Gains(f, Merge(f, o, i), o, i)
    decreases PAGE_ORDER_MAX - o
  {
    var b := BuddyIndex(i);
    if o < PAGE_ORDER_MAX && IsFree(f, o, b) {
      var g := Mark(f, o, b, false);
      MergeStep(f, o, i, b, g);
      MergeCorrect(g, o + 1, i / 2);
    } else {
      AddBlock(f, o, i);
    }
  }

  /**
   * Cut block (o, i), which is in no free list, down to order k: each left half goes
   * to its free list and the right half is cut further.  Returns the index of what is left.
   */
  function Split(f: FreeMap, o: nat, i: nat, k: nat): (FreeMap, nat)
    requires Shape(f) && InMap(f, o, i) && k <= o
    decreases o
  {
    if o == k then (f, i)
    else Split(Mark(f, o - 1, 2 * i, true), o - 1, 2 * i + 1, k)
  }

  lemma SplitOnce(f: FreeMap, o: nat, i: nat, k: nat)
    requires Shape(f) && InMap(f, o + 1, i) && k <= o
    ensures Split(f, o + 1, i, k) == Split(Mark(f, o, 2 * i, true), o, 2 * i + 1, k)
  {
  }

  lemma SplitDone(f: FreeMap, o: nat, i: nat)
    requires Shape(f) && InMap(f, o, i)
    ensures Split(f, o, i, o) == (f, i)
  {
  }

  lemma FreeNotNone(f: FreeMap, o: nat, i: nat)
    requires NoneFree(f, o, i)
    ensures !IsFree(f, o, i)
  {
    FirstPageUp(o, i);
    var p := FirstPage(o, i);
    assert In(p, o, i) && (IsFree(f, o, i) ==> FreeAt(f, p, o));
  }

  ghost predicate Inside(k: nat, r: nat, o: nat, i: nat) {
    forall p: nat :: In(p, k, r) ==> In(p, o, i)
  }

  lemma SplitStep(f: FreeMap, o: nat, i: nat, g: FreeMap)
    requires Canonical(f) && InMap(f, o, i) && NoneFree(f, o, i) && o > 0
    requires InMap(f, o - 1, 2 * i) && g == Mark(f, o - 1, 2 * i, true)
    ensures Canonical(g) && InMap(g, o - 1, 2 * i + 1) && NoneFree(g, o - 1, 2 * i + 1)
    ensures Inside(o - 1, 2 * i + 1, o, i)
    ensures forall p: nat :: PageFree(g, p) <==> PageFree(f, p) || (In(p, o, i) && !In(p, o - 1, 2 * i + 1))
  {
    InHalves(o - 1, i);
    assert NoneFree(f, o - 1, 2 * i);
    FreeNotNone(f, o - 1, 2 * i + 1);
    AddBlock(f, o - 1, 2 * i);
    assert Gains(f, g, o - 1, 2 * i);
    assert Apart(o - 1, 2 * i, o - 1, 2 * i + 1);
  }

  lemma {:induction false} SplitCorrect(f: FreeMap, o: nat, i: nat, k: nat)
    requires Canonical(f) && InMap(f, o, i) && k <= o && NoneFree(f, o, i)
    ensures var (g, r) := Split(f, o, i, k);
      && Canonical(g) && InMap(g, k, r) && |g[0]| == |f[0]|
      && Inside(k, r, o, i)
      && forall p: nat :: PageFree(g, p) <==> PageFree(f, p) || (In(p, o, i) && !In(p, k, r))
    decreases o
  {
    if o > k {
      var g := Mark(f, o - 1, 2 * i, true);
      SplitStep(f, o, i, g);
      SplitCorrect(g, o - 1, 2 * i + 1, k);
    }
  }

  /** Take block (o, i) off its free list and cut it down to order k. */
  function Take(f: FreeMap, o: nat, i: nat, k: nat): (FreeMap, nat)
    requires Shape(f) && IsFree(f, o, i) && k <= o
  {
    Split(Mark(f, o, i, false), o, i, k)
  }

  lemma TakeCorrect(f: FreeMap, o: nat, i: nat, k: nat)
    requires Canonical(f) && IsFree(f, o, i) && k <= o
    ensures var (g, r) := Take(f, o, i, k);
      && Canonical(g) && InMap(g, k, r) && |g[0]| == |f[0]|
      && AllFree(f, k, r) && Loses(f, g, k, r)
  {
    RemoveBlock(f, o, i);
    BlockPagesFree(f, o, i, 0);
    SplitCorrect(Mark(f, o, i, false), o, i, k);
  }

  /** What is left after a split is the last part of the block, and no order above it has changed. */
  lemma {:induction false} SplitLast(f: FreeMap, o: nat, i: nat, k: nat)
    requires Shape(f) && InMap(f, o, i) && k <= o
    ensures var (g, r) := Split(f, o, i, k);
      && FirstPage(k, r) == FirstPage(o, i) + Pow2(o) - Pow2(k)
      && |g| == |f| && forall x :: o <= x < |f| ==> g[x] == f[x]
    decreases o
  {
    if o > k {
      MulTwice(i, Pow2(o - 1));
      MulNext(2 * i, Pow2(o - 1));
      SplitLast(Mark(f, o - 1, 2 * i, true), o - 1, 2 * i + 1, k);
    }
  }

  /** While a smaller block will do, the larger ones stay free. */
  ghost predicate SparesLarger(f: FreeMap, g: FreeMap, order: nat) {
    forall o: nat, j: nat, o': nat, i: nat ::
      order <= o < o' && IsFree(f, o, j) && IsFree(f, o', i) ==> IsFree(g, o', i)
  }

  /** So a request for a larger block that could be met before still can. */
  lemma SparesRuns(f: FreeMap, g: FreeMap, order: nat, o: nat, j: nat, o': nat)
    requires Canonical(f) && Canonical(g) && SparesLarger(f, g, order)
    requires order <= o < o' <= PAGE_ORDER_MAX && IsFree(f, o, j) && HasFreeRun(f, o')
    ensures HasFreeRun(g, o')
  {
    hide Canonical, HasFreeRun, IsFree;
    Completeness(f, o');
    Completeness(g, o');
    var x: nat, i: nat :| o' <= x && IsFree(f, x, i);
    assert IsFree(g, x, i);
  }

  /** Freeing what was just allocated restores the free lists exactly. */
  lemma AllocThenFree(f: FreeMap, o: nat, i: nat, k: nat)
    requires Canonical(f) && IsFree(f, o, i) && k <= o
    ensures var (g, r) := Take(f, o, i, k); Shape(g) && InMap(g, k, r) && Merge(g, k, r) == f
  {
    var (g, r) := Take(f, o, i, k);
    TakeCorrect(f, o, i, k);
    MergeCorrect(g, k, r);
    CanonicalUnique(Merge(g, k, r), f);
  }

  lemma MergeTwo(f: FreeMap, o: nat, i: nat, o': nat, i': nat)
    requires Canonical(f) && InMap(f, o, i) && InMap(f, o', i')
    requires NoneFree(f, o, i) && NoneFree(f, o', i') && Apart(o, i, o', i')
    ensures Canonical(Merge(f, o, i)) && InMap(Merge(f, o, i), o', i')
    ensures Canonical(Merge(Merge(f, o, i), o', i'))
    ensures |Merge(Merge(f, o, i), o', i')[0]| == |f[0]|
    ensures forall p: nat :: PageFree(Merge(Merge(f, o, i), o', i'), p) <==>
      PageFree(f, p) || In(p, o, i) || In(p, o', i')
  {
    MergeCorrect(f, o, i);
    SameLength(f, Merge(f, o, i), o');
    MergeCorrect(Merge(f, o, i), o', i');
  }

  /** The order in which two blocks are freed does not matter. */
  lemma FreesCommute(f: FreeMap, o: nat, i: nat, o': nat, i': nat)
    requires Canonical(f) && InMap(f, o, i) && InMap(f, o', i')
    requires NoneFree(f, o, i) && NoneFree(f, o', i') && Apart(o, i, o', i')
    ensures Shape(Merge(f, o, i)) && InMap(Merge(f, o, i), o', i')
    ensures Shape(Merge(f, o', i')) && InMap(Merge(f, o', i'), o, i)
    ensures Merge(Merge(f, o, i), o', i') == Merge(Merge(f, o', i'), o, i)
  {
    MergeTwo(f, o, i, o', i');
    MergeTwo(f, o', i', o, i);
    CanonicalUnique(Merge(Merge(f, o, i), o', i'), Merge(Merge(f, o', i'), o, i));
  }

  // ---- Every run ------------------------------------------------------------------

  /** The free blocks together with the blocks handed out and not yet returned. */
  datatype State = State(free: FreeMap, used: set<(nat, nat)>)

  ghost predicate UsedBlock(f: FreeMap, b: (nat, nat)) {
    InMap(f, b.0, b.1) && NoneFree(f, b.0, b.1)
  }

  ghost predicate Inv(s: State) {
    && Canonical(s.free)
    && (forall b :: b in s.used ==> UsedBlock(s.free, b))
    && (forall b, c :: b in s.used && c in s.used && b != c ==> Apart(b.0, b.1, c.0, c.1))
  }

  ghost predicate AllocStep(s: State, s': State, o: nat, i: nat, k: nat) {
    && Shape(s.free) && IsFree(s.free, o, i) && k <= o
    && var (g, r) := Take(s.free, o, i, k); s' == State(g, s.used + {(k, r)})
  }

  ghost predicate FreeStep(s: State, s': State, o: nat, i: nat) {
    && (o, i) in s.used
    && Shape(s.free) && InMap(s.free, o, i)
    && s' == State(Merge(s.free, o, i), s.used - {(o, i)})
  }

  ghost predicate Next(s: State, s': State) {
    || (exists o, i, k :: AllocStep(s, s', o, i, k))
    || (exists o, i :: FreeStep(s, s', o, i))
  }

  lemma AllocKeepsInv(s: State, s': State, o: nat, i: nat, k: nat)
    requires Inv(s) && AllocStep(s, s', o, i, k)
    ensures Inv(s')
  {
    TakeCorrect(s.free, o, i, k);
    forall b | b in s.used ensures UsedBlock(s'.free, b) {
      SameLength(s.free, s'.free, b.0);
    }
  }

  lemma FreeKeepsInv(s: State, s': State, o: nat, i: nat)
    requires Inv(s) && FreeStep(s, s', o, i)
    ensures Inv(s')
  {
    assert UsedBlock(s.free, (o, i));
    MergeCorrect(s.free, o, i);
    forall b | b in s'.used ensures UsedBlock(s'.free, b) {
      assert UsedBlock(s.free, b) && Apart(b.0, b.1, (o, i).0, (o, i).1);
      SameLength(s.free, s'.free, b.0);
    }
  }

  ghost predicate IsRun(run: seq<State>) {
    |run| > 0 && forall t :: 0 <= t < |run| - 1 ==> Next(run[t], run[t + 1])
  }

  /** In every run, blocks in use are disjoint from one another and from every free block. */
  lemma {:induction false} RunSafe(run: seq<State>, t: nat)
    requires IsRun(run) && Inv(run[0]) && t < |run|
    ensures Inv(run[t])
  {
    if t > 0 {
      RunSafe(run, t - 1);
      var s, s' := run[t - 1], run[t];
      assert Next(s, s');
      if o, i, k :| AllocStep(s, s', o, i, k) {
        AllocKeepsInv(s, s', o, i, k);
      } else {
        var o, i :| FreeStep(s, s', o, i);
        FreeKeepsInv(s, s', o, i);
      }
    }
  }
}
