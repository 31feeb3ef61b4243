/** The page allocator: free lists and bitmaps updated in place, proved against the theory of Buddy.dfy. */
module PageAlloc {
  import opened Arith
  import opened Buddy
  import opened Lists

  // ---- Counting pages -------------------------------------------------------------

  ghost function FreePages(f: FreeMap): (s: set<nat>)
    requires Shape(f)
    ensures forall p: nat :: p in s <==> PageFree(f, p)
  {
    assert forall p: nat :: PageFree(f, p) ==> p < |f[0]| by {
      forall p: nat | PageFree(f, p) ensures p < |f[0]| {
        var o: nat :| FreeAt(f, p, o);
        FreePageBound(f, p, o);
      }
    }
    set p: nat | p < |f[0]| && PageFree(f, p)
  }

  ghost function PagesOf(o: nat, i: nat): (s: set<nat>)
    ensures forall p: nat :: p in s <==> In(p, o, i)
    ensures |s| == Pow2(o)
  {
    var s := Interval(i * Pow2(o), (i + 1) * Pow2(o));
    assert forall p: nat :: p in s <==> In(p, o, i) by {
      forall p: nat ensures p in s <==> In(p, o, i) { ShrRange(p, o, i); }
    }
    MulNext(i, Pow2(o));
    s
  }

  lemma CountGains(f: FreeMap, g: FreeMap, o: nat, i: nat)
    requires Shape(f) && Shape(g) && Gains(f, g, o, i) && NoneFree(f, o, i)
    ensures FreePages(g) == FreePages(f) + PagesOf(o, i)
    ensures |FreePages(g)| == |FreePages(f)| + Pow2(o)
  {
    assert FreePages(g) == FreePages(f) + PagesOf(o, i);
    assert FreePages(f) !! PagesOf(o, i);
  }

  lemma CountLoses(f: FreeMap, g: FreeMap, o: nat, i: nat)
    requires Shape(f) && Shape(g) && Loses(f, g, o, i) && AllFree(f, o, i)
    ensures FreePages(g) == FreePages(f) - PagesOf(o, i)
    ensures |FreePages(g)| == |FreePages(f)| - Pow2(o)
  {
    assert FreePages(f) == FreePages(g) + PagesOf(o, i);
    assert FreePages(g) !! PagesOf(o, i);
  }

  // ---- The buddy of a page, computed with exclusive or --------------------------------

  function Xor(a: nat, b: nat): nat {
    if a == 0 && b == 0 then 0 else 2 * Xor(a / 2, b / 2) + (a + b) % 2
  }

  lemma {:induction false} XorZero(a: nat)
    ensures Xor(a, 0) == a
  {
    if a > 0 { XorZero(a / 2); }
  }

  lemma XorDouble(a: nat, b: nat)
    ensures Xor(2 * a, 2 * b) == 2 * Xor(a, b)
  {
    assert (2 * a) / 2 == a && (2 * b) / 2 == b && (2 * a + 2 * b) % 2 == 0;
    if a + b > 0 { assert Xor(2 * a, 2 * b) == 2 * Xor((2 * a) / 2, (2 * b) / 2) + (2 * a + 2 * b) % 2; }
  }

  /** Flipping bit o of the first page of a block gives the first page of its buddy. */
  lemma {:induction false} XorIsBuddy(o: nat, i: nat)
    ensures Xor(FirstPage(o, i), Pow2(o)) == FirstPage(o, BuddyIndex(i))
  {
    if o == 0 {
      XorZero(i / 2);
    } else {
      XorIsBuddy(o - 1, i);
      MulTwice(i, Pow2(o - 1));
      MulTwice(BuddyIndex(i), Pow2(o - 1));
      XorDouble(FirstPage(o - 1, i), Pow2(o - 1));
    }
  }

  lemma BuddyOrder(o: nat, i: nat)
    ensures FirstPage(o, BuddyIndex(i)) < FirstPage(o, i) <==> i % 2 == 1
    ensures FirstPage(o + 1, i / 2) == if i % 2 == 0 then FirstPage(o, i) else FirstPage(o, BuddyIndex(i))
  {
    MulNext(i, Pow2(o));
    assert (i - 1) * Pow2(o) == i * Pow2(o) - Pow2(o);
    assert (i / 2) * Pow2(o + 1) == (2 * (i / 2)) * Pow2(o);
  }

  lemma BuddyInMap(f: FreeMap, o: nat, i: nat)
    requires Shape(f) && o < PAGE_ORDER_MAX && InMap(f, o, i)
    ensures InMap(f, o, BuddyIndex(i)) && InMap(f, o + 1, i / 2)
  {
    assert |f[o]| == 2 * |f[o + 1]|;
  }

  // ---- Free lists -----------------------------------------------------------------

  /** The free list of order o holds exactly the first pages of the blocks marked in the bitmap. */
  ghost predicate ListMatches(l: seq<nat>, bits: seq<bool>, o: nat) {
    && NoDup(l)
    && (forall p :: p in l ==> p == FirstPage(o, Shr(p, o)) && Shr(p, o) < |bits| && bits[Shr(p, o)])
    && (forall i :: 0 <= i < |bits| && bits[i] ==> FirstPage(o, i) in l)
  }

  ghost predicate Linked(lists: seq<seq<nat>>, f: FreeMap) {
    && |lists| == |f|
    && forall o :: 0 <= o < |f| ==> ListMatches(lists[o], f[o], o)
  }

  lemma AddMatches(l: seq<nat>, bits: seq<bool>, o: nat, i: nat)
    requires ListMatches(l, bits, o) && i < |bits| && !bits[i]
    ensures ListMatches([FirstPage(o, i)] + l, bits[i := true], o)
  {
    FirstPageUp(o, i);
    assert FirstPage(o, i) !in l;
  }

  lemma RemoveMatches(l: seq<nat>, bits: seq<bool>, o: nat, i: nat)
    requires ListMatches(l, bits, o) && i < |bits| && bits[i]
    ensures ListMatches(Remove(l, FirstPage(o, i)), bits[i := false], o)
  {
    var p := FirstPage(o, i);
    FirstPageUp(o, i);
    RemoveNoDup(l, p);
    forall j | 0 <= j < |bits| && j != i && bits[j] ensures FirstPage(o, j) in Remove(l, p) {
      FirstPageUp(o, j);
    }
  }

  /** The page is the first of a block of the given order. */
  ghost predicate Aligned(page: nat, order: nat) {
    page == FirstPage(order, Shr(page, order))
  }

  lemma AlignedIsMod(page: nat, order: nat)
    ensures Aligned(page, order) <==> page % Pow2(order) == 0
  {
    ShrIsDiv(page, order);
  }

  /** Bitmaps of k + 1 orders with no bit set; the one of the highest order has m bits. */
  function EmptyMap(k: nat, m: nat): (f: FreeMap)
    ensures |f| == k + 1 && |f[k]| == m
    ensures forall o :: 0 <= o < k ==> |f[o]| == 2 * |f[o + 1]|
    ensures forall o, i :: !IsFree(f, o, i)
  {
    if k == 0 then [seq(m, i => false)]
    else
      var rest := EmptyMap(k - 1, m);
      var first: seq<bool> := seq(2 * |rest[0]|, i => false);
      var f := [first] + rest;
      assert forall o, i :: IsFree(f, o, i) ==> o > 0 && IsFree(rest, o - 1, i);
      f
  }

  lemma EmptyCanonical(f: FreeMap)
    requires Shape(f) && forall o, i :: !IsFree(f, o, i)
    ensures Canonical(f) && FreePages(f) == {}
  {
    assert forall p: nat, o: nat :: !FreeAt(f, p, o);
    assert forall p: nat :: !PageFree(f, p);
    assert forall o: nat, j: nat :: !ChildrenFree(f, o, j);
  }

  // ---- The allocator ---------------------------------------------------------------

  class PageAllocator {
    var lists: seq<seq<nat>>
    var bitmap: FreeMap
    var freeCount: nat

    ghost predicate Consistent()
      reads this
    {
      Shape(bitmap) && Linked(lists, bitmap)
    }

    ghost predicate Valid()
      reads this
    {
      Consistent() && Canonical(bitmap) && freeCount == |FreePages(bitmap)|
    }

    /** All memory starts out in use; the boot code then frees regions of it. */
    constructor (maxBlocks: nat)
      ensures Valid() && |bitmap[PAGE_ORDER_MAX]| == maxBlocks
      ensures FreePages(bitmap) == {}
    {
      lists := seq(PAGE_ORDER_MAX + 1, o => []);
      bitmap := EmptyMap(PAGE_ORDER_MAX, maxBlocks);
      freeCount := 0;
      new;
      EmptyCanonical(bitmap);
      assert forall o, i :: 0 <= o < |bitmap| && 0 <= i < |bitmap[o]| ==> bitmap[o][i] == IsFree(bitmap, o, i);
    }

    method Contains(page: nat, order: nat) returns (b: bool)
      requires InMap(bitmap, order, Shr(page, order))
      ensures b <==> IsFree(bitmap, order, Shr(page, order))
    {
      ShrIsDiv(page, order);
      var idx := page / Pow2(order);
      b := bitmap[order][idx];
    }

    /** Put a block on the front of its free list; both assertions of the source are preconditions. */
    method ListAdd(page: nat, order: nat)
      requires Consistent() && Aligned(page, order)
      requires InMap(bitmap, order, Shr(page, order)) && !IsFree(bitmap, order, Shr(page, order))
      modifies this`lists, this`bitmap
      ensures Consistent()
      ensures lists == old(lists)[order := [page] + old(lists)[order]]
      ensures bitmap == Mark(old(bitmap), order, Shr(page, order), true)
    {
      ShrIsDiv(page, order);
      var mapIdx := page / Pow2(order);
      AddMatches(lists[order], bitmap[order], order, mapIdx);
      lists := lists[order := [page] + lists[order]];
      bitmap := bitmap[order := bitmap[order][mapIdx := true]];
    }

    method ListRemove(page: nat, order: nat)
      requires Consistent() && Aligned(page, order) && IsFree(bitmap, order, Shr(page, order))
      modifies this`lists, this`bitmap
      ensures Consistent()
      ensures lists == old(lists)[order := Remove(old(lists)[order], page)]
      ensures bitmap == Mark(old(bitmap), order, Shr(page, order), false)
    {
      ShrIsDiv(page, order);
      var mapIdx := page / Pow2(order);
      RemoveMatches(lists[order], bitmap[order], order, mapIdx);
      lists := lists[order := Remove(lists[order], page)];
      bitmap := bitmap[order := bitmap[order][mapIdx := false]];
    }

    /** The smallest order from the requested one upwards whose free list is not empty. */
    method FindOrder(order: nat) returns (o: nat)
      requires Valid()
      ensures order <= o
      ensures o <= PAGE_ORDER_MAX ==> lists[o] != []
      ensures order <= PAGE_ORDER_MAX < o ==> !HasFreeRun(bitmap, order)
      ensures forall x, i :: order <= x < o ==> !IsFree(bitmap, x, i)
      ensures forall x :: order <= x < o && x <= PAGE_ORDER_MAX ==> lists[x] == []
    {
      o := order;
      while o <= PAGE_ORDER_MAX && lists[o] == []
        invariant order <= o
        invariant forall o', i :: order <= o' < o ==> !IsFree(bitmap, o', i)
        invariant forall x :: order <= x < o && x <= PAGE_ORDER_MAX ==> lists[x] == []
        decreases PAGE_ORDER_MAX - o
      {
        assert ListMatches(lists[o], bitmap[o], o);
        o := o + 1;
      }
      if order <= PAGE_ORDER_MAX { Completeness(bitmap, order); }
    }

    /** Cut the block that starts at `page` down to the given order, freeing the left halves. */
    method SplitDown(page: nat, o: nat, ghost i: nat, order: nat) returns (rest: nat)
      requires Consistent() && order <= o <= PAGE_ORDER_MAX
      requires InMap(bitmap, o, i) && page == FirstPage(o, i)
      requires NoneMarked(bitmap, o, i, order)
      modifies this`lists, this`bitmap
      ensures Consistent()
      ensures (bitmap, Shr(rest, order)) == Split(old(bitmap), o, i, order)
      ensures Aligned(rest, order)
    {
      hide FirstPage, Shr, ListMatches, Split, NoneMarked, Pow2;
      rest := page;
      var k := o;
      ghost var j := i;
      while k > order
        invariant order <= k <= o && Consistent()
        invariant InMap(bitmap, k, j) && rest == FirstPage(k, j)
        invariant NoneMarked(bitmap, k, j, order)
        invariant Split(bitmap, k, j, order) == Split(old(bitmap), o, i, order)
      {
        k := k - 1;
        HalfFirst(k, j);
        FirstPageUp(k, 2 * j);
        NoneMarkedStep(bitmap, k, j, order);
        SplitOnce(bitmap, k, j, order);
        ListAdd(rest, k);
        rest := rest + Pow2(k);
        j := 2 * j + 1;
      }
      FirstPageUp(order, j);
      SplitDone(bitmap, order, j);
    }

    /** Take the first block of order o off its list and cut it down; its last part is handed out. */
    method TakeBlock(o: nat, order: nat) returns (page: nat)
      requires Valid() && order <= o <= PAGE_ORDER_MAX && lists[o] != []
      modifies this
      ensures Valid() && |bitmap[0]| == |old(bitmap)[0]|
      ensures Aligned(page, order)
      ensures AllFree(old(bitmap), order, Shr(page, order))
      ensures Loses(old(bitmap), bitmap, order, Shr(page, order))
      ensures freeCount == old(freeCount) - Pow2(order)
      ensures page == old(lists)[o][0] + Pow2(o) - Pow2(order)
      ensures forall x: nat, j: nat :: x > o ==> (IsFree(bitmap, x, j) <==> IsFree(old(bitmap), x, j))
    {
      hide FirstPage, Shr, Disjoint, Coalesced, ListMatches, Loses, AllFree, Split, NoneMarked;
      page := lists[o][0];
      ghost var f, i := bitmap, Shr(page, o);
      HeadIsFree(lists[o], bitmap[o], o);
      TakeCorrect(f, o, i, order);
      NoneMarkedIn(f, o, i, order);
      ListRemove(page, o);
      SplitLast(bitmap, o, i, order);
      page := SplitDown(page, o, i, order);
      CountLoses(f, bitmap, order, Shr(page, order));
      freeCount := freeCount - Pow2(order);
    }

    /**
     * Hand out a block of the given order.  It fails (where the source panics) exactly when
     * no aligned run of that size is entirely free, or the order is above the maximum.  It comes
     * from a smallest block that will do, so larger ones are spared: the first of its list, if one
     * of the very order is free.
     */
    method AllocBlock(order: nat) returns (r: Option<nat>)
      requires Valid()
      modifies this
      ensures Valid() && |bitmap[0]| == |old(bitmap)[0]|
      ensures r.None? <==> order > PAGE_ORDER_MAX || !HasFreeRun(old(bitmap), order)
      ensures r.None? ==> lists == old(lists) && bitmap == old(bitmap) && freeCount == old(freeCount)
      ensures r.Some? ==>
        && Aligned(r.value, order)
        && AllFree(old(bitmap), order, Shr(r.value, order))
        && Loses(old(bitmap), bitmap, order, Shr(r.value, order))
        && freeCount == old(freeCount) - Pow2(order)
      ensures SparesLarger(old(bitmap), bitmap, order)
      ensures order <= PAGE_ORDER_MAX && old(lists)[order] != [] ==> r == Some(old(lists)[order][0])
      ensures r.Some? ==> exists o: nat ::
        order <= o <= PAGE_ORDER_MAX && old(lists)[o] != [] && r.value == old(lists)[o][0] + Pow2(o) - Pow2(order) &&
          forall x :: order <= x < o ==> old(lists)[x] == []
      ensures forall o: nat, j: nat, o': nat ::
        order <= o < o' <= PAGE_ORDER_MAX && IsFree(old(bitmap), o, j) && HasFreeRun(old(bitmap), o') ==>
          HasFreeRun(bitmap, o')
    {
      var o := FindOrder(order);
      if o > PAGE_ORDER_MAX {
        return None;
      }
      ghost var f := bitmap;
      var page := TakeBlock(o, order);
      hide IsFree, Canonical, HasFreeRun, AllFree, Loses;
      Spared(f, bitmap, order);
      return Some(page);
    }

    /** Merge the block with its buddy as long as the buddy is free; the result is on no list. */
    method Coalesce(page: nat, order: nat) returns (p: nat, o: nat)
      requires Consistent() && Canonical(bitmap) && Aligned(page, order)
      requires InMap(bitmap, order, Shr(page, order)) && NoneFree(bitmap, order, Shr(page, order))
      modifies this`lists, this`bitmap
      ensures Consistent() && Aligned(p, o)
      ensures InMap(bitmap, o, Shr(p, o)) && !IsFree(bitmap, o, Shr(p, o))
      ensures Mark(bitmap, o, Shr(p, o), true) == Merge(old(bitmap), order, Shr(page, order))
    {
      hide FirstPage, Shr, ListMatches, Disjoint, Coalesced, NoneFree;
      p, o := page, order;
      ghost var i := Shr(page, order);
      while o < PAGE_ORDER_MAX
        invariant order <= o <= PAGE_ORDER_MAX && Consistent()
        invariant InMap(bitmap, o, i) && p == FirstPage(o, i)
        invariant Canonical(bitmap) && NoneFree(bitmap, o, i)
        invariant Merge(bitmap, o, i) == Merge(old(bitmap), order, Shr(page, order))
      {
        var buddy := Xor(p, Pow2(o));
        XorIsBuddy(o, i);
        FirstPageUp(o, BuddyIndex(i));
        BuddyInMap(bitmap, o, i);
        var free := Contains(buddy, o);
        if !free {
          break;
        }
        MergeStep(bitmap, o, i, BuddyIndex(i), Mark(bitmap, o, BuddyIndex(i), false));
        ListRemove(buddy, o);
        BuddyOrder(o, i);
        if buddy < p { p := buddy; }
        o := o + 1;
        i := i / 2;
      }
      FirstPageUp(o, i);
      FreeNotNone(bitmap, o, i);
    }

    /** Return a block none of whose pages is free, merging it with free buddies. */
    method FreeBlock(page: nat, order: nat)
      requires Valid() && Aligned(page, order)
      requires InMap(bitmap, order, Shr(page, order)) && NoneFree(bitmap, order, Shr(page, order))
      modifies this
      ensures Valid() && |bitmap[0]| == |old(bitmap)[0]|
      ensures bitmap == Merge(old(bitmap), order, Shr(page, order))
      ensures Gains(old(bitmap), bitmap, order, Shr(page, order))
      ensures freeCount == old(freeCount) + Pow2(order)
    {
      ghost var f := bitmap;
      MergeCorrect(f, order, Shr(page, order));
      var p, o := Coalesce(page, order);
      ListAdd(p, o);
      CountGains(f, bitmap, order, Shr(page, order));
      freeCount := freeCount + Pow2(order);
    }

    /** Allocate a single page; only an exhausted allocator refuses. */
    method AllocOne() returns (r: Option<nat>)
      requires Valid()
      modifies this
      ensures Valid() && |bitmap[0]| == |old(bitmap)[0]|
      ensures r.None? <==> FreePages(old(bitmap)) == {}
      ensures r.None? ==> bitmap == old(bitmap)
      ensures r.Some? ==> r.value in FreePages(old(bitmap)) && FreePages(bitmap) == FreePages(old(bitmap)) - {r.value}
    {
      SinglePages(bitmap);
      r := AllocBlock(0);
      if r.Some? { assert In(r.value, 0, r.value); }
    }

    method FreeOne(page: nat)
      requires Valid() && page < |bitmap[0]| && page !in FreePages(bitmap)
      modifies this
      ensures Valid() && |bitmap[0]| == |old(bitmap)[0]|
      ensures FreePages(bitmap) == FreePages(old(bitmap)) + {page}
    {
      FreeBlock(page, 0);
    }

    /** The largest block that starts at page `idx`, is aligned and ends by `last`. */
    static method LargestBlock(idx: nat, last: nat) returns (order: nat, length: nat)
      requires idx < last
      ensures order <= PAGE_ORDER_MAX && length == Pow2(order)
      ensures idx % Pow2(order) == 0 && idx + Pow2(order) <= last
      ensures forall o: nat :: order < o <= PAGE_ORDER_MAX ==> !(idx % Pow2(o) == 0 && idx + Pow2(o) <= last)
    {
      order, length := PAGE_ORDER_MAX, Pow2(PAGE_ORDER_MAX);
      while order > 0 && !(idx % length == 0 && idx + length <= last)
        invariant order <= PAGE_ORDER_MAX && length == Pow2(order)
        invariant forall o: nat :: order < o <= PAGE_ORDER_MAX ==> !(idx % Pow2(o) == 0 && idx + Pow2(o) <= last)
      {
        length := length / 2;
        order := order - 1;
      }
    }

    /** Free every whole page between two physical addresses, and nothing else. */
    method FreeRegion(start: nat, end: nat)
      requires Valid() && end / PAGE_SIZE <= |bitmap[0]|
      requires forall p: nat :: (start + PAGE_SIZE - 1) / PAGE_SIZE <= p < end / PAGE_SIZE ==> !PageFree(bitmap, p)
      modifies this
      ensures Valid() && |bitmap[0]| == |old(bitmap)[0]|
      ensures forall p: nat :: PageFree(bitmap, p) <==>
        PageFree(old(bitmap), p) || start <= p * PAGE_SIZE < (p + 1) * PAGE_SIZE <= end
    {
      var first := (start + PAGE_SIZE - 1) / PAGE_SIZE;
      var idx, last := first, end / PAGE_SIZE;
      while idx < last
        invariant Valid() && |bitmap[0]| == |old(bitmap)[0]|
        invariant first <= idx && (idx <= last || idx == first)
        invariant forall p: nat :: PageFree(bitmap, p) <==> PageFree(old(bitmap), p) || first <= p < idx
      {
        var order, length := LargestBlock(idx, last);
        AlignedIsMod(idx, order);
        BlockRun(idx, order);
        BlockFits(bitmap, idx, order);
        FreeBlock(idx, order);
        idx := idx + length;
      }
      assert forall p: nat :: first <= p < last <==> start <= p * PAGE_SIZE < (p + 1) * PAGE_SIZE <= end;
    }
  }

  lemma SinglePages(f: FreeMap)
    requires Shape(f)
    ensures HasFreeRun(f, 0) <==> FreePages(f) != {}
  {
    forall p: nat ensures PageFree(f, p) <==> AllFree(f, 0, p) { assert In(p, 0, p); }
    if p :| p in FreePages(f) { assert AllFree(f, 0, p); }
  }

  /** An aligned block is the run of pages that starts at its first page. */
  lemma BlockRun(page: nat, order: nat)
    requires Aligned(page, order)
    ensures forall p: nat :: In(p, order, Shr(page, order)) <==> page <= p < page + Pow2(order)
  {
    var i := Shr(page, order);
    MulNext(i, Pow2(order));
    forall p: nat ensures In(p, order, i) <==> page <= p < page + Pow2(order) { ShrRange(p, order, i); }
  }

  lemma BlockFits(f: FreeMap, page: nat, order: nat)
    requires Shape(f) && order <= PAGE_ORDER_MAX && Aligned(page, order) && page + Pow2(order) <= |f[0]|
    ensures InMap(f, order, Shr(page, order))
  {
    var i := Shr(page, order);
    ShapeLength(f, order);
    MulNext(i, Pow2(order));
    MulCancel(i, |f[order]|, Pow2(order));
  }

  /** No left half that is split off block (o, i) on the way down to order k is marked free. */
  ghost predicate NoneMarked(f: FreeMap, o: nat, i: nat, k: nat)
    decreases o
  {
    o > k ==> !IsFree(f, o - 1, 2 * i) && NoneMarked(f, o - 1, 2 * i + 1, k)
  }

  lemma NoneMarkedStep(f: FreeMap, o: nat, i: nat, k: nat)
    requires NoneMarked(f, o + 1, i, k) && k <= o && InMap(f, o, 2 * i)
    ensures !IsFree(f, o, 2 * i) && NoneMarked(Mark(f, o, 2 * i, true), o, 2 * i + 1, k)
  {
    NoneMarkedFrame(f, Mark(f, o, 2 * i, true), o, 2 * i + 1, k);
  }

  lemma {:induction false} NoneMarkedFrame(f: FreeMap, g: FreeMap, o: nat, i: nat, k: nat)
    requires NoneMarked(f, o, i, k)
    requires forall o', j :: o' < o && IsFree(g, o', j) ==> IsFree(f, o', j)
    ensures NoneMarked(g, o, i, k)
    decreases o
  {
    if o > k { NoneMarkedFrame(f, g, o - 1, 2 * i + 1, k); }
  }

  /** A free block has no free descendant. */
  lemma {:induction false} NoneMarkedIn(f: FreeMap, o: nat, i: nat, k: nat)
    requires Disjoint(f) && IsFree(f, o, i) && k <= o
    ensures NoneMarked(Mark(f, o, i, false), o, i, k)
  {
    NoneMarkedUnder(f, o, i, 0, i, k);
    NoneMarkedFrame(f, Mark(f, o, i, false), o, i, k);
  }

  lemma {:induction false} NoneMarkedUnder(f: FreeMap, top: nat, i: nat, d: nat, j: nat, k: nat)
    requires Disjoint(f) && IsFree(f, top, i) && k + d <= top && Shr(j, d) == i
    ensures NoneMarked(f, top - d, j, k)
    decreases top - d
  {
    if top - d > k {
      assert Shr(2 * j, d + 1) == Shr(2 * j + 1, d + 1) == i;
      if IsFree(f, top - d - 1, 2 * j) { NoFreeAncestor(f, top - d - 1, 2 * j, d + 1); assert false; }
      NoneMarkedUnder(f, top, i, d + 1, 2 * j + 1, k);
    }
  }

  lemma HeadIsFree(l: seq<nat>, bits: seq<bool>, o: nat)
    requires ListMatches(l, bits, o) && l != []
    ensures l[0] == FirstPage(o, Shr(l[0], o)) && Shr(l[0], o) < |bits| && bits[Shr(l[0], o)]
  {
    assert l[0] in l;
  }

  /** SparesRuns for all orders. */
  lemma Spared(f: FreeMap, g: FreeMap, order: nat)
    requires Canonical(f) && Canonical(g) && SparesLarger(f, g, order)
    ensures forall o: nat, j: nat, o': nat ::
      order <= o < o' <= PAGE_ORDER_MAX && IsFree(f, o, j) && HasFreeRun(f, o') ==> HasFreeRun(g, o')
  {
    hide Canonical, HasFreeRun, IsFree, SparesLarger;
    forall o: nat, j: nat, o': nat | order <= o < o' <= PAGE_ORDER_MAX && IsFree(f, o, j) && HasFreeRun(f, o')
      ensures HasFreeRun(g, o')
    {
      SparesRuns(f, g, order, o, j, o');
    }
  }

  lemma HalfFirst(o: nat, i: nat)
    ensures FirstPage(o + 1, i) == FirstPage(o, 2 * i)
    ensures FirstPage(o, 2 * i) + Pow2(o) == FirstPage(o, 2 * i + 1)
  {
    MulTwice(i, Pow2(o));
    MulNext(2 * i, Pow2(o));
  }
}
