/** The inode operations that walk, extend and cut the block tree, working in place. */
module Ext2Inode {
  import opened Arith
  import Ext2Alloc
  import opened Ext2Tree
  import opened Paths

  datatype Snapshot = Snapshot(im: Image, used: set<nat>, total: nat, blocks: nat, dirty: bool)

  /** Blocks in use and blocks counted as free add up to the same. */
  ghost predicate Balanced(s: Snapshot, t: Snapshot) {
    s.total + |s.used| == t.total + |t.used|
  }

  class Inode {
    /** Block numbers per block, and the amount one block adds to the `blocks` field. */
    const S: nat
    const inc: nat
    /** Blocks this user may not have; none for the superuser. */
    const reserved: nat
    /** The end of the blocks that the allocator searches. */
    const reach: nat

    var root: seq<nat>
    var blocks: nat
    var dirty: bool
    var disk: seq<seq<nat>>
    /** Blocks marked in the block bitmaps, and the superblock's count of free ones; see AllocTogether. */
    var used: set<nat>
    var total: nat

    constructor (logBlockSize: nat, device: seq<seq<nat>>, inUse: set<nat>, count: nat, searched: nat, reserve: nat)
      requires forall b :: 0 <= b < |device| ==> |device[b]| == Pow2(8 + logBlockSize)
      requires 0 in inUse && |device| > 0 && searched <= |device|
      ensures Valid() && S == Pow2(8 + logBlockSize) && inc == 2 * Pow2(logBlockSize)
      ensures disk == device && used == inUse && root == ZeroBlock(SLOTS)
      ensures total == count && reach == searched && reserved == reserve
    {
      S := Pow2(8 + logBlockSize);
      inc := 2 * Pow2(logBlockSize);
      reserved, reach := reserve, searched;
      root := ZeroBlock(SLOTS);
      blocks := 0;
      dirty := false;
      disk := device;
      used, total := inUse, count;
      new;
      EmptyTree(S, Im());
      assert Blocks(S, Im()) == {};
    }

    ghost function Im(): Image
      reads this`root, this`disk
    {
      Image(root, disk)
    }

    /** The tree owns its blocks and the `blocks` field counts them. */
    ghost predicate Valid()
      reads this
    {
      S > 0 && |disk| > 0 && reach <= |disk| && Owned(S, Im(), used) && 0 in used && blocks == inc * |Blocks(S, Im())|
    }

    /** The allocator grants no block: none is counted as free, only reserved ones are, or none is found. */
    predicate Exhausted()
      reads this`used, this`total
    {
      Ext2Alloc.Grant(used, reach, total, reserved).None?
    }

    /** The block that the allocator grants, now in use and zeroed. */
    method BlockAlloc() returns (r: Option<nat>)
      requires reach <= |disk|
      modifies this`used, this`total, this`disk
      ensures r == Ext2Alloc.Grant(old(used), reach, old(total), reserved)
      ensures r.None? ==> used == old(used) && total == old(total) && disk == old(disk)
      ensures r.Some? ==>
        && used == old(used) + {r.value} && total == old(total) - 1 && disk == old(disk)[r.value := ZeroBlock(S)]
    {
      r := Ext2Alloc.Grant(used, reach, total, reserved);
      if r.Some? {
        used := used + {r.value};
        total := total - 1;
        disk := disk[r.value := ZeroBlock(S)];
      }
    }

    /** Clear the bit of a block; the source panics if it is not set. */
    method BlockFree(id: nat)
      requires id in used
      modifies this`used, this`total
      ensures used == old(used) - {id} && total == old(total) + 1
    {
      used := used - {id};
      total := total + 1;
    }

    /** Hang a fresh block into the empty slot that path p names. */
    method Attach(top: bool, b: nat, idx: nat, ghost p: Path) returns (id: nat)
      requires Valid() && ValidPath(S, p) && idx == Last(p) && (top <==> |p| == 1)
      requires !top ==> b == Parent(S, Im(), p) && 0 < b < |disk|
      requires Walk(S, Im(), p) == 0
      modifies this
      ensures Valid() && Renamed(S, old(Im()), Im(), p, id) && id < |disk|
      ensures id == 0 <==> old(Exhausted())
      ensures id == 0 ==> Now() == old(Now())
      ensures id != 0 ==> id !in old(used) && disk[id] == ZeroBlock(S) && dirty
      ensures used == old(used) + {id} && Balanced(old(Now()), Now())
      ensures forall x :: 0 <= x < |disk| && x in old(used) && (top || x != b) ==> disk[x] == old(disk)[x]
    {
      hide Walk, Owned, Blocks, Renamed;
      SlotPlace(S, Im(), used, p, b);
      var r := BlockAlloc();
      if r.None? {
        RenamedSame(S, Im(), used, p);
        return 0;
      }
      id := r.value;
      if top {
        root := root[idx := id];
      } else {
        var block: seq<nat> := disk[b][idx := id];
        disk := disk[b := block];
      }
      assert Im() == Store(old(Im()).(disk := old(disk)[id := ZeroBlock(S)]), Parent(S, old(Im()), p), p, id);
      hide Store, Parent;
      InstallRenames(S, old(Im()), old(used), p, id, Im());
      GrowOwned(S, old(Im()), old(used), p, id, Im());
      MulNext(|old(Blocks(S, Im()))|, inc);
      blocks := blocks + inc;
      dirty := true;
    }

    /**
     * Read the slot that path p names; if it is empty and allocation is asked for, hang a fresh
     * block into it.  `top` slots are in the inode, the others in indirect block b.
     */
    method Resolve(top: bool, b: nat, idx: nat, alloc: bool, ghost p: Path) returns (id: nat)
      requires Valid() && ValidPath(S, p) && idx == Last(p) && (top <==> |p| == 1)
      requires !top ==> b == Parent(S, Im(), p) && 0 < b < |disk|
      modifies this
      ensures Valid() && Renamed(S, old(Im()), Im(), p, id) && id < |disk|
      ensures !alloc || old(Walk(S, Im(), p)) != 0 ==> id == old(Walk(S, Im(), p)) && Now() == old(Now())
      ensures id != old(Walk(S, Im(), p)) ==> id !in old(used) && disk[id] == ZeroBlock(S) && dirty
      ensures alloc && id == 0 ==> Exhausted()
      ensures used == old(used) + {id} && Balanced(old(Now()), Now())
      ensures forall x :: 0 <= x < |disk| && x in old(used) && (top || x != b) ==> disk[x] == old(disk)[x]
    {
      id := if top then root[idx] else disk[b][idx];
      assert id == Walk(S, Im(), p);
      if id == 0 && alloc {
        id := Attach(top, b, idx, p);
      }
    }

    /** Give back the block that path p names and clear its slot; nothing hangs below it. */
    method Detach(top: bool, b: nat, idx: nat, id: nat, ghost p: Path)
      requires Valid() && ValidPath(S, p) && idx == Last(p) && (top <==> |p| == 1)
      requires !top ==> b == Parent(S, Im(), p) && 0 < b < |disk|
      requires id == Walk(S, Im(), p) != 0
      requires forall q :: ValidPath(S, q) && p < q ==> Walk(S, Im(), q) == 0
      modifies this
      ensures Valid() && Renamed(S, old(Im()), Im(), p, 0) && Removed(S, old(Now()), Now())
    {
      hide Walk, Owned, Blocks, Removed;
      OwnedShape(S, Im(), used);
      ghost var s, n := Now(), |Blocks(S, Im())|;
      DetachEffect(S, s, b, id, p);
      MulNext(n - 1, inc);
      BlockFree(id);
      blocks := blocks - inc;
      if top {
        root := root[idx := 0];
      } else {
        var block: seq<nat> := disk[b][idx := 0];
        disk := disk[b := block];
      }
      assert Im() == Store(s.im, b, p, 0);
    }

    /** The slot that offset i falls into, the offset below it, and the offset of the next slot. */
    static method SlotAt(i: nat, unit: nat) returns (j: nat, off: nat, next: nat)
      requires unit > 0
      ensures i == j * unit + off && off < unit && next == (j + 1) * unit && j * unit <= i < (j + 1) * unit
    {
      NextMultiple(i, unit, i / unit);
      j, off, next := i / unit, i % unit, i + unit - (i + unit) % unit;
    }

    /** The index into an indirect block at one level, and the unit of the level below. */
    method IndexAt(m: nat, u: nat, ghost r: nat, ghost k: nat) returns (idx: nat, next: nat)
      requires S > 0 && r < SLOTS && k < Levels(r) && u == Cap(S, Levels(r) - k - 1)
      ensures idx == Last(Towards(S, r, m, k + 1))
      ensures k + 1 < Levels(r) ==> next == Cap(S, Levels(r) - k - 2)
    {
      TowardsStep(S, r, m, k);
      hide Towards;
      DivNat(m, u);
      DivNat(u, S);
      idx := (m / u) % S;
      if k + 1 < Levels(r) { CapDivides(S, Levels(r) - k - 1); }
      hide Cap;
      next := u / S;
    }

    /** The loop over the slots of indirect block `id`, the first of them possibly cut in part. */
    method TruncChildren(id: nat, d: nat, to: nat, ghost s: Snapshot, ghost p: Path)
      requires Valid() && s == Now() && ValidPath(S, p) && d == Rest(S, p) > 0 && to < Cap(S, d)
      requires id == Walk(S, Im(), p) && 0 < id < |disk|
      modifies this
      ensures Valid() && Removed(S, s, Now())
      ensures CutBelow(S, s.im, Im(), p, First(S, p) + to, First(S, p) + Cap(S, d))
      decreases d, 0
    {
      hide Walk, Cut, CutBelow, Removed, Owned, First, Blocks, Balanced;
      OwnedShape(S, Im(), used);
      ghost var base := First(S, p);
      var unit := Cap(S, d - 1);
      var i := to;
      assert Cap(S, d) == S * unit;
      RemovedNone(S, s);
      NoBelow(S, s.im, p, base + to, base + to);
      while i < unit * S
        invariant to <= i <= unit * S
        invariant Valid() && Removed(S, s, Now()) && CutBelow(S, s.im, Im(), p, base + to, base + i)
      {
        var j, off, next := SlotAt(i, unit);
        ghost var mid := Now();
        OwnedShape(S, Im(), used);
        ChildSlot(S, s.im, Im(), p, base + to, base + i, id, j, unit, i);
        TruncIndirect(false, id, j, d - 1, off, Child(p, j));
        CutStep(S, s.im, mid.im, Im(), p, base + to, i, j, unit);
        RemovedTrans(S, s, mid, Now());
        i := next;
      }
    }

    /**
     * Free what path p names from offset `to` of its range onwards: every node that starts there
     * or later, and no other.
     */
    method TruncIndirect(top: bool, b: nat, idx: nat, d: nat, to: nat, ghost p: Path)
      requires Valid() && ValidPath(S, p) && idx == Last(p) && (top <==> |p| == 1)
      requires !top ==> b == Parent(S, Im(), p) && 0 < b < |disk|
      requires d == Rest(S, p) && to < Cap(S, d)
      modifies this
      ensures Valid() && Cut(S, old(Im()), Im(), p, First(S, p) + to) && Removed(S, old(Now()), Now())
      decreases d
    {
      hide Walk, Cut, CutBelow, Removed, Owned, First;
      OwnedShape(S, Im(), used);
      var id := if top then root[idx] else disk[b][idx];
      SlotIsWalk(S, Im(), p, b, id);
      ghost var s, base := Now(), First(S, p);
      RemovedNone(S, s);
      if id == 0 {
        CutNothing(S, s.im, p, base + to);
        return;
      }
      OwnedBound(S, s.im, used, p);
      if d > 0 {
        TruncChildren(id, d, to, s, p);
      } else {
        NoBelow(S, s.im, p, base, base + Cap(S, d));
      }
      ghost var mid := Now();
      if to == 0 {
        OwnedShape(S, Im(), used);
        ChildrenGone(S, s.im, mid.im, p);
        StillThere(S, s.im, mid.im, p, base, base + Cap(S, d));
        Detach(top, b, idx, id, p);
        CutGoes(S, s.im, mid.im, Im(), p);
        RemovedTrans(S, s, mid, Now());
      } else {
        CutKeeps(S, s.im, mid.im, p, to);
      }
    }

    /** Free the direct blocks from `cur` up to the old end. */
    method TruncDirect(n: nat, end: nat, ghost s: Snapshot) returns (cur: nat)
      requires Valid() && s == Now()
      modifies this
      ensures Valid() && Removed(S, s, Now()) && CutSlots(S, s.im, Im(), n, end, DIRECT)
      ensures cur < end ==> cur == if n > DIRECT then n else DIRECT
      ensures n <= cur && (cur >= end ==> n >= end || DIRECT >= end)
    {
      hide Walk, Cut, CutSlots, Removed, Owned;
      OwnedShape(S, Im(), used);
      cur := n;
      RemovedNone(S, s);
      CutSlotsNone(S, s.im, n, end, if n < DIRECT then n else DIRECT);
      while cur < end && cur < DIRECT
        invariant n <= cur && (cur > n ==> cur <= DIRECT && cur <= end)
        invariant Valid() && Removed(S, s, Now())
        invariant CutSlots(S, s.im, Im(), n, end, if cur < DIRECT then cur else DIRECT)
      {
        ghost var mid := Now();
        TruncSlot(cur, n, end, mid, s);
        cur := cur + 1;
      }
      if cur < DIRECT {
        CutSlotsSkip(S, s.im, Im(), n, end, cur, DIRECT);
      }
    }

    method TruncSlot(i: nat, n: nat, end: nat, ghost mid: Snapshot, ghost s: Snapshot)
      requires Valid() && mid == Now() && i < DIRECT && n <= i < end
      requires Removed(S, s, mid) && CutSlots(S, s.im, mid.im, n, end, i)
      modifies this
      ensures Valid() && Removed(S, s, Now()) && CutSlots(S, s.im, Im(), n, end, i + 1)
    {
      hide Walk, CutSlots, Removed;
      if root[i] != 0 {
        assert root[i] == Walk(S, Im(), [i]) by { SlotIsWalk(S, Im(), [i], 0, root[i]); }
        NoBelow(S, Im(), [i], i, i + 1);
        ChildrenGone(S, Im(), Im(), [i]);
        Detach(true, 0, i, root[i], [i]);
        CutGoes(S, mid.im, mid.im, Im(), [i]);
        RemovedTrans(S, s, mid, Now());
      } else {
        SlotIsWalk(S, Im(), [i], 0, 0);
        CutNothing(S, Im(), [i], i);
      }
      CutSlotsStep(S, s.im, mid.im, Im(), n, end, i, i);
    }

    /** Cut the tree below one of the three indirect slots. */
    method TruncLevel(lvl: nat, start: nat, limit: nat, n: nat, end: nat, cur: nat,
                      ghost s: Snapshot) returns (next: nat)
      requires Valid() && lvl < 3 && start == Base(S, DIRECT + lvl) && limit == Cap(S, lvl + 1)
      requires n <= cur < end && cur == if n > start then n else start
      requires Removed(S, s, Now()) && CutSlots(S, s.im, Im(), n, end, DIRECT + lvl)
      modifies this
      ensures Valid() && Removed(S, s, Now()) && CutSlots(S, s.im, Im(), n, end, DIRECT + lvl + 1)
      ensures next == if cur < start + limit then start + limit else cur
    {
      hide Walk, Cut, CutSlots, Removed, Owned;
      ghost var mid := Now();
      if cur < start + limit {
        TruncIndirect(true, 0, DIRECT + lvl, lvl + 1, cur - start, [DIRECT + lvl]);
        CutSlotsStep(S, s.im, mid.im, Im(), n, end, DIRECT + lvl, cur);
        RemovedTrans(S, s, mid, Now());
        next := start + limit;
      } else {
        CutSlotsSkip(S, s.im, Im(), n, end, DIRECT + lvl, DIRECT + lvl + 1);
        next := cur;
      }
    }

    /** Shrink the file from `end` to n blocks. */
    method TruncBlocks(n: nat, end: nat)
      requires Valid()
      modifies this
      ensures Valid() && Removed(S, old(Now()), Now()) && Truncated(S, old(Im()), Im(), n, end)
    {
      hide Walk, CutSlots, Removed, Owned, Blocks;
      ghost var s := Now();
      var cur := TruncDirect(n, end, s);
      var lvl, start, limit := 0, DIRECT, S;
      assert Cap(S, 1) == S * Cap(S, 0);
      while lvl < 3 && cur < end
        invariant lvl <= 3 && n <= cur
        invariant start == Base(S, DIRECT + lvl) && limit == Cap(S, lvl + 1)
        invariant cur < end ==> cur == if n > start then n else start
        invariant cur >= end ==> n >= end || start >= end || lvl == 3
        invariant Valid() && Removed(S, s, Now()) && CutSlots(S, s.im, Im(), n, end, DIRECT + lvl)
      {
        cur := TruncLevel(lvl, start, limit, n, end, cur, s);
        start := start + limit;
        limit := limit * S;
        lvl := lvl + 1;
      }
      if lvl < 3 {
        CutSlotsSkip(S, s.im, Im(), n, end, DIRECT + lvl, SLOTS);
      }
    }

    /**
     * Shrink the file to `length` bytes.  Afterwards the tree is the old one without the nodes
     * that start at or past the new length, in every slot that begins before the old end;
     * exactly the blocks that left the tree were given back.  In bytes: what lies below the new
     * length keeps its block, and no block past it is mapped if none past the old size was.
     */
    method Trunc(length: nat, size: nat, blockSize: nat)
      requires Valid() && blockSize > 0
      modifies this
      ensures Valid() && Removed(S, old(Now()), Now())
      ensures Truncated(S, old(Im()), Im(), Ceil(length, blockSize), Ceil(size, blockSize))
      ensures KeepsBytes(S, old(Im()), Im(), length, blockSize)
      ensures EmptyFrom(S, old(Im()), size, blockSize) ==> EmptyFrom(S, Im(), length, blockSize)
    {
      ValidShape();
      hide Valid, Truncated, Removed, Block, Limit, Shaped, KeepsBytes, EmptyFrom;
      DivNat(length + blockSize - 1, blockSize);
      DivNat(size + blockSize - 1, blockSize);
      TruncBlocks((length + blockSize - 1) / blockSize, (size + blockSize - 1) / blockSize);
      ValidShape();
      TruncatedBytes(S, old(Im()), Im(), length, size, blockSize);
    }

    lemma ValidShape()
      requires Valid()
      ensures S > 0 && Shaped(S, Im())
    {
    }

    /** Find the level of indirection: the slot of the inode and the offset below it. */
    method FindLevel(n: nat) returns (lvl: nat, m: nat, unit: nat)
      requires S > 0 && n >= DIRECT
      ensures lvl <= 3 && (lvl == 3 <==> n >= Limit(S))
      ensures lvl < 3 ==> SlotOf(S, n) == DIRECT + lvl && m == n - Base(S, DIRECT + lvl) && unit == Cap(S, lvl)
      ensures lvl < 3 ==> m < Cap(S, lvl + 1)
    {
      m, lvl, unit := n - DIRECT, 0, 1;
      var limit := S;
      assert Cap(S, 1) == S * Cap(S, 0);
      while lvl < 3 && m >= limit
        invariant lvl <= 3 && n == Base(S, DIRECT + lvl) + m
        invariant limit == Cap(S, lvl + 1) && unit == Cap(S, lvl)
      {
        m := m - limit;
        limit := limit * S;
        unit := unit * S;
        lvl := lvl + 1;
      }
      if lvl < 3 {
        BaseBelowLimit(S, DIRECT + lvl);
        SlotUnique(S, n, DIRECT + lvl);
      }
    }

    ghost function Now(): Snapshot
      reads this
    {
      Snapshot(Im(), used, total, blocks, dirty)
    }

    /** What every stage of a descent towards logical block n keeps; s is the state it started from. */
    ghost predicate Descending(s: Snapshot, n: nat, k: nat, alloc: bool)
      requires S > 0 && n < Limit(S)
      reads this
    {
      && Valid() && Owned(S, s.im, s.used) && s.used <= used && Balanced(s, Now())
      && Grew(S, s.im, Im(), PathOf(S, n), k)
      && (!alloc || Block(S, s.im, n) != 0 ==> Now() == s)
      && forall x :: 0 <= x < |disk| && x in s.used && x !in Blocks(S, s.im) ==> disk[x] == s.im.disk[x]
    }

    /** The block reached is one the tree had, or one that was not in use before. */
    ghost predicate OldOrNew(s: Snapshot, q: Path, id: nat)
      requires Shaped(S, s.im) && ValidPath(S, q)
      reads this
    {
      id == Walk(S, s.im, q) || (id !in s.used && 0 <= id < |disk| && disk[id] == ZeroBlock(S))
    }

    method DescendStep(ghost s: Snapshot, n: nat, k: nat, id: nat, idx: nat, alloc: bool,
                       ghost p: Path) returns (next: nat)
      requires S > 0 && n < Limit(S) && Descending(s, n, k, alloc)
      requires ValidPath(S, p) && |p| == k + 2 && p <= PathOf(S, n) && idx == Last(p)
      requires id == Walk(S, Im(), Init(p)) && 0 < id < |disk| && OldOrNew(s, Init(p), id)
      modifies this
      ensures Descending(s, n, k + 1, alloc)
      ensures next == Walk(S, Im(), p) && next < |disk| && OldOrNew(s, p, next)
      ensures alloc && next == 0 ==> Exhausted()
    {
      hide Walk, Grew, PathOf, Exhausted, Balanced;
      BalancedTrans(s, Now());
      ghost var mid := Im();
      GrewUntouched(S, s.im, mid, PathOf(S, n), k, p);
      InitValid(S, p);
      if Block(S, s.im, n) != 0 { PrefixNamed(S, s.im, p, PathOf(S, n)); }
      if id == Walk(S, s.im, Init(p)) { assert Reached(S, s.im, id) && id in Blocks(S, s.im); }
      next := Resolve(false, id, idx, alloc, p);
      GrewStep(S, s.im, mid, Im(), PathOf(S, n), k, p, next);
    }

    method DescendTop(ghost s: Snapshot, n: nat, r: nat, alloc: bool) returns (id: nat)
      requires Valid() && s == Now() && n < Limit(S) && r == SlotOf(S, n)
      modifies this
      ensures Descending(s, n, 0, alloc)
      ensures id == Walk(S, Im(), [r]) && id < |disk| && OldOrNew(s, [r], id)
      ensures alloc && id == 0 ==> Exhausted()
    {
      hide Walk, Grew;
      assert [r] <= PathOf(S, n);
      if Block(S, s.im, n) != 0 { PrefixNamed(S, s.im, [r], PathOf(S, n)); }
      id := Resolve(true, 0, r, alloc, [r]);
      GrewFirst(S, s.im, Im(), PathOf(S, n), [r], id);
    }

    /** Follow the chain of indirect blocks below slot 12 + lvl, extending it where asked to. */
    method Descend(ghost s: Snapshot, n: nat, lvl: nat, m: nat, unit: nat, alloc: bool) returns (id: nat)
      requires Valid() && s == Now() && n < Limit(S) && lvl < 3 && SlotOf(S, n) == DIRECT + lvl
      requires m == n - Base(S, DIRECT + lvl) && unit == Cap(S, lvl)
      modifies this
      ensures Descending(s, n, lvl + 1, alloc)
      ensures id == Block(S, Im(), n) && OldOrNew(s, PathOf(S, n), id)
      ensures alloc && id == 0 ==> Exhausted()
    {
      hide Walk, Grew, OldOrNew, Owned, Towards, Block, Base, Blocks, Exhausted;
      OwnedShape(S, s.im, s.used);
      ghost var r, target := DIRECT + lvl, PathOf(S, n);
      id := DescendTop(s, n, DIRECT + lvl, alloc);
      OwnedShape(S, Im(), used);
      var k, u := 0, unit;
      assert Towards(S, r, m, 0) == [r] by { TowardsZero(S, r, m); }
      while k < lvl + 1 && id != 0
        invariant k <= lvl + 1 && (k <= lvl ==> u == Cap(S, lvl - k))
        invariant Descending(s, n, k, alloc) && Shaped(S, Im()) && (alloc && id == 0 ==> Exhausted())
        invariant id == Walk(S, Im(), Towards(S, r, m, k)) && id < |disk| && OldOrNew(s, Towards(S, r, m, k), id)
      {
        var idx, next := IndexAt(m, u, r, k);
        ghost var p := Towards(S, r, m, k + 1);
        TowardsStep(S, r, m, k);
        TowardsPrefix(S, r, m, lvl + 1, k + 1);
        id := DescendStep(s, n, k, id, idx, alloc, p);
        OwnedShape(S, Im(), used);
        u := next;
        k := k + 1;
      }
      TowardsPrefix(S, r, m, lvl + 1, k);
      assert k == lvl + 1 ==> Towards(S, r, m, k) == target;
      DescentEnds(s, n, k, alloc, Towards(S, r, m, k), id);
    }

    lemma DescentEnds(s: Snapshot, n: nat, k: nat, alloc: bool, p: Path, id: nat)
      requires S > 0 && n < Limit(S) && Descending(s, n, k, alloc)
      requires ValidPath(S, p) && |p| == k + 1 && p <= PathOf(S, n)
      requires id == Walk(S, Im(), p) && OldOrNew(s, p, id)
      requires p == PathOf(S, n) || id == 0
      ensures Descending(s, n, Levels(SlotOf(S, n)), alloc)
      ensures id == Block(S, Im(), n) && OldOrNew(s, PathOf(S, n), id)
    {
      var target := PathOf(S, n);
      GrewMore(S, s.im, Im(), target, k, Levels(SlotOf(S, n)));
      if p != target {
        if Walk(S, Im(), target) != 0 { PrefixNamed(S, Im(), p, target); assert false; }
        GrewUntouched(S, s.im, Im(), target, k, target);
      }
    }

    /**
     * Map logical block n, optionally allocating it.  The result is what the sparse map then
     * says; no other logical block changes; a new block was not in use and is zeroed; and an
     * allocation fails only when the blocks are exhausted, in which case the map is as before.
     */
    method GetBlock(n: nat, alloc: bool) returns (id: nat)
      requires Valid()
      modifies this
      ensures Valid() && |disk| == old(|disk|) && old(used) <= used && Balanced(old(Now()), Now())
      ensures n >= Limit(S) ==> id == 0 && Now() == old(Now())
      ensures !alloc ==> Now() == old(Now())
      ensures n < Limit(S) ==>
        && id == Block(S, Im(), n)
        && (forall m: nat :: m < Limit(S) && m != n ==> Block(S, Im(), m) == old(Block(S, Im(), m)))
        && (old(Block(S, Im(), n)) != 0 ==> id == old(Block(S, Im(), n)) && Now() == old(Now()))
        && (id != old(Block(S, Im(), n)) ==> id !in old(used) && disk[id] == ZeroBlock(S))
        && (alloc && id == 0 ==> Exhausted())
      ensures forall x :: 0 <= x < |disk| && x in old(used) && x !in old(Blocks(S, Im())) ==> disk[x] == old(disk)[x]
    {
      hide Walk, PathOf, Exhausted;
      ghost var s := Now();
      if n < DIRECT {
        DirectPath(S, n);
        id := DescendTop(s, n, n, alloc);
        GrewBlock(S, s.im, Im(), n, 0);
        return;
      }
      var lvl, m, unit := FindLevel(n);
      if lvl >= 3 {
        return 0;
      }
      id := Descend(s, n, lvl, m, unit, alloc);
      GrewBlock(S, s.im, Im(), n, lvl + 1);
    }
  }

  // ---- The set of blocks in use stands for the bitmaps ------------------------------------------------

  ghost predicate Stands(a: Ext2Alloc.BlockAllocator, i: Inode, root: bool)
    reads a, i
  {
    && a.Valid() && |i.disk| == a.blockCount && i.used == a.Used() && i.total == a.total
    && i.reach == a.Reach() && i.reserved == if root then 0 else a.reserved
  }

  /** Both allocate the same block, or neither does. */
  method AllocTogether(a: Ext2Alloc.BlockAllocator, i: Inode, root: bool) returns (r: Ext2Alloc.Result, id: Option<nat>)
    requires Stands(a, i, root)
    modifies a, i`used, i`total, i`disk
    ensures Stands(a, i, root) && id == if r.Block? then Some(r.id) else None
    ensures id.None? <==> old(i.Exhausted())
  {
    Ext2Alloc.Groups(a.blockCount, a.perGroup);
    id := i.BlockAlloc();
    r := a.BlockAlloc(root);
  }

  method FreeTogether(a: Ext2Alloc.BlockAllocator, i: Inode, root: bool, id: nat)
    requires Stands(a, i, root) && id in i.used
    modifies a, i`used, i`total
    ensures Stands(a, i, root) && id !in a.Used()
  {
    i.BlockFree(id);
    a.BlockFree(id);
  }

  /** The block that holds the slot of a path is in use, and the slot lies inside it. */
  lemma SlotPlace(S: nat, im: Image, used: set<nat>, p: Path, b: nat)
    requires Owned(S, im, used) && ValidPath(S, p)
    ensures Shaped(S, im) && (|p| == 1 ==> Last(p) < |im.root|) && (|p| > 1 ==> Last(p) < S)
    ensures |p| > 1 && b == Parent(S, im, p) && 0 < b < |im.disk| ==> b in used && HasSlot(S, im, p)
    ensures |p| == 1 ==> HasSlot(S, im, p)
  {
    hide Walk;
    if |p| > 1 { InitValid(S, p); }
  }

  lemma RenamedSame(S: nat, im: Image, used: set<nat>, p: Path)
    requires Owned(S, im, used) && ValidPath(S, p) && Walk(S, im, p) == 0
    ensures Renamed(S, im, im, p, 0)
  {
    hide Walk;
  }

  /** g continues what f did: both only remove nodes. */
  lemma RemovedTrans(S: nat, s: Snapshot, m: Snapshot, t: Snapshot)
    requires Removed(S, s, m) && Removed(S, m, t)
    ensures Removed(S, s, t)
  {
  }

  lemma BalancedTrans(s: Snapshot, m: Snapshot)
    ensures forall t :: Balanced(s, m) && Balanced(m, t) ==> Balanced(s, t)
  {
  }

  /** Only blocks of the tree were given back or written, and exactly those that left the tree were given back. */
  ghost predicate Removed(S: nat, s: Snapshot, t: Snapshot) {
    && Shaped(S, s.im) && Shaped(S, t.im) && |t.im.disk| == |s.im.disk|
    && Blocks(S, t.im) <= Blocks(S, s.im)
    && t.used == s.used - (Blocks(S, s.im) - Blocks(S, t.im)) && Balanced(s, t)
    && forall x :: 0 <= x < |s.im.disk| && x !in Blocks(S, s.im) ==> t.im.disk[x] == s.im.disk[x]
  }

  lemma RemovedNone(S: nat, s: Snapshot)
    requires Shaped(S, s.im)
    ensures Removed(S, s, s)
  {
  }

  lemma NextMultiple(i: nat, u: nat, j: nat)
    requires u > 0 && j == i / u
    ensures j * u <= i < (j + 1) * u && i + u - (i + u) % u == (j + 1) * u
    ensures i == j * u + i % u
  {
    MulNext(j, u);
    ModUnique(i + u, u, j + 1, i % u);
  }

  lemma NoBelow(S: nat, im: Image, p: Path, x: nat, y: nat)
    requires Shaped(S, im) && ValidPath(S, p) && (Rest(S, p) == 0 || y <= x)
    ensures CutBelow(S, im, im, p, x, y)
  {
    forall q | ValidPath(S, q) && p < q ensures Rest(S, p) > 0 { assert q[0] == p[0]; }
  }

  lemma ChildSlot(S: nat, im: Image, im': Image, p: Path, x: nat, y: nat, id: nat, j: nat, c: nat, i: nat)
    requires S > 0 && ValidPath(S, p) && Rest(S, p) > 0 && c == Cap(S, Rest(S, p) - 1)
    requires CutBelow(S, im, im', p, x, y) && id == Walk(S, im, p) && 0 < id < |im.disk|
    requires c > 0 && j * c <= i < c * S
    ensures j < S && ValidPath(S, Child(p, j)) && Last(Child(p, j)) == j && Rest(S, Child(p, j)) == Rest(S, p) - 1
    ensures (j + 1) * c <= c * S
    ensures |im'.disk| == |im.disk| && Parent(S, im', Child(p, j)) == id && First(S, Child(p, j)) == First(S, p) + j * c
  {
    MulCancel(j, S, c);
    MulMono(j + 1, S, c);
    assert Init(Child(p, j)) == p;
  }

  /** Cutting below p touches neither p nor what is above it. */
  lemma StillThere(S: nat, im: Image, im': Image, p: Path, x: nat, y: nat)
    requires ValidPath(S, p) && CutBelow(S, im, im', p, x, y)
    ensures |im'.disk| == |im.disk|
    ensures Walk(S, im', p) == Walk(S, im, p) && Parent(S, im', p) == Parent(S, im, p)
  {
    if |p| > 1 { InitValid(S, p); }
  }

  lemma DetachEffect(S: nat, s: Snapshot, b: nat, id: nat, p: Path)
    requires Owned(S, s.im, s.used) && ValidPath(S, p) && HasSlot(S, s.im, p) && (|p| > 1 ==> b == Parent(S, s.im, p))
    requires id == Walk(S, s.im, p) != 0
    requires forall q :: ValidPath(S, q) && p < q ==> Walk(S, s.im, q) == 0
    ensures id in s.used
    ensures var im' := Store(s.im, b, p, 0);
      && Renamed(S, s.im, im', p, 0) && Owned(S, im', s.used - {id})
      && |Blocks(S, im')| == |Blocks(S, s.im)| - 1
      && forall t: Snapshot :: t.im == im' && t.used == s.used - {id} && t.total == s.total + 1 ==> Removed(S, s, t)
  {
    hide Walk;
    var im' := Store(s.im, b, p, 0);
    ClearRenames(S, s.im, s.used, p, im');
    ShrinkOwned(S, s.im, s.used, p, id, im');
    ParentInTree(S, s.im, p);
    assert forall x :: 0 <= x < |s.im.disk| && x !in Blocks(S, s.im) ==> im'.disk[x] == s.im.disk[x];
    hide Owned, Store, Blocks, Removed;
    OneRemoved(S, s, im', id);
  }

  lemma OneRemoved(S: nat, s: Snapshot, im': Image, id: nat)
    requires Shaped(S, s.im) && Shaped(S, im') && |im'.disk| == |s.im.disk| && id in s.used && id in Blocks(S, s.im)
    requires Blocks(S, im') == Blocks(S, s.im) - {id}
    requires forall x :: 0 <= x < |s.im.disk| && x !in Blocks(S, s.im) ==> im'.disk[x] == s.im.disk[x]
    ensures forall t: Snapshot :: t.im == im' && t.used == s.used - {id} && t.total == s.total + 1 ==> Removed(S, s, t)
  {
    hide Blocks, Shaped;
    assert |s.used - {id}| == |s.used| - 1;
  }

  lemma ParentInTree(S: nat, im: Image, p: Path)
    requires Shaped(S, im) && ValidPath(S, p) && HasSlot(S, im, p)
    ensures |p| > 1 ==> Parent(S, im, p) in Blocks(S, im)
  {
    if |p| > 1 {
      InitValid(S, p);
      assert Reached(S, im, Parent(S, im, p));
    }
  }

  lemma SlotIsWalk(S: nat, im: Image, p: Path, b: nat, id: nat)
    requires Shaped(S, im) && ValidPath(S, p) && HasSlot(S, im, p)
    requires id == if |p| == 1 then im.root[p[0]] else im.disk[Parent(S, im, p)][Last(p)]
    ensures Walk(S, im, p) == id
  {
  }

  /** The number of whole or partial blocks in a file of the given size. */
  function Ceil(size: nat, blockSize: nat): nat
    requires blockSize > 0
  {
    (size + blockSize - 1) / blockSize
  }

  /** Block m starts at or past the end of the file exactly if it is none of them. */
  lemma CeilMeans(size: nat, blockSize: nat, m: nat)
    requires blockSize > 0
    ensures m >= Ceil(size, blockSize) <==> m * blockSize >= size
  {
    var y, c := size + blockSize - 1, Ceil(size, blockSize);
    DivMod(y, blockSize);
    MulNext(c, blockSize);
    if m >= c { MulMono(c, m, blockSize); } else { MulMono(m + 1, c, blockSize); MulNext(m, blockSize); }
  }

  /** The bytes below `length` have kept their blocks. */
  ghost predicate KeepsBytes(S: nat, im: Image, im': Image, length: nat, blockSize: nat) {
    && S > 0 && blockSize > 0 && Shaped(S, im) && Shaped(S, im')
    && forall x: nat :: x < length && x / blockSize < Limit(S) ==>
         Block(S, im', x / blockSize) == Block(S, im, x / blockSize)
  }

  /** No block that starts at byte `size` or later is mapped. */
  ghost predicate EmptyFrom(S: nat, im: Image, size: nat, blockSize: nat) {
    && S > 0 && Shaped(S, im)
    && forall m: nat :: m < Limit(S) && m * blockSize >= size ==> Block(S, im, m) == 0
  }

  lemma TruncatedBytes(S: nat, im: Image, im': Image, length: nat, size: nat, blockSize: nat)
    requires S > 0 && blockSize > 0 && Shaped(S, im) && Shaped(S, im')
    requires Truncated(S, im, im', Ceil(length, blockSize), Ceil(size, blockSize))
    ensures KeepsBytes(S, im, im', length, blockSize)
    ensures EmptyFrom(S, im, size, blockSize) ==> EmptyFrom(S, im', length, blockSize)
  {
    hide Truncated, Block, Ceil, Limit, Shaped;
    var n, end := Ceil(length, blockSize), Ceil(size, blockSize);
    forall x: nat | x < length && x / blockSize < Limit(S)
      ensures Block(S, im', x / blockSize) == Block(S, im, x / blockSize)
    {
      DivMod(x, blockSize);
      CeilMeans(length, blockSize, x / blockSize);
      TruncatedBelow(S, im, im', n, end, x / blockSize);
    }
    if EmptyFrom(S, im, size, blockSize) {
      forall m: nat | end <= m < Limit(S) ensures Block(S, im, m) == 0 { CeilMeans(size, blockSize, m); }
      forall m: nat | m < Limit(S) && m * blockSize >= length ensures Block(S, im', m) == 0 {
        CeilMeans(length, blockSize, m);
        TruncatedData(S, im, im', n, end, m);
      }
    }
  }

  lemma TowardsZero(S: nat, r: nat, m: nat)
    requires S > 0 && r < SLOTS
    ensures Towards(S, r, m, 0) == [r]
  {
  }

  lemma OwnedShape(S: nat, im: Image, used: set<nat>)
    requires Owned(S, im, used)
    ensures Shaped(S, im)
  {
  }

  lemma OwnedBound(S: nat, im: Image, used: set<nat>, p: Path)
    requires Owned(S, im, used) && ValidPath(S, p)
    ensures Walk(S, im, p) == 0 || Walk(S, im, p) < |im.disk|
  {
  }

  lemma DirectPath(S: nat, n: nat)
    requires S > 0 && n < DIRECT
    ensures n < Limit(S) && SlotOf(S, n) == n && PathOf(S, n) == [n]
  {
    assert Limit(S) >= DIRECT by { BaseBelowLimit(S, DIRECT); }
  }

  lemma CapDivides(S: nat, d: nat)
    requires S > 0 && d > 0
    ensures Cap(S, d) / S == Cap(S, d - 1)
  {
    ModUnique(Cap(S, d), S, Cap(S, d - 1), 0);
  }

  lemma BaseBelowLimit(S: nat, r: nat)
    requires S > 0 && r < SLOTS
    ensures Base(S, r) + Cap(S, Levels(r)) <= Limit(S)
  {
    assert Base(S, 14) == Base(S, 13) + Cap(S, 2) && Base(S, 13) == DIRECT + Cap(S, 1);
  }

  lemma EmptyTree(S: nat, im: Image)
    requires Shaped(S, im) && im.root == ZeroBlock(SLOTS)
    ensures forall q :: ValidPath(S, q) ==> Walk(S, im, q) == 0
  {
    forall q | ValidPath(S, q) ensures Walk(S, im, q) == 0 { EmptyWalk(S, im, q); }
  }

  lemma {:induction false} EmptyWalk(S: nat, im: Image, q: Path)
    requires Shaped(S, im) && im.root == ZeroBlock(SLOTS) && ValidPath(S, q)
    ensures Walk(S, im, q) == 0
    decreases |q|
  {
    if |q| > 1 {
      InitValid(S, q);
      EmptyWalk(S, im, Init(q));
    }
  }
}
