/**
 * The ext2 block allocator: one bitmap and one free count per block group, and the
 * superblock's total.  The bitmap blocks of a group are consecutive on disk and appear here
 * as one array of words.
 */
module Ext2Alloc {
  import opened Arith
  import opened Bitmap

  datatype Result = Block(id: nat) | NoSpace | NoMemory

  ghost predicate GroupOk(words: seq<bv32>, free: nat, perGroup: nat) {
    perGroup <= |words| * WORD && free == ClearBits(words, perGroup)
  }

  function Sum(s: seq<nat>): nat {
    if s == [] then 0 else s[0] + Sum(s[1..])
  }

  lemma {:induction false} SumUpdate(s: seq<nat>, i: nat, x: nat)
    requires i < |s|
    ensures Sum(s[i := x]) == Sum(s) - s[i] + x
  {
    if i == 0 {
      assert s[0 := x][1..] == s[1..];
    } else {
      SumUpdate(s[1..], i - 1, x);
      assert s[i := x][1..] == s[1..][i - 1 := x];
    }
  }

  ghost predicate TakenAt(bitmaps: seq<seq<bv32>>, g: nat, k: nat) {
    g < |bitmaps| && k / WORD < |bitmaps[g]| && Test(bitmaps[g], k)
  }

  /** Block `id` is marked in use: bit id % n of group id / n. */
  ghost predicate Taken(bitmaps: seq<seq<bv32>>, n: nat, id: nat)
    requires n > 0
  {
    TakenAt(bitmaps, id / n, id % n)
  }

  // ---- What the allocator does to the set of blocks in use --------------------------------------------

  ghost function UsedIn(bitmaps: seq<seq<bv32>>, n: nat, count: nat): set<nat>
    requires n > 0
  {
    set id: nat | id < count && Taken(bitmaps, n, id)
  }

  /** The first block from `from` on and below `reach` that is not in use. */
  function FirstFree(used: set<nat>, from: nat, reach: nat): (r: Option<nat>)
    ensures r.None? <==> forall b: nat :: from <= b < reach ==> b in used
    ensures r.Some? ==>
      from <= r.value < reach && r.value !in used && forall b: nat :: from <= b < r.value ==> b in used
    decreases reach - from
  {
    if from >= reach then None else if from !in used then Some(from) else FirstFree(used, from + 1, reach)
  }

  /**
   * The block that is granted: none if the superblock's count is down to what is reserved, else the
   * first free one of those that are searched.
   */
  function Grant(used: set<nat>, reach: nat, total: nat, reserved: nat): (r: Option<nat>)
    ensures r.Some? ==> total > 0 && r.value < reach && r.value !in used
  {
    if total == 0 || total < reserved then None else FirstFree(used, 0, reach)
  }

  lemma GrantIs(bitmaps: seq<seq<bv32>>, n: nat, count: nat, reach: nat, id: nat)
    requires n > 0 && id < reach <= count && !Taken(bitmaps, n, id)
    requires forall b: nat :: b < id ==> Taken(bitmaps, n, b)
    ensures FirstFree(UsedIn(bitmaps, n, count), 0, reach) == Some(id)
  {
    hide Taken;
    var used := UsedIn(bitmaps, n, count);
    assert id !in used;
    var r := FirstFree(used, 0, reach);
  }

  lemma GrantNone(bitmaps: seq<seq<bv32>>, n: nat, count: nat, g: nat)
    requires n > 0 && g * n <= count && FullBelow(bitmaps, n, g)
    ensures FirstFree(UsedIn(bitmaps, n, count), 0, g * n) == None
  {
    hide Taken;
    forall id: nat | id < g * n ensures id in UsedIn(bitmaps, n, count) { BelowIff(id, n, g); }
  }

  /** The groups below g hold the blocks below g times n. */
  lemma BelowIff(id: nat, n: nat, g: nat)
    requires n > 0
    ensures id / n < g <==> id < g * n
  {
    DivMod(id, n);
    if id / n < g { MulMono(id / n + 1, g, n); MulNext(id / n, n); } else { MulMono(g, id / n, n); }
  }

  /** Rounding the number of groups down leaves out the last one exactly if it is not whole. */
  lemma Groups(count: nat, n: nat)
    requires n > 0
    ensures 0 <= count / n && (count / n) * n <= count
    ensures (count + n - 1) / n == count / n + if count % n == 0 then 0 else 1
  {
    DivMod(count, n);
    var q := count / n;
    MulNext(q, n);
    MulNext(q + 1, n);
    DivUnique(count + n - 1, n, if count % n == 0 then q else q + 1);
  }

  lemma BlockNumber(n: nat, g: nat, k: nat)
    requires k < n
    ensures (k + g * n) / n == g && (k + g * n) % n == k
  {
    ModUnique(k + g * n, n, g, k);
  }

  lemma SetTakenAt(bitmaps: seq<seq<bv32>>, g: nat, k: nat, g': nat, k': nat)
    requires g < |bitmaps| && k / WORD < |bitmaps[g]|
    ensures TakenAt(bitmaps[g := Set(bitmaps[g], k)], g', k') <==> TakenAt(bitmaps, g', k') || (g' == g && k' == k)
  {
    hide Test, Set;
    if g == g' && k' / WORD < |bitmaps[g]| { OneBit(bitmaps[g], k, k'); }
  }

  lemma ClearTakenAt(bitmaps: seq<seq<bv32>>, g: nat, k: nat, g': nat, k': nat)
    requires g < |bitmaps| && k / WORD < |bitmaps[g]|
    ensures TakenAt(bitmaps[g := Clear(bitmaps[g], k)], g', k') <==> TakenAt(bitmaps, g', k') && !(g' == g && k' == k)
  {
    hide Test, Clear;
    if g == g' && k' / WORD < |bitmaps[g]| { OneBit(bitmaps[g], k, k'); }
  }

  lemma SetTaken(bitmaps: seq<seq<bv32>>, n: nat, g: nat, k: nat, id: nat)
    requires k < n && g < |bitmaps| && n <= |bitmaps[g]| * WORD
    ensures Taken(bitmaps[g := Set(bitmaps[g], k)], n, id) <==> Taken(bitmaps, n, id) || id == k + g * n
  {
    hide TakenAt, Set;
    SetTakenAt(bitmaps, g, k, id / n, id % n);
    DivModIff(id, n, g, k);
  }

  lemma ClearTaken(bitmaps: seq<seq<bv32>>, n: nat, g: nat, k: nat, bno: nat, id: nat)
    requires k < n && g < |bitmaps| && n <= |bitmaps[g]| * WORD && g == bno / n && k == bno % n
    ensures Taken(bitmaps[g := Clear(bitmaps[g], k)], n, id) <==> Taken(bitmaps, n, id) && id != bno
  {
    hide TakenAt, Clear;
    DivNat(id, n);
    var q: nat, r: nat := id / n, id % n;
    ClearTakenAt(bitmaps, g, k, q, r);
    if q == g && r == k { DivModSame(id, bno, n); }
    assert id == bno ==> q == g && r == k;
  }

  /** Freeing the block just allocated restores its group's bitmap. */
  lemma AllocThenFree(bitmaps: seq<seq<bv32>>, n: nat, g: nat, k: nat)
    requires k < n && g < |bitmaps| && n <= |bitmaps[g]| * WORD && !Test(bitmaps[g], k)
    ensures var id := k + g * n; var after := bitmaps[g := Set(bitmaps[g], k)];
      id / n == g && after[id / n := Clear(after[id / n], id % n)] == bitmaps
  {
    hide Test, Set, Clear;
    BlockNumber(n, g, k);
    SetThenClear(bitmaps[g], k);
  }

  lemma {:induction false} NoneClear(words: seq<bv32>, n: nat, k: nat)
    requires n <= |words| * WORD && ClearBits(words, n) == 0 && k < n
    ensures Test(words, k)
  {
    hide Test;
    if k < n - 1 { NoneClear(words, n - 1, k); }
  }

  /** All blocks of the groups below g are taken. */
  ghost predicate FullBelow(bitmaps: seq<seq<bv32>>, n: nat, g: nat)
    requires n > 0
  {
    forall id: nat :: id / n < g ==> Taken(bitmaps, n, id)
  }

  lemma FullStep(bitmaps: seq<seq<bv32>>, n: nat, g: nat)
    requires n > 0 && g < |bitmaps| && n <= |bitmaps[g]| * WORD && FullBelow(bitmaps, n, g)
    requires ClearBits(bitmaps[g], n) == 0
    ensures FullBelow(bitmaps, n, g + 1)
  {
    hide Test, ClearBits;
    forall id: nat | id / n < g + 1 ensures Taken(bitmaps, n, id) {
      if id / n == g { NoneClear(bitmaps[g], n, id % n); }
    }
  }

  lemma LeastFree(bitmaps: seq<seq<bv32>>, n: nat, g: nat, k: nat, id: nat)
    requires k < n && g < |bitmaps| && n <= |bitmaps[g]| * WORD && FullBelow(bitmaps, n, g)
    requires forall j: nat :: j < k ==> Test(bitmaps[g], j)
    requires id < k + g * n
    ensures Taken(bitmaps, n, id)
  {
    hide Test;
    assert id == (id / n) * n + id % n;
    if id / n > g { MulMono(g + 1, id / n, n); MulNext(g, n); assert false; }
  }

  class BlockAllocator {
    const blockCount: nat
    const perGroup: nat
    const bitsPerBlock: nat
    const groupsPerBlock: nat
    const reserved: nat
    var bitmaps: seq<seq<bv32>>
    var free: seq<nat>
    var total: nat

    constructor (size: nat, blocksPerGroup: nat, blockSize: nat, reservedBlocks: nat, maps: seq<seq<bv32>>,
      counts: seq<nat>, sum: nat)
      requires blocksPerGroup > 0 && blockSize >= 32
      requires |maps| == |counts| == (size + blocksPerGroup - 1) / blocksPerGroup
      requires forall g :: 0 <= g < |maps| ==> GroupOk(maps[g], counts[g], blocksPerGroup)
      ensures Valid() && bitmaps == maps && free == counts && total == sum && perGroup == blocksPerGroup
      ensures blockCount == size && reserved == reservedBlocks
    {
      blockCount, perGroup, bitsPerBlock, groupsPerBlock := size, blocksPerGroup, 8 * blockSize, blockSize / 32;
      reserved := reservedBlocks;
      bitmaps, free, total := maps, counts, sum;
    }

    /** Each group, whole or not, has a bitmap, and its free count is the number of clear bits in it. */
    ghost predicate Valid()
      reads this
    {
      && perGroup > 0 && bitsPerBlock > 0 && groupsPerBlock > 0
      && |bitmaps| == |free| == (blockCount + perGroup - 1) / perGroup
      && forall g :: 0 <= g < |bitmaps| ==> GroupOk(bitmaps[g], free[g], perGroup)
    }

    /** The blocks of the disk that are marked in use. */
    ghost function Used(): set<nat>
      requires perGroup > 0
      reads this`bitmaps
    {
      UsedIn(bitmaps, perGroup, blockCount)
    }

    /** The end of the blocks that are searched: those of the whole groups. */
    function Reach(): nat
      requires perGroup > 0
    {
      DivNat(blockCount, perGroup);
      (blockCount / perGroup) * perGroup
    }

    /** The first clear bit of a group's bitmap, now set. */
    method BitmapAlloc(g: nat) returns (r: Option<nat>)
      requires Valid() && g < |bitmaps|
      modifies this`bitmaps
      ensures r.None? ==> bitmaps == old(bitmaps) && forall k: nat :: k < perGroup ==> Test(bitmaps[g], k)
      ensures r.Some? ==>
        && r.value < perGroup && !Test(old(bitmaps)[g], r.value)
        && (forall k: nat :: k < r.value ==> Test(old(bitmaps)[g], k))
        && bitmaps == old(bitmaps)[g := Set(old(bitmaps)[g], r.value)]
    {
      hide Test, Set, ClearBits;
      var b := 0;
      while b < perGroup
        invariant bitmaps == old(bitmaps)
        invariant forall k: nat :: k < b && k < perGroup ==> Test(bitmaps[g], k)
        decreases perGroup - b
      {
        var bi := 0;
        while bi < bitsPerBlock && bi < perGroup - b
          invariant 0 <= bi <= bitsPerBlock && (bi <= perGroup - b)
          invariant bitmaps == old(bitmaps)
          invariant forall k: nat :: k < b + bi && k < perGroup ==> Test(bitmaps[g], k)
        {
          if !Test(bitmaps[g], b + bi) {
            bitmaps := bitmaps[g := Set(bitmaps[g], b + bi)];
            return Some(b + bi);
          }
          bi := bi + 1;
        }
        b := b + bitsPerBlock;
      }
      return None;
    }

    /**
     * Free a bit; the source panics if it is not set.  Afterwards it is the one bit that is
     * clear and was not, and allocating it again would restore the bitmaps.
     */
    method BitmapFree(g: nat, bit: nat)
      requires g < |bitmaps| && bit / WORD < |bitmaps[g]| && Test(bitmaps[g], bit)
      modifies this`bitmaps
      ensures |bitmaps| == |old(bitmaps)| && |bitmaps[g]| == |old(bitmaps)[g]|
      ensures forall m: nat :: m / WORD < |bitmaps[g]| ==>
        (Test(bitmaps[g], m) <==> m != bit && Test(old(bitmaps)[g], m))
      ensures forall h :: 0 <= h < |bitmaps| && h != g ==> bitmaps[h] == old(bitmaps)[h]
      ensures bitmaps[g := Set(bitmaps[g], bit)] == old(bitmaps)
      ensures bitmaps == old(bitmaps)[g := Clear(old(bitmaps)[g], bit)]
    {
      hide Test, Set, Clear;
      var words := Clear(bitmaps[g], bit);
      forall m: nat | m / WORD < |bitmaps[g]| ensures Test(words, m) <==> m != bit && Test(bitmaps[g], m) {
        OneBit(bitmaps[g], bit, m);
      }
      ClearThenSet(bitmaps[g], bit);
      bitmaps := bitmaps[g := words];
    }

    /** Take a block from one group; a non-zero free count guarantees that the bitmap has one. */
    method GroupAlloc(g: nat) returns (r: Option<nat>)
      requires Valid() && g < |bitmaps|
      modifies this`bitmaps, this`free
      ensures Valid()
      ensures r.None? <==> old(free)[g] == 0
      ensures r.None? ==> bitmaps == old(bitmaps) && free == old(free)
      ensures r.Some? ==>
        && r.value < perGroup && !Test(old(bitmaps)[g], r.value)
        && (forall k: nat :: k < r.value ==> Test(old(bitmaps)[g], k))
        && bitmaps == old(bitmaps)[g := Set(old(bitmaps)[g], r.value)]
        && free == old(free)[g := old(free)[g] - 1]
    {
      hide Test, Set, ClearBits;
      if free[g] == 0 {
        return None;
      }
      r := BitmapAlloc(g);
      if r.None? {
        AllSet(bitmaps[g], perGroup);
        assert false;
      }
      ClearBitsSet(old(bitmaps)[g], perGroup, r.value);
      free := free[g := free[g] - 1];
    }

    /** Try the whole groups in order, one block of group descriptors at a time. */
    method Scan() returns (r: Option<nat>)
      requires Valid()
      modifies this`bitmaps, this`free
      ensures Valid()
      ensures r.None? ==>
        bitmaps == old(bitmaps) && free == old(free) && FullBelow(bitmaps, perGroup, blockCount / perGroup)
      ensures r.Some? ==>
        && r.value < Reach() && !Taken(old(bitmaps), perGroup, r.value)
        && (forall id: nat :: id < r.value ==> Taken(old(bitmaps), perGroup, id))
        && (forall id: nat :: Taken(bitmaps, perGroup, id) <==> Taken(old(bitmaps), perGroup, id) || id == r.value)
        && Sum(free) == Sum(old(free)) - 1
    {
      hide Test, Set, ClearBits, Taken, FullBelow, Sum;
      Groups(blockCount, perGroup);
      var groups := blockCount / perGroup;
      var g := 0;
      NoGroups(bitmaps, perGroup);
      while g < groups
        invariant 0 <= g && Valid() && bitmaps == old(bitmaps) && free == old(free)
        invariant FullBelow(bitmaps, perGroup, if g < groups then g else groups)
        decreases groups - g
      {
        var gi := 0;
        while gi < groupsPerBlock && gi < groups - g
          invariant 0 <= gi <= groupsPerBlock && gi <= groups - g
          invariant Valid() && bitmaps == old(bitmaps) && free == old(free)
          invariant FullBelow(bitmaps, perGroup, g + gi)
        {
          var bit := GroupAlloc(g + gi);
          if bit.Some? {
            var id := bit.value + (g + gi) * perGroup;
            ScanEffect(old(bitmaps), perGroup, g + gi, bit.value);
            BlockNumber(perGroup, g + gi, bit.value);
            BelowIff(id, perGroup, groups);
            SumUpdate(old(free), g + gi, old(free)[g + gi] - 1);
            return Some(id);
          }
          FullStep(bitmaps, perGroup, g + gi);
          gi := gi + 1;
        }
        g := g + groupsPerBlock;
      }
      return None;
    }

    /**
     * Allocate a block.  Ordinary users are refused once only the reserved blocks are left; after
     * that the lowest-numbered free block of the whole groups is handed out.  A last group that is
     * not whole is never searched, so memory is out exactly when the whole groups are full.
     */
    method BlockAlloc(root: bool) returns (r: Result)
      requires Valid()
      modifies this
      ensures Valid() && total - Sum(free) == old(total) - Sum(old(free))
      ensures r.NoSpace? <==> old(total) == 0 || (old(total) < reserved && !root)
      ensures r.NoMemory? <==> !r.NoSpace? && FullBelow(old(bitmaps), perGroup, blockCount / perGroup)
      ensures !r.Block? ==> bitmaps == old(bitmaps) && free == old(free) && total == old(total)
      ensures r.Block? ==>
        && r.id < Reach() && !Taken(old(bitmaps), perGroup, r.id)
        && (forall id: nat :: id < r.id ==> Taken(old(bitmaps), perGroup, id))
        && (forall id: nat :: Taken(bitmaps, perGroup, id) <==> Taken(old(bitmaps), perGroup, id) || id == r.id)
      ensures (if r.Block? then Some(r.id) else None) ==
        Grant(old(Used()), Reach(), old(total), if root then 0 else reserved)
      ensures r.Block? ==> Used() == old(Used()) + {r.id} && total == old(total) - 1
    {
      hide Taken, FullBelow, Sum;
      Groups(blockCount, perGroup);
      if total == 0 || (total < reserved && !root) {
        return NoSpace;
      }
      total := total - 1;
      var id := Scan();
      if id.Some? {
        GrantIs(old(bitmaps), perGroup, blockCount, Reach(), id.value);
        NotFull(old(bitmaps), perGroup, blockCount / perGroup, id.value);
        return Block(id.value);
      }
      GrantNone(bitmaps, perGroup, blockCount, blockCount / perGroup);
      total := total + 1;
      return NoMemory;
    }

    /** Give a block back; only its own bit changes. */
    method BlockFree(bno: nat)
      requires Valid() && Taken(bitmaps, perGroup, bno)
      modifies this
      ensures Valid() && total - Sum(free) == old(total) - Sum(old(free)) && total == old(total) + 1
      ensures forall id: nat :: Taken(bitmaps, perGroup, id) <==> Taken(old(bitmaps), perGroup, id) && id != bno
      ensures Used() == old(Used()) - {bno}
    {
      hide Test, Clear, ClearBits, Sum;
      FreeGroup(bno / perGroup, bno % perGroup, bno);
      total := total + 1;
    }

    method FreeGroup(g: nat, k: nat, ghost bno: nat)
      requires Valid() && g == bno / perGroup && k == bno % perGroup && k < perGroup && TakenAt(bitmaps, g, k)
      modifies this`bitmaps, this`free
      ensures Valid() && Sum(free) == Sum(old(free)) + 1
      ensures forall id: nat :: Taken(bitmaps, perGroup, id) <==> Taken(old(bitmaps), perGroup, id) && id != bno
    {
      hide Test, Clear, ClearBits, Sum, Taken;
      forall id: nat { ClearTaken(bitmaps, perGroup, g, k, bno, id); }
      ClearBitsClear(bitmaps[g], perGroup, k);
      BitmapFree(g, k);
      SumUpdate(free, g, free[g] + 1);
      free := free[g := free[g] + 1];
    }
  }

  /** A disk smaller than one group: a block is given back, and none can be allocated although it is free. */
  method SmallDisk(size: nat, n: nat, words: seq<bv32>, bno: nat) returns (r: Result, taken: bool)
    requires size < n <= |words| * WORD && bno < size && Test(words, bno)
    ensures r == NoMemory && !taken
  {
    hide Test, ClearBits, Sum;
    ModUnique(bno, n, 0, bno);
    ModUnique(size, n, 0, size);
    Groups(size, n);
    var count := ClearBits(words, n);
    var a := new BlockAllocator(size, n, 1024, 0, [words], [count], count);
    a.BlockFree(bno);
    assert !Taken(a.bitmaps, n, bno);
    NoGroups(a.bitmaps, n);
    r := a.BlockAlloc(true);
    taken := Test(a.bitmaps[0], bno);
  }

  lemma NotFull(bitmaps: seq<seq<bv32>>, n: nat, g: nat, id: nat)
    requires n > 0 && id < g * n && !Taken(bitmaps, n, id)
    ensures !FullBelow(bitmaps, n, g)
  {
    hide Taken;
    BelowIff(id, n, g);
  }

  lemma NoGroups(bitmaps: seq<seq<bv32>>, n: nat)
    requires n > 0
    ensures FullBelow(bitmaps, n, 0)
  {
    hide TakenAt;
    forall id: nat ensures id / n >= 0 { DivNat(id, n); }
  }

  lemma ScanEffect(bitmaps: seq<seq<bv32>>, n: nat, g: nat, k: nat)
    requires k < n && g < |bitmaps| && n <= |bitmaps[g]| * WORD && FullBelow(bitmaps, n, g)
    requires !Test(bitmaps[g], k) && forall j: nat :: j < k ==> Test(bitmaps[g], j)
    ensures !Taken(bitmaps, n, k + g * n)
    ensures forall id: nat :: id < k + g * n ==> Taken(bitmaps, n, id)
    ensures forall id: nat :: Taken(bitmaps[g := Set(bitmaps[g], k)], n, id) <==>
      Taken(bitmaps, n, id) || id == k + g * n
  {
    hide Test, Set;
    BlockNumber(n, g, k);
    forall id: nat | id < k + g * n ensures Taken(bitmaps, n, id) { LeastFree(bitmaps, n, g, k, id); }
    forall id: nat
      ensures Taken(bitmaps[g := Set(bitmaps[g], k)], n, id) <==> Taken(bitmaps, n, id) || id == k + g * n
    {
      SetTaken(bitmaps, n, g, k, id);
    }
  }
}
