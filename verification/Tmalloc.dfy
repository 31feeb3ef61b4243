/** Insertion, removal and best-fit search in the tree bins, in place. */
module Tmalloc {
  import opened Arith
  import opened Lists
  import opened TreeBins
  import opened TrieHeap
  import opened TrieSearch
  import opened Paths

  class TreeState {
    var h: Heap
    var treemap: seq<bool>
    var dvsize: nat

    /** The pointer structure is a trie and the map marks the bins that are not empty. */
    ghost predicate Valid()
      reads this
    {
      && Inv(h) && |h.roots| == NTREEBINS && |treemap| == NTREEBINS && dvsize < WORD_LIMIT
      && Stamped(h)
      && forall i :: 0 <= i < NTREEBINS ==> (treemap[i] <==> h.roots[i] != 0)
    }

    constructor ()
      ensures Valid() && forall c: nat, s: nat :: !Holds(h, c, s)
    {
      h := Heap(seq(NTREEBINS, i => 0), map[], map[], map[], map[]);
      treemap := seq(NTREEBINS, i => false);
      dvsize := 0;
      new;
      forall q | ValidPath(q) ensures Walk(h, q) == 0 { EmptyWalk(h, q); }
    }

    /** Hang chunk x as a new node into the empty slot that path p names, below node t or at the root of a bin. */
    method Plant(x: nat, s: nat, top: bool, t: nat, b: nat, ghost p: Path)
      requires Valid() && ValidPath(p) && b == Last(p) && (top <==> |p| == 1)
      requires !top ==> t == Walk(h, Init(p)) != 0
      requires CanReplace(h, p, x, [x], s) && Walk(h, p) == 0
      modifies this`h, this`treemap
      ensures Valid() && Swapped(old(h), h, p, [x], s) && Renamed(old(h), h, p, x)
    {
      ghost var g := Replace(h, p, x, [x], s);
      ReplaceInv(h, p, x, [x], s, g);
      PlantIs(h, p, x, s, t, b);
      PlantStamped(h, g, p, x, s);
      hide Walk, Inv, Replace, Stamped;
      h := h.(
        kid := h.kid[(x, 0) := 0][(x, 1) := 0],
        size := h.size[x := s], ring := h.ring[x := [x]],
        parent := h.parent[x := if top then AtBin(b) else AtNode(t)]);
      if top {
        h := h.(roots := h.roots[b := x]);
        treemap := treemap[b := true];
      } else {
        h := h.(kid := h.kid[(t, b) := x]);
      }
      assert h == g;
    }

    /** Put a chunk of a large size into its bin. */
    method InsertLarge(x: nat, s: nat)
      requires Valid() && MIN_LARGE_SIZE <= s < WORD_LIMIT && x != 0 && NotHeld(h, x)
      modifies this`h, this`treemap
      ensures Valid() && Adds(old(h), h, x, s)
    {
      hide Inv, Stamped, Walk, Fits, Register, Pow2, TreeIndex, Swapped, Append;
      StartDown(h, s);
      var i := TreeIndex(s);
      ghost var p: Path := [i];
      if !treemap[i] {
        FreshSlot(h, p, x, s);
        Plant(x, s, true, 0, i, p);
        PlantAdds(old(h), h, p, x, s);
        return;
      }
      var t: nat, k: nat := h.roots[i], s * Pow2(LeftShift(i)) % WORD_LIMIT;
      while h.size[t] != s
        invariant h == old(h) && treemap == old(treemap)
        invariant ValidPath(p) && t == Walk(h, p) != 0 && Fits(s, p) && 0 <= Open(p) <= 32 && k == Register(s, Open(p))
        invariant NodeOk(h, t)
        invariant NoneAbove(h, p, s)
        decreases Open(p)
      {
        var b := k / SIGN;
        StepDown(h, p, s, b);
        ghost var p' := p + [b];
        k := 2 * k % WORD_LIMIT;
        NoneAboveStep(h, p, b, s);
        p := p';
        if Kid(h, t, b) == 0 {
          FreshSlot(h, p, x, s);
          Plant(x, s, false, t, b, p);
          PlantAdds(old(h), h, p, x, s);
          return;
        }
        t := Kid(h, t, b);
      }
      Chain(x, s, t, p);
    }

    /** Hang x into the ring of node t, which has its size. */
    method Chain(x: nat, s: nat, t: nat, ghost p: Path)
      requires Valid() && ValidPath(p) && t == Walk(h, p) != 0 && NodeOk(h, t) && h.size[t] == s && x != 0
      requires NotHeld(h, x)
      modifies this`h
      ensures Valid() && Adds(old(h), h, x, s)
    {
      hide Walk, Inv, Stamped;
      AppendInv(h, p, t, x, s, Append(h, t, x, s));
      AppendStamped(h, Append(h, t, x, s), p, x, s);
      h := h.(
        kid := h.kid[(x, 0) := 0][(x, 1) := 0], size := h.size[x := s],
        ring := h.ring[t := h.ring[t] + [x]], parent := h.parent[x := NotInTree]);
      AppendAdds(old(h), h, p, x, s);
    }

    /** Store r in the slot that points at x: the bin if x is its root, else the parent's child field. */
    method SetSlotOf(x: nat, r: nat, ghost p: Path)
      requires Inv(h) && ValidPath(p) && x == Walk(h, p) != 0 && NodeOk(h, x)
      modifies this`h
      ensures h == SetSlot(old(h), p, r)
    {
      hide Walk, Inv, TreeIndex;
      SlotFacts(h, p, x);
      var i := TreeIndex(h.size[x]);
      if h.roots[i] == x {
        h := h.(roots := h.roots[i := r]);
      } else {
        var up := h.parent[x].node;
        if Kid(h, up, 0) == x {
          h := h.(kid := h.kid[(up, 0) := r]);
        } else {
          h := h.(kid := h.kid[(up, 1) := r]);
        }
      }
    }

    /** Let chunk r, with the ring rs it heads, take the place of node x. */
    method Relink(x: nat, r: nat, rs: seq<nat>, ghost p: Path)
      requires |h.roots| == NTREEBINS && ValidPath(p) && x == Walk(h, p) != 0 && NodeOk(h, x) && x in h.parent
      requires r in h.size && CanReplace(h, p, r, rs, h.size[r])
      modifies this`h
      ensures h == Replace(old(h), p, r, rs, old(h).size[r])
    {
      hide Walk, Inv, RingOk, Elsewhere, Fits;
      var up := h.parent[x];
      ReplaceIs(h, p, x, r, rs);
      SetSlotOf(x, r, p);
      var k0, k1 := Kid(h, x, 0), Kid(h, x, 1);
      assert k0 == Kid(old(h), x, 0) && k1 == Kid(old(h), x, 1);
      h := h.(kid := h.kid[(r, 0) := k0][(r, 1) := k1], ring := h.ring[r := rs]);
      if k0 != 0 { h := h.(parent := h.parent[k0 := AtNode(r)]); }
      if k1 != 0 { h := h.(parent := h.parent[k1 := AtNode(r)]); }
      h := h.(parent := h.parent[r := up]);
    }

    /** Take x out of the ring behind another chunk. */
    method Unchain(x: nat, head: nat, ghost p: Path)
      requires Valid() && ValidPath(p) && head == Walk(h, p) != 0 && NodeOk(h, head) && x in h.ring[head] && x != head
      modifies this`h
      ensures Valid() && Removes(old(h), h, x)
    {
      hide Walk, Inv, Stamped;
      ghost var g := h.(ring := h.ring[head := Remove(h.ring[head], x)]);
      UnchainInv(h, p, head, x, g);
      RemovedAt(h, g, x);
      h := h.(ring := h.ring[head := Remove(h.ring[head], x)]);
    }

    /** Replace node x by the next chunk of its ring. */
    method Promote(x: nat, ghost p: Path)
      requires Valid() && ValidPath(p) && x == Walk(h, p) != 0 && NodeOk(h, x) && |h.ring[x]| > 1
      modifies this`h
      ensures Valid() && Removes(old(h), h, x)
    {
      hide Walk, Inv, Stamped, Replace, RingOk, Elsewhere;
      var rs := h.ring[x][1..];
      RingSize(h, p, x);
      NextCanReplace(h, p, x);
      ReplaceInv(h, p, rs[0], rs, h.size[x], Replace(h, p, rs[0], rs, h.size[x]));
      PromoteAt(h, Replace(h, p, rs[0], rs, h.size[x]), p, x);
      Relink(x, rs[0], rs, p);
      Roots(old(h), h, p, rs[0]);
    }

    /** Clear the slot of a leaf that has no ring. */
    method Prune(x: nat, ghost p: Path)
      requires Valid() && ValidPath(p) && x == Walk(h, p) != 0 && NodeOk(h, x) && |h.ring[x]| == 1
      requires Kid(h, x, 0) == 0 && Kid(h, x, 1) == 0
      modifies this`h, this`treemap
      ensures Valid() && Removes(old(h), h, x)
    {
      hide Walk, Inv, Stamped;
      PruneInv(h, p, SetSlot(h, p, 0));
      PruneAt(h, SetSlot(h, p, 0), p, x);
      SlotFacts(h, p, x);
      var i := TreeIndex(h.size[x]);
      SetSlotOf(x, 0, p);
      if h.roots[i] == 0 { treemap := treemap[i := false]; }
      Roots(old(h), h, p, 0);
    }

    /** The leaf reached from x by going right where possible, and the slot that points at it. */
    method RightmostLeaf(x: nat, ghost p: Path) returns (r: nat, up: nat, b: nat, ghost q: Path)
      requires Valid() && ValidPath(p) && x == Walk(h, p) != 0 && (Kid(h, x, 1) != 0 || Kid(h, x, 0) != 0)
      ensures ValidPath(q) && p < q && r == Walk(h, q) != 0 && NodeOk(h, r) && Kid(h, r, 0) == 0 && Kid(h, r, 1) == 0
      ensures up == Walk(h, Init(q)) && b == Last(q)
    {
      hide Walk, Inv, Stamped, Fits;
      up, b := x, if Kid(h, x, 1) != 0 then 1 else 0;
      r, q := Kid(h, x, b), p + [b];
      ChildNode(h, p, b);
      while Kid(h, r, 1) != 0 || Kid(h, r, 0) != 0
        invariant ValidPath(q) && p < q && r == Walk(h, q) != 0 && NodeOk(h, r)
        invariant up == Walk(h, Init(q)) && b == Last(q) && Open(q) >= 0
        decreases Open(q)
      {
        up, b := r, if Kid(h, r, 1) != 0 then 1 else 0;
        ChildNode(h, q, b);
        r, q := Kid(h, r, b), q + [b];
      }
    }

    /** Move the rightmost leaf below x into the place of x. */
    method ReplaceByLeaf(x: nat, ghost p: Path)
      requires Valid() && ValidPath(p) && x == Walk(h, p) != 0 && NodeOk(h, x) && |h.ring[x]| == 1
      requires Kid(h, x, 1) != 0 || Kid(h, x, 0) != 0
      modifies this`h
      ensures Valid() && Removes(old(h), h, x)
    {
      hide Walk, Inv, Stamped, Replace, RingOk, Elsewhere;
      var r, up, b, q := RightmostLeaf(x, p);
      ghost var g := SetSlot(h, q, 0);
      LeafCanReplace(h, p, q, g);
      PruneInv(h, q, g);
      RingSize(h, p, x);
      h := h.(kid := h.kid[(up, b) := 0]);
      assert h == g;
      ghost var g' := Replace(g, p, r, g.ring[r], g.size[r]);
      ReplaceInv(g, p, r, g.ring[r], g.size[r], g');
      LeafAt(old(h), g, g', p, q, x, r);
      Relink(x, r, h.ring[r], p);
      Roots(old(h), g, q, 0);
      Roots(g, h, p, r);
    }

    /** Remove chunk x, which hangs in the ring of node head. */
    method UnlinkLarge(x: nat, head: nat, ghost p: Path)
      requires Valid() && ValidPath(p) && head == Walk(h, p) != 0 && NodeOk(h, head) && x in h.ring[head]
      modifies this`h, this`treemap
      ensures Valid() && Removes(old(h), h, x)
    {
      hide Walk, Inv, Stamped, Removes;
      if x != head {
        Unchain(x, head, p);
      } else if |h.ring[x]| > 1 {
        Promote(x, p);
      } else if Kid(h, x, 1) != 0 || Kid(h, x, 0) != 0 {
        ReplaceByLeaf(x, p);
      } else {
        Prune(x, p);
      }
    }

    /** Follow the bits of nb down bin idx, remembering the deepest right subtree not taken. */
    method DescendBin(nb: nat) returns (t: nat, v: nat, rsize: nat, ghost q: Path, ghost vp: Path)
      requires Valid() && MIN_LARGE_SIZE <= nb < WORD_LIMIT && 0 <= TreeIndex(nb) < NTREEBINS
      requires h.roots[TreeIndex(nb)] != 0
      ensures Candidate(h, nb, v, vp, rsize) && (v != 0 ==> vp[0] == TreeIndex(nb))
      ensures ValidPath(q) && q[0] == TreeIndex(nb) && t == Walk(h, q) && (rsize == 0 || Enough(h, nb, q))
      ensures LeftOver(h, nb, rsize, TreeIndex(nb), q)
    {
      hide Inv, Stamped, Walk, Fits, Register, Pow2, TreeIndex, ToTheRight, Node, Narrowed, Candidate, Covered, Enough,
        Size, Stepped, LeftOver;
      StartDown(h, nb);
      var idx := TreeIndex(nb);
      t, v, rsize := h.roots[idx], 0, WORD_LIMIT - nb;
      var bits: nat := nb * Pow2(LeftShift(idx)) % WORD_LIMIT;
      var rst: nat := 0;
      ghost var p: Path, rp: Path := [idx], [];
      vp := [];
      StartNarrow(h, nb, rsize, idx);
      while true
        invariant Candidate(h, nb, v, vp, rsize) && rsize > 0 && (v != 0 ==> ValidPath(vp) && vp[0] == idx)
        invariant ValidPath(p) && p[0] == idx && t == Walk(h, p) != 0 && NodeOk(h, t)
        invariant Fits(nb, p) && 0 <= Open(p) <= 32 && bits == Register(nb, Open(p))
        invariant Narrowed(h, nb, rsize, p, rst != 0, rp)
        invariant rst != 0 ==> ValidPath(rp) && rp[0] == idx && rst == Walk(h, rp)
        decreases Open(p)
      {
        Offer(h, nb, v, vp, rsize, p);
        var trem := Sub32(h.size[t], nb);
        if trem < rsize {
          Tighten(h, nb, rsize, trem, p, rst != 0, rp);
          v, vp, rsize := t, p, trem;
          if rsize == 0 {
            q := p;
            ZeroCovers(h, nb, idx, q);
            return;
          }
        }
        StepDown(h, p, nb, bits / SIGN);
        var b := bits / SIGN;
        var rt := Kid(h, t, 1);
        t := Kid(h, t, b);
        ghost var some, rp0 := rst != 0, rp;
        Untaken(h, p, b, some, rp);
        if rt != 0 && rt != t {
          rst, rp := rt, p + [1];
        }
        NarrowStep(h, nb, rsize, p, b, some, rp0, rst != 0, rp);
        p := p + [b];
        if t == 0 {
          t, q := rst, if rst == 0 then p else rp;
          EndNarrow(h, nb, rsize, p, rst != 0, rp);
          return;
        }
        bits := 2 * bits % WORD_LIMIT;
      }
    }

    /** Walk down leftmost children, keeping the best fit. */
    method WalkLeft(nb: nat, t0: nat, v0: nat, rsize0: nat, ghost start: Path, ghost vp0: Path)
      returns (v: nat, rsize: nat, ghost vp: Path)
      requires Valid() && MIN_LARGE_SIZE <= nb < WORD_LIMIT && ValidPath(start) && t0 == Walk(h, start)
      requires Candidate(h, nb, v0, vp0, rsize0) && (rsize0 == 0 || Enough(h, nb, start))
      ensures Candidate(h, nb, v, vp, rsize) && rsize <= rsize0 && ((v == v0 && vp == vp0) || (v != 0 && start <= vp))
      ensures forall x :: Node(h, x) && start <= x ==> Covered(h, nb, rsize, x)
    {
      hide Inv, Stamped, Walk, Fits, Node, Candidate, Covered, Enough, Size, Leftmost;
      v, rsize, vp := v0, rsize0, vp0;
      var t := t0;
      ghost var q := start;
      LeftStart(h, nb, rsize, start);
      while t != 0
        invariant Candidate(h, nb, v, vp, rsize) && rsize <= rsize0
        invariant (v == v0 && vp == vp0) || (v != 0 && start <= vp)
        invariant ValidPath(q) && start <= q && t == Walk(h, q) && Leftmost(h, nb, rsize, start, q)
        decreases Open(q)
      {
        Offer(h, nb, v, vp, rsize, q);
        var trem := Sub32(h.size[t], nb);
        if trem < rsize {
          LeftTighten(h, nb, rsize, trem, start, q);
          v, rsize, vp := t, trem, q;
        }
        var b := if Kid(h, t, 0) != 0 then 0 else 1;
        LeftStep(h, nb, rsize, start, q, b);
        NodeFits(h, q);
        t, q := Kid(h, t, b), q + [b];
      }
      LeftEnd(h, nb, rsize, start, q);
    }

    /** The first non-empty bin after bin i. */
    method NextBin(i: nat) returns (j: nat)
      requires Valid() && i < NTREEBINS
      ensures i < j <= NTREEBINS && (forall k :: i < k < j ==> h.roots[k] == 0)
      ensures j < NTREEBINS ==> h.roots[j] != 0
    {
      j := i + 1;
      while j < NTREEBINS && !treemap[j]
        invariant i < j <= NTREEBINS && forall k :: i < k < j ==> h.roots[k] == 0
      {
        j := j + 1;
      }
    }

    /** Search the bin of nb; an empty bin has nothing left over. */
    method SearchOwnBin(nb: nat) returns (t: nat, v: nat, rsize: nat, ghost q: Path, ghost vp: Path)
      requires Valid() && MIN_LARGE_SIZE <= nb < WORD_LIMIT
      ensures 0 <= TreeIndex(nb) < NTREEBINS
      ensures Candidate(h, nb, v, vp, rsize) && (v != 0 ==> vp != [] && vp[0] == TreeIndex(nb))
      ensures rsize == 0 ==> v != 0
      ensures ValidPath(q) && q[0] == TreeIndex(nb) && t == Walk(h, q) && (rsize == 0 || Enough(h, nb, q))
      ensures LeftOver(h, nb, rsize, TreeIndex(nb), q)
    {
      hide Inv, Stamped, Walk, Fits, TreeIndex, Covered, Size;
      StartDown(h, nb);
      var idx := TreeIndex(nb);
      if h.roots[idx] != 0 {
        t, v, rsize, q, vp := DescendBin(nb);
      } else {
        t, v, rsize, q, vp := 0, 0, WORD_LIMIT - nb, [idx], [];
        EmptyBin(h, idx);
      }
    }

    /** The tree chunk that fits nb best, and what it leaves over. */
    method FindBest(nb: nat) returns (v: nat, rsize: nat, ghost vp: Path)
      requires Valid() && MIN_LARGE_SIZE <= nb < WORD_LIMIT
      ensures Candidate(h, nb, v, vp, rsize)
      ensures forall x :: Node(h, x) ==> Covered(h, nb, rsize, x)
    {
      hide Inv, Stamped, Walk, Fits, TreeIndex, Candidate, Covered, Enough, Size, LeftOver, BinCovered, Node;
      ghost var q;
      var t;
      t, v, rsize, q, vp := SearchOwnBin(nb);
      ghost var idx, rsize0 := TreeIndex(nb), rsize;
      if t != 0 || v != 0 {
        v, rsize, vp := WalkLeft(nb, t, v, rsize, q, vp);
        LeftOverCovered(h, nb, rsize0, rsize, idx, q);
        if v == 0 { HasCandidate(h, nb, v, vp, rsize, q); }
        Finish(h, nb, v, vp, rsize, idx);
        return;
      }
      NothingLeft(h, nb, rsize, idx, q);
      var j := NextBin(TreeIndex(nb));
      if j < NTREEBINS {
        LargerBin(h, nb, j);
        v, rsize, vp := WalkLeft(nb, h.roots[j], v, rsize, [j], vp);
        HasCandidate(h, nb, v, vp, rsize, [j]);
        BinsCovered(h, nb, rsize0, rsize, idx, j);
      }
      NoSuchBin(h, nb, rsize);
      Finish(h, nb, v, vp, rsize, j);
    }

    /**
     * Allocate nb bytes from the best-fitting tree chunk, unless the designated victim fits at
     * least as well.  A remainder too small for a chunk stays with the allocation.
     */
    method TmallocLarge(nb: nat) returns (r: Option<Grant>)
      requires Valid() && MIN_LARGE_SIZE <= nb < WORD_LIMIT && Separate(h)
      modifies this`h, this`treemap
      ensures Valid() && Separate(h)
      ensures r.None? <==> forall c: nat, s: nat :: Holds(old(h), c, s) && s >= nb ==> nb <= dvsize <= s
      ensures r.None? ==> h == old(h) && treemap == old(treemap)
      ensures r.Some? ==> Granted(old(h), h, nb, r.value)
    {
      hide Inv, Stamped, Walk, Fits, Candidate, Covered, Node, Separate, Removes, Adds, Holds, BestFit, Granted;
      var v, rsize, vp := FindBest(nb);
      Chosen(h, nb, v, vp, rsize);
      VictimFits(h, nb, v, rsize, dvsize);
      if v == 0 || rsize >= Sub32(dvsize, nb) {
        return None;
      }
      UnlinkLarge(v, v, vp);
      Unheld(old(h), h, nb, v, rsize);
      if rsize < MIN_CHUNK_SIZE {
        r := Some(Grant(v, nb + rsize, 0));
      } else {
        r := Some(Grant(v, nb, rsize));
        if rsize >= MIN_LARGE_SIZE {
          ghost var g := h;
          InsertLarge(v + nb, rsize);
          Regained(old(h), g, h, nb, v, rsize);
        }
      }
    }
  }

  const MIN_CHUNK_SIZE: nat := 16

  /** An allocated chunk, its size, and the size of the free chunk split off behind it. */
  datatype Grant = Grant(chunk: nat, size: nat, rest: nat)

  /** Free chunks do not overlap. */
  ghost predicate Separate(h: Heap) {
    && |h.roots| == NTREEBINS
    && forall c: nat, s: nat, c': nat, s': nat :: Holds(h, c, s) && Holds(h, c', s') && c != c' ==>
         c + s <= c' || c' + s' <= c
  }

  /** Chunk c of size s is the smallest tree chunk of at least nb bytes. */
  ghost predicate BestFit(h: Heap, nb: nat, c: nat, s: nat) {
    && |h.roots| == NTREEBINS && Holds(h, c, s) && nb <= s
    && forall c': nat, s': nat :: Holds(h, c', s') && nb <= s' ==> s <= s'
  }

  /**
   * The granted chunk is a best fit, it is cut to nb bytes exactly when the remainder can stand
   * alone, a large remainder is free again, and the granted bytes belong to no free chunk.
   */
  ghost predicate Granted(h: Heap, h': Heap, nb: nat, g: Grant) {
    && |h.roots| == |h'.roots| == NTREEBINS
    && BestFit(h, nb, g.chunk, g.size + g.rest)
    && (if g.size + g.rest - nb < MIN_CHUNK_SIZE then g.rest == 0 else g.size == nb)
    && (forall c: nat, t: nat :: Holds(h', c, t) <==>
          (Holds(h, c, t) && c != g.chunk) || (g.rest >= MIN_LARGE_SIZE && c == g.chunk + nb && t == g.rest))
    && forall c: nat, t: nat :: Holds(h', c, t) ==> c + t <= g.chunk || g.chunk + g.size <= c
  }

  /** A held chunk hangs off a node of its size. */
  lemma HeldNode(h: Heap, c: nat, s: nat) returns (q: Path)
    requires Inv(h) && |h.roots| == NTREEBINS && Holds(h, c, s)
    ensures Node(h, q) && Size(h, q) == s && s < WORD_LIMIT
  {
    q :| ValidPath(q) && HoldsAt(h, q, c, s);
    NodeFits(h, q);
  }

  /** The search's result, said of the chunks instead of the nodes. */
  lemma Chosen(h: Heap, nb: nat, v: nat, vp: Path, rsize: nat)
    requires Inv(h) && |h.roots| == NTREEBINS && nb < WORD_LIMIT && Candidate(h, nb, v, vp, rsize)
    requires forall x :: Node(h, x) ==> Covered(h, nb, rsize, x)
    ensures v == 0 ==> forall c: nat, s: nat :: Holds(h, c, s) ==> s < nb
    ensures v != 0 ==> BestFit(h, nb, v, nb + rsize) && nb + rsize < WORD_LIMIT
    ensures v != 0 ==> ValidPath(vp) && v == Walk(h, vp) && NodeOk(h, v) && v in h.ring[v]
  {
    forall c: nat, s: nat | Holds(h, c, s) ensures s < WORD_LIMIT && (s < nb || s >= nb + rsize) {
      var q := HeldNode(h, c, s);
    }
    if v != 0 {
      NodeFits(h, vp);
      NodeHeld(h, vp);
    }
  }

  /** The unsigned comparison with the designated victim. */
  lemma VictimFits(h: Heap, nb: nat, v: nat, rsize: nat, dv: nat)
    requires |h.roots| == NTREEBINS && nb < WORD_LIMIT && dv < WORD_LIMIT
    requires v == 0 ==> forall c: nat, s: nat :: Holds(h, c, s) ==> s < nb
    requires v != 0 ==> BestFit(h, nb, v, nb + rsize) && nb + rsize < WORD_LIMIT
    ensures v == 0 || rsize >= Sub32(dv, nb) <==> forall c: nat, s: nat :: Holds(h, c, s) && s >= nb ==> nb <= dv <= s
  {
    hide Holds;
    if v != 0 && (forall c: nat, s: nat :: Holds(h, c, s) && s >= nb ==> nb <= dv <= s) {
      assert Holds(h, v, nb + rsize);
    }
  }

  lemma Unheld(h: Heap, h': Heap, nb: nat, v: nat, rsize: nat)
    requires |h.roots| == NTREEBINS && Separate(h) && Removes(h, h', v) && BestFit(h, nb, v, nb + rsize)
    ensures Separate(h')
    ensures rsize > 0 ==> NotHeld(h', v + nb)
    ensures rsize < MIN_CHUNK_SIZE ==> Granted(h, h', nb, Grant(v, nb + rsize, 0))
    ensures MIN_CHUNK_SIZE <= rsize < MIN_LARGE_SIZE ==> Granted(h, h', nb, Grant(v, nb, rsize))
  {
    hide HoldsAt;
    assert Holds(h, v, nb + rsize);
    var x := v + nb;
    if rsize > 0 {
      forall q, s: nat | ValidPath(q) ensures !HoldsAt(h', q, x, s) {
        assert !Holds(h', x, s);
      }
    }
  }

  lemma Regained(h: Heap, g: Heap, h': Heap, nb: nat, v: nat, rsize: nat)
    requires |h.roots| == NTREEBINS && Separate(h) && Removes(h, g, v) && Adds(g, h', v + nb, rsize)
    requires BestFit(h, nb, v, nb + rsize) && rsize >= MIN_LARGE_SIZE
    ensures Separate(h') && Granted(h, h', nb, Grant(v, nb, rsize))
  {
    hide Holds;
    assert Holds(h, v, nb + rsize);
  }

  /** What comparing the node at p with the candidate so far establishes, taken or not. */
  lemma Offer(h: Heap, nb: nat, v: nat, vp: Path, rsize: nat, p: Path)
    requires Inv(h) && ValidPath(p) && Walk(h, p) != 0 && MIN_LARGE_SIZE <= nb < WORD_LIMIT
    requires Candidate(h, nb, v, vp, rsize)
    ensures Walk(h, p) in h.size && h.size[Walk(h, p)] < WORD_LIMIT
    ensures var trem := Sub32(h.size[Walk(h, p)], nb);
      if trem < rsize then Candidate(h, nb, Walk(h, p), p, trem) && Covered(h, nb, trem, p)
      else Node(h, p) && Covered(h, nb, rsize, p)
    ensures Node(h, p) && h.size[Walk(h, p)] == Size(h, p)
  {
    NodeFits(h, p);
  }

  lemma ChildNode(h: Heap, q: Path, b: nat)
    requires Inv(h) && ValidPath(q) && Walk(h, q) != 0 && b < 2 && Kid(h, Walk(h, q), b) != 0
    ensures ValidPath(q + [b]) && Walk(h, q + [b]) == Kid(h, Walk(h, q), b) && NodeOk(h, Walk(h, q + [b]))
    ensures Init(q + [b]) == q && Last(q + [b]) == b && 0 <= Open(q + [b]) == Open(q) - 1 && q < q + [b]
  {
    KidPath(h, q, b);
    assert Init(q + [b]) == q;
    assert Fits(h.size[Walk(h, q + [b])], q + [b]);
  }

  lemma LeafAt(h: Heap, g: Heap, h': Heap, p: Path, q: Path, x: nat, r: nat)
    requires Inv(h) && Stamped(h) && ValidPath(p) && ValidPath(q) && p != q && x == Walk(h, p) != 0
    requires r == Walk(h, q) != 0
    requires |h.ring[x]| == 1 && g == SetSlot(h, q, 0) && |g.roots| == NTREEBINS
    requires forall y, c, t :: ValidPath(y) ==> (HoldsAt(g, y, c, t) <==> y != q && HoldsAt(h, y, c, t))
    requires h' == Replace(g, p, r, g.ring[r], g.size[r]) && Swapped(g, h', p, g.ring[r], g.size[r])
    ensures Removes(h, h', x) && Stamped(h')
  {
    hide Walk, Replace;
    NodeHeld(h, p);
    assert h.ring[x] == [x];
    assert h'.size == h.size && g.size == h.size && g.ring == h.ring by { LeafSize(g, h', p, r); }
    assert forall c: nat, t: nat :: HoldsAt(h', p, c, t) <==> HoldsAt(h, q, c, t);
    assert forall y, c, t :: ValidPath(y) && y != p ==> (HoldsAt(h', y, c, t) <==> y != q && HoldsAt(h, y, c, t));
    LeafMoved(h, h', p, q, x, h.size[x]);
  }

  lemma LeafSize(g: Heap, h': Heap, p: Path, r: nat)
    requires |g.roots| == NTREEBINS && ValidPath(p) && r in g.size && r in g.ring
    requires h' == Replace(g, p, r, g.ring[r], g.size[r])
    ensures h'.size == g.size
  {
    assert g.size[r := g.size[r]] == g.size;
  }

  lemma LeafMoved(h: Heap, h': Heap, p: Path, q: Path, x: nat, s: nat)
    requires Inv(h) && Stamped(h) && ValidPath(p) && ValidPath(q) && p != q && |h'.roots| == NTREEBINS
    requires h'.size == h.size
    requires forall c: nat, t: nat :: HoldsAt(h, p, c, t) ==> c == x
    requires HoldsAt(h, p, x, s)
    requires forall c: nat, t: nat :: HoldsAt(h', p, c, t) <==> HoldsAt(h, q, c, t)
    requires forall y, c, t :: ValidPath(y) && y != p ==> (HoldsAt(h', y, c, t) <==> y != q && HoldsAt(h, y, c, t))
    ensures Removes(h, h', x) && Stamped(h')
  {
    hide HoldsAt, Walk;
    forall c, t ensures Holds(h', c, t) <==> Holds(h, c, t) && c != x {
      if Holds(h, c, t) && c != x {
        var y :| ValidPath(y) && HoldsAt(h, y, c, t);
        assert HoldsAt(h', if y == q then p else y, c, t);
      }
      if Holds(h', c, t) {
        var y :| ValidPath(y) && HoldsAt(h', y, c, t);
        assert HoldsAt(h, if y == p then q else y, c, t);
      }
    }
  }

  lemma RingSize(h: Heap, p: Path, x: nat)
    requires Inv(h) && Stamped(h) && ValidPath(p) && x == Walk(h, p) != 0
    ensures x in h.ring && x in h.parent && x in h.size
    ensures forall c :: c in h.ring[x] ==> c in h.size && h.size[c] == h.size[x]
  {
    hide Walk;
    assert forall c :: c in h.ring[x] ==> HoldsAt(h, p, c, h.size[x]);
  }

  /** The roots of the bins after one path was renamed. */
  lemma Roots(h: Heap, h': Heap, p: Path, x: nat)
    requires Renamed(h, h', p, x) && ValidPath(p)
    ensures forall i :: 0 <= i < NTREEBINS ==> h'.roots[i] == if p == [i] then x else h.roots[i]
    ensures |p| == 1 ==> p == [p[0]] && h.roots[p[0]] == Walk(h, p)
  {
    forall i | 0 <= i < NTREEBINS ensures h'.roots[i] == if p == [i] then x else h.roots[i] {
      assert Walk(h', [i]) == h'.roots[i] && Walk(h, [i]) == h.roots[i];
    }
  }

  lemma RemovedAt(h: Heap, h': Heap, x: nat)
    requires Stamped(h) && |h'.roots| == NTREEBINS && h'.size == h.size
    requires forall q, c, t :: ValidPath(q) ==> (HoldsAt(h', q, c, t) <==> HoldsAt(h, q, c, t) && c != x)
    ensures Removes(h, h', x) && Stamped(h')
  {
    hide HoldsAt;
    forall c, t ensures Holds(h', c, t) <==> Holds(h, c, t) && c != x {
      if Holds(h, c, t) && c != x {
        var q :| ValidPath(q) && HoldsAt(h, q, c, t);
        assert HoldsAt(h', q, c, t);
      }
      if Holds(h', c, t) {
        var q :| ValidPath(q) && HoldsAt(h', q, c, t);
        assert HoldsAt(h, q, c, t);
      }
    }
  }

  lemma PromoteAt(h: Heap, h': Heap, p: Path, x: nat)
    requires Inv(h) && Stamped(h) && ValidPath(p) && x == Walk(h, p) != 0 && |h.ring[x]| > 1
    requires h' == Replace(h, p, h.ring[x][1], h.ring[x][1..], h.size[x])
    requires Swapped(h, h', p, h.ring[x][1..], h.size[x])
    ensures Removes(h, h', x) && Stamped(h')
  {
    hide Walk;
    var rs := h.ring[x];
    assert RingOk(h, x, rs);
    RingSize(h, p, x);
    assert h'.size == h.size by { assert rs[1] in rs; }
    hide Replace;
    NodeHeld(h, p);
    forall q, c, t | ValidPath(q) ensures HoldsAt(h', q, c, t) <==> HoldsAt(h, q, c, t) && c != x {
      assert c in rs[1..] <==> c in rs && c != x by { assert rs == [x] + rs[1..]; }
    }
    RemovedAt(h, h', x);
  }

  lemma PruneAt(h: Heap, h': Heap, p: Path, x: nat)
    requires Inv(h) && Stamped(h) && ValidPath(p) && x == Walk(h, p) != 0 && h'.size == h.size
    requires |h.ring[x]| == 1 && |h'.roots| == NTREEBINS
    requires forall q, c, t :: ValidPath(q) ==> (HoldsAt(h', q, c, t) <==> q != p && HoldsAt(h, q, c, t))
    ensures Removes(h, h', x) && Stamped(h')
  {
    hide Walk;
    NodeHeld(h, p);
    assert h.ring[x] == [x];
    RemovedAt(h, h', x);
  }

  /** A held chunk's own size field is the size of its node. */
  ghost predicate Stamped(h: Heap) {
    && |h.roots| == NTREEBINS
    && forall q, c, s :: ValidPath(q) && HoldsAt(h, q, c, s) ==> c in h.size && h.size[c] == s
  }

  lemma PlantStamped(h: Heap, h': Heap, p: Path, x: nat, s: nat)
    requires Stamped(h) && Swapped(h, h', p, [x], s) && h'.size == h.size[x := s] && Elsewhere(h, p, x)
    ensures Stamped(h')
  {
    hide HoldsAt;
  }

  lemma AppendStamped(h: Heap, h': Heap, p: Path, x: nat, s: nat)
    requires Stamped(h) && NotHeld(h, x) && |h'.roots| == NTREEBINS && h'.size == h.size[x := s]
    requires forall q, c, t :: ValidPath(q) ==>
      (HoldsAt(h', q, c, t) <==> HoldsAt(h, q, c, t) || (q == p && c == x && t == s))
    ensures Stamped(h')
  {
    hide HoldsAt;
  }

  /** Where the pointer to a node is stored. */
  lemma SlotFacts(h: Heap, p: Path, x: nat)
    requires Inv(h) && ValidPath(p) && x == Walk(h, p) != 0
    ensures |h.roots| == NTREEBINS && x in h.parent
    ensures TreeIndex(h.size[x]) == p[0] && (h.roots[p[0]] == x <==> |p| == 1)
    ensures |p| > 1 ==>
      var up := Walk(h, Init(p));
      && h.parent[x] == AtNode(up) && Last(p) < 2 && Kid(h, up, Last(p)) == x
      && (Kid(h, up, 0) == x <==> Last(p) == 0)
  {
    hide TreeIndex;
    var root := [p[0]];
    assert Walk(h, root) == h.roots[p[0]];
    if h.roots[p[0]] == x { SameNode(h, root, p); }
    if |p| > 1 {
      InitValid(p);
      KidPath(h, Init(p), 0);
      if Kid(h, Walk(h, Init(p)), 0) == x { SameNode(h, Init(p) + [0], p); }
    }
  }

  lemma ReplaceApart(h: Heap, p: Path, x: nat, r: nat, rs: seq<nat>, s: nat)
    requires |h.roots| == NTREEBINS && ValidPath(p) && x == Walk(h, p) != 0 && CanReplace(h, p, r, rs, s)
    ensures x in h.parent && r != x && h.parent[x] == UpLink(h, p)
    ensures |p| > 1 ==> ValidPath(Init(p)) && Walk(h, Init(p)) != r && Walk(h, Init(p)) != x
  {
    hide Walk, Fits, RingOk, Elsewhere;
    if |p| > 1 {
      InitValid(p);
      if Walk(h, Init(p)) == x { SameNode(h, Init(p), p); assert false; }
    }
  }

  /** Replace, written as the stores that Relink makes. */
  lemma ReplaceIs(h: Heap, p: Path, x: nat, r: nat, rs: seq<nat>)
    requires |h.roots| == NTREEBINS && ValidPath(p) && x == Walk(h, p) != 0 && r in h.size
    requires CanReplace(h, p, r, rs, h.size[r])
    ensures x in h.parent && r != x && (|p| > 1 ==> Walk(h, Init(p)) != r && Walk(h, Init(p)) != x)
    ensures var g := SetSlot(h, p, r);
      var k0, k1 := Kid(h, x, 0), Kid(h, x, 1);
      var up0 := if k0 == 0 then h.parent else h.parent[k0 := AtNode(r)];
      var up1 := if k1 == 0 then up0 else up0[k1 := AtNode(r)];
      Replace(h, p, r, rs, h.size[r]) ==
        g.(kid := g.kid[(r, 0) := k0][(r, 1) := k1], ring := h.ring[r := rs], parent := up1[r := h.parent[x]])
  {
    hide Inv;
    ReplaceApart(h, p, x, r, rs, h.size[r]);
    assert h.size == h.size[r := h.size[r]];
    if |p| > 1 {
      KidsOutside(h, r, Init(p), Kid(h, x, 0), Kid(h, x, 1));
    }
  }

  /** h' holds the chunks of h and chunk x of size s. */
  ghost predicate Adds(h: Heap, h': Heap, x: nat, s: nat) {
    && |h.roots| == |h'.roots| == NTREEBINS
    && forall c: nat, t: nat :: Holds(h', c, t) <==> Holds(h, c, t) || (c == x && t == s)
  }

  /** h' holds the chunks of h other than x. */
  ghost predicate Removes(h: Heap, h': Heap, x: nat) {
    && |h.roots| == |h'.roots| == NTREEBINS
    && forall c: nat, t: nat :: Holds(h', c, t) <==> Holds(h, c, t) && c != x
  }

  ghost predicate NoneAbove(h: Heap, p: Path, s: nat)
    requires |h.roots| == NTREEBINS
  {
    forall q :: ValidPath(q) && q < p && Walk(h, q) != 0 ==> Walk(h, q) in h.size && h.size[Walk(h, q)] != s
  }

  lemma NoneAboveStep(h: Heap, p: Path, b: nat, s: nat)
    requires |h.roots| == NTREEBINS && ValidPath(p) && NoneAbove(h, p, s) && Walk(h, p) in h.size
    requires h.size[Walk(h, p)] != s
    ensures NoneAbove(h, p + [b], s)
  {
    hide Walk;
    forall q | ValidPath(q) && q < p + [b] && Walk(h, q) != 0 ensures Walk(h, q) in h.size && h.size[Walk(h, q)] != s {
      assert Init(p + [b]) == p;
      PrefixInit(q, p + [b]);
      assert q <= p && (|q| == |p| ==> q == p);
    }
  }

  lemma FreshSlot(h: Heap, p: Path, x: nat, s: nat)
    requires Inv(h) && ValidPath(p) && HasSlot(h, p) && Walk(h, p) == 0 && Fits(s, p)
    requires x != 0 && NotHeld(h, x) && NoneAbove(h, p, s)
    ensures CanReplace(h, p, x, [x], s)
  {
    SizeAbsent(h, p, s);
    NewCanReplace(h, p, x, s);
  }

  lemma PlantAdds(h: Heap, h': Heap, p: Path, x: nat, s: nat)
    requires Swapped(h, h', p, [x], s) && ValidPath(p) && Walk(h, p) == 0
    ensures Adds(h, h', x, s)
  {
    hide Walk;
    assert HoldsAt(h', p, x, s);
    forall c, t ensures Holds(h', c, t) <==> Holds(h, c, t) || (c == x && t == s) {
      if Holds(h, c, t) {
        var q :| ValidPath(q) && HoldsAt(h, q, c, t);
        assert HoldsAt(h', q, c, t);
      }
      if Holds(h', c, t) {
        var q :| ValidPath(q) && HoldsAt(h', q, c, t);
        assert q != p ==> HoldsAt(h, q, c, t);
      }
    }
  }

  lemma AppendAdds(h: Heap, h': Heap, p: Path, x: nat, s: nat)
    requires |h.roots| == |h'.roots| == NTREEBINS && ValidPath(p)
    requires forall q, c, t :: ValidPath(q) ==>
      (HoldsAt(h', q, c, t) <==> HoldsAt(h, q, c, t) || (q == p && c == x && t == s))
    ensures Adds(h, h', x, s)
  {
    hide HoldsAt;
    assert HoldsAt(h', p, x, s);
    forall c, t ensures Holds(h', c, t) <==> Holds(h, c, t) || (c == x && t == s) {
      if Holds(h, c, t) {
        var q :| ValidPath(q) && HoldsAt(h, q, c, t);
        assert HoldsAt(h', q, c, t);
      }
      if Holds(h', c, t) && !(c == x && t == s) {
        var q :| ValidPath(q) && HoldsAt(h', q, c, t);
        assert HoldsAt(h, q, c, t);
      }
    }
  }

  /** The way down starts at the root of the bin. */
  lemma StartDown(h: Heap, s: nat)
    requires Inv(h) && MIN_LARGE_SIZE <= s < WORD_LIMIT
    ensures var i := TreeIndex(s); 0 <= i < NTREEBINS && ValidPath([i]) && Walk(h, [i]) == h.roots[i] && Fits(s, [i])
    ensures var i := TreeIndex(s); 0 <= LeftShift(i) == 32 - Width(i) && Open([i]) == Width(i) <= 32
    ensures var i := TreeIndex(s); s * Pow2(LeftShift(i)) % WORD_LIMIT == Register(s, Width(i))
    ensures var i := TreeIndex(s); h.roots[i] != 0 ==> NodeOk(h, h.roots[i])
  {
    hide TreeIndex, Pow2, FloorLog;
    BinPrefix(s);
    var p := [TreeIndex(s)];
    RegisterStart(p[0]);
    assert ValidPath(p) && Walk(h, p) == h.roots[p[0]];
  }

  /** One step down a trie on the sign bit of the register. */
  lemma StepDown(h: Heap, p: Path, s: nat, b: nat)
    requires Inv(h) && ValidPath(p) && Walk(h, p) != 0 && Fits(s, p) && h.size[Walk(h, p)] != s
    requires Open(p) <= 32 && b == Register(s, Open(p)) / SIGN
    ensures Open(p) > 0 && b < 2 && ValidPath(p + [b]) && Open(p + [b]) == Open(p) - 1 && Fits(s, p + [b])
    ensures Walk(h, p + [b]) == Kid(h, Walk(h, p), b) && Init(p + [b]) == p && Last(p + [b]) == b
    ensures 2 * Register(s, Open(p)) % WORD_LIMIT == Register(s, Open(p) - 1)
    ensures Walk(h, p + [b]) != 0 ==> NodeOk(h, Walk(h, p + [b]))
  {
    hide Register, TreeIndex;
    var w := Open(p);
    assert Init(p + [b]) == p;
    assert Fits(h.size[Walk(h, p)], p);
    assert w > 0;
    RegisterStep(s, w);
    ShrStep(s, w - 1);
    assert ValidPath(p + [b]);
  }

  lemma {:induction false} EmptyWalk(h: Heap, q: Path)
    requires h.roots == seq(NTREEBINS, i => 0) && ValidPath(q)
    ensures Walk(h, q) == 0
    decreases |q|
  {
    if |q| > 1 {
      InitValid(q);
      EmptyWalk(h, Init(q));
    }
  }

  lemma PlantIs(h: Heap, p: Path, x: nat, s: nat, t: nat, b: nat)
    requires Inv(h) && ValidPath(p) && b == Last(p) && Walk(h, p) == 0 && x != 0 && !InTree(h, x)
    requires |p| > 1 ==> t == Walk(h, Init(p))
    ensures Replace(h, p, x, [x], s) ==
      var kids := h.kid[(x, 0) := 0][(x, 1) := 0];
      Heap(
        if |p| == 1 then h.roots[b := x] else h.roots,
        if |p| == 1 then kids else kids[(t, b) := x],
        h.size[x := s], h.ring[x := [x]],
        h.parent[x := if |p| == 1 then AtBin(b) else AtNode(t)])
  {
    if |p| > 1 {
      InitValid(p);
      KidsOutside(h, x, Init(p), 0, 0);
    }
  }
}
