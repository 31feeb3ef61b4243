/** What the best-fit search of the tree bins maintains. */
module TrieSearch {
  import opened Arith
  import opened TreeBins
  import opened TrieHeap
  import opened Paths

  ghost predicate Node(h: Heap, q: Path) {
    |h.roots| == NTREEBINS && ValidPath(q) && Walk(h, q) != 0 && Walk(h, q) in h.size
  }

  ghost function Size(h: Heap, q: Path): nat
    requires Node(h, q)
  {
    h.size[Walk(h, q)]
  }

  /** Taking the node at q for a request nb would leave at least rsize bytes over, or it is too small. */
  ghost predicate Covered(h: Heap, nb: nat, rsize: nat, q: Path)
    requires Node(h, q)
  {
    Size(h, q) < nb || Size(h, q) - nb >= rsize
  }

  /** Node v, at path vp, is large enough for nb and leaves rsize bytes over; or there is no candidate yet. */
  ghost predicate Candidate(h: Heap, nb: nat, v: nat, vp: Path, rsize: nat) {
    if v == 0 then nb + rsize == WORD_LIMIT
    else Node(h, vp) && v == Walk(h, vp) && Size(h, vp) == nb + rsize
  }

  lemma NodeFits(h: Heap, q: Path)
    requires Inv(h) && ValidPath(q) && Walk(h, q) != 0
    ensures Node(h, q) && Fits(Size(h, q), q) && MIN_LARGE_SIZE <= Size(h, q) < WORD_LIMIT && Open(q) >= 0
    ensures TreeIndex(Size(h, q)) == q[0]
  {
  }

  lemma Below(q: Path, x: Path)
    requires ValidPath(q) && ValidPath(x) && q <= x
    ensures x == q || q + [0] <= x || q + [1] <= x
  {
    if |x| > |q| {
      assert x[|q|] < 2;
      assert x[..|q| + 1] == q + [x[|q|]];
    }
  }

  lemma ChildBelow(q: Path, b: nat)
    requires ValidPath(q) && b < 2
    ensures ValidPath(q + [b]) && q <= q + [b] && Init(q + [b]) == q
  {
  }

  lemma NoneBelow(h: Heap, q: Path, x: Path)
    requires |h.roots| == NTREEBINS && ValidPath(q) && Walk(h, q) == 0 && ValidPath(x) && q <= x
    ensures Walk(h, x) == 0
  {
    if Walk(h, x) != 0 { PrefixNamed(h, q, x); assert false; }
  }

  /** A size that belongs below the left child is smaller than every node below the right one. */
  lemma LeftOfNode(h: Heap, s: nat, q: Path, y: Path)
    requires Inv(h) && ValidPath(q) && ValidPath(q + [0]) && ValidPath(q + [1])
    requires Fits(s, q + [0]) && Node(h, y) && q + [1] <= y
    ensures s < Size(h, y)
  {
    hide Walk;
    NodeFits(h, y);
    FitsAbove(Size(h, y), q + [1], y);
    LeftIsSmaller(s, Size(h, y), q);
  }

  lemma RightOfNode(h: Heap, s: nat, q: Path, x: Path)
    requires Inv(h) && ValidPath(q) && ValidPath(q + [0]) && ValidPath(q + [1])
    requires Fits(s, q + [1]) && Node(h, x) && q + [0] <= x
    ensures Size(h, x) < s
  {
    hide Walk;
    NodeFits(h, x);
    FitsAbove(Size(h, x), q + [0], x);
    LeftIsSmaller(Size(h, x), s, q);
  }

  lemma LeftRight(h: Heap, q: Path, x: Path, y: Path)
    requires Inv(h) && ValidPath(q) && Node(h, x) && Node(h, y) && q + [0] <= x && q + [1] <= y
    ensures Size(h, x) < Size(h, y)
  {
    hide Walk;
    ChildBelow(q, 0);
    ChildBelow(q, 1);
    NodeFits(h, x);
    FitsAbove(Size(h, x), q + [0], x);
    LeftOfNode(h, Size(h, x), q, y);
  }

  // ---- The leftmost walk -------------------------------------------------------------------

  ghost predicate Enough(h: Heap, nb: nat, q: Path) {
    forall x :: Node(h, x) && q <= x ==> Size(h, x) > nb
  }

  /** Nodes below start that the walk has not covered lie below its position q or are larger than the node there. */
  ghost predicate Leftmost(h: Heap, nb: nat, rsize: nat, start: Path, q: Path) {
    forall x :: Node(h, x) && start <= x ==>
      Covered(h, nb, rsize, x) || q <= x || (Node(h, q) && Size(h, x) > Size(h, q))
  }

  lemma LeftStep(h: Heap, nb: nat, rsize: nat, start: Path, q: Path, b: nat)
    requires Inv(h) && ValidPath(start) && Node(h, q) && start <= q && Leftmost(h, nb, rsize, start, q)
    requires Covered(h, nb, rsize, q) && (rsize == 0 || Enough(h, nb, start))
    requires b == if Kid(h, Walk(h, q), 0) != 0 then 0 else 1
    ensures ValidPath(q + [b]) && start <= q + [b] && Walk(h, q + [b]) == Kid(h, Walk(h, q), b)
    ensures Leftmost(h, nb, rsize, start, q + [b])
    ensures Open(q) > 0 || Walk(h, q + [b]) == 0
    ensures Walk(h, q + [b]) != 0 ==> Node(h, q + [b])
    ensures Open(q + [b]) == Open(q) - 1
  {
    hide Walk;
    KidPath(h, q, 0);
    KidPath(h, q, 1);
    ChildBelow(q, b);
    if Walk(h, q + [b]) != 0 { NodeFits(h, q + [b]); }
    forall x | Node(h, x) && start <= x && !Covered(h, nb, rsize, x)
      ensures q + [b] <= x || (Node(h, q + [b]) && Size(h, x) > Size(h, q + [b]))
    {
      LeftStepAt(h, nb, rsize, start, q, b, x);
    }
  }

  lemma LeftStepAt(h: Heap, nb: nat, rsize: nat, start: Path, q: Path, b: nat, x: Path)
    requires Inv(h) && ValidPath(start) && Node(h, q) && start <= q && Leftmost(h, nb, rsize, start, q)
    requires Covered(h, nb, rsize, q) && (rsize == 0 || Enough(h, nb, start))
    requires b == if Kid(h, Walk(h, q), 0) != 0 then 0 else 1
    requires Node(h, x) && start <= x && !Covered(h, nb, rsize, x)
    ensures q + [b] <= x || (Node(h, q + [b]) && Size(h, x) > Size(h, q + [b]))
  {
    hide Walk, Inv;
    assert q <= x;
    Below(q, x);
    KidIs(h, q, 0);
    KidIs(h, q, 1);
    if b == 0 && q + [1] <= x {
      LeftRight(h, q, q + [0], x);
    }
    if b == 1 && q + [0] <= x {
      NoneBelow(h, q + [0], x);
    }
  }

  lemma LeftStart(h: Heap, nb: nat, rsize: nat, start: Path)
    ensures Leftmost(h, nb, rsize, start, start)
  {
  }

  lemma LeftTighten(h: Heap, nb: nat, rsize: nat, less: nat, start: Path, q: Path)
    requires Leftmost(h, nb, rsize, start, q) && less <= rsize
    ensures Leftmost(h, nb, less, start, q)
  {
    hide Node, Size;
  }

  lemma LeftEnd(h: Heap, nb: nat, rsize: nat, start: Path, q: Path)
    requires Inv(h) && ValidPath(q) && Walk(h, q) == 0 && Leftmost(h, nb, rsize, start, q)
    ensures forall x :: Node(h, x) && start <= x ==> Covered(h, nb, rsize, x)
  {
    hide Walk, Inv;
    forall x | Node(h, x) ensures !(q <= x) {
      if q <= x { NoneBelow(h, q, x); assert false; }
    }
  }

  lemma KidIs(h: Heap, q: Path, b: nat)
    requires Inv(h) && Node(h, q) && b < 2
    ensures ValidPath(q + [b]) && Walk(h, q + [b]) == Kid(h, Walk(h, q), b)
    ensures Walk(h, q + [b]) != 0 ==> Node(h, q + [b])
    ensures Open(q + [b]) == Open(q) - 1 && q <= q + [b]
  {
    KidPath(h, q, b);
    if Walk(h, q + [b]) != 0 { NodeFits(h, q + [b]); }
  }

  // ---- The descent along the bits of the request ----------------------------------------------

  /** The subtree at rp holds only sizes above nb and above every size below p. */
  ghost predicate ToTheRight(h: Heap, nb: nat, p: Path, rp: Path) {
    && Node(h, rp) && Enough(h, nb, rp)
    && forall y, z :: Node(h, y) && Node(h, z) && rp <= y && p <= z ==> Size(h, z) < Size(h, y)
  }

  /** Nodes of the bin not yet covered lie below p, below the untaken subtree at rp, or beyond it. */
  ghost predicate Narrowed(h: Heap, nb: nat, rsize: nat, p: Path, some: bool, rp: Path) {
    && (some ==> ToTheRight(h, nb, p, rp))
    && forall x :: Node(h, x) && p != [] && p[..1] <= x ==>
         Covered(h, nb, rsize, x) || p <= x || (some && (rp <= x || Size(h, x) > Size(h, rp)))
  }

  /** The path and the untaken subtree after a step along bit b. */
  ghost predicate Stepped(h: Heap, p: Path, b: nat, some: bool, rp: Path, some': bool, rp': Path) {
    if b == 0 && Node(h, p + [1]) then some' && rp' == p + [1] else some' == some && rp' == rp
  }

  lemma NarrowRight(h: Heap, nb: nat, p: Path, b: nat, some: bool, rp: Path, some': bool, rp': Path)
    requires Inv(h) && Node(h, p) && b < 2 && ValidPath(p + [b]) && Fits(nb, p + [b])
    requires some ==> ToTheRight(h, nb, p, rp)
    requires Stepped(h, p, b, some, rp, some', rp')
    ensures some' ==> ToTheRight(h, nb, p + [b], rp')
  {
    hide Walk, Inv, Fits;
    ChildBelow(p, b);
    if b == 0 && Node(h, p + [1]) {
      ChildBelow(p, 1);
      forall y | Node(h, y) && p + [1] <= y ensures Size(h, y) > nb { LeftOfNode(h, nb, p, y); }
      forall y, z | Node(h, y) && Node(h, z) && p + [1] <= y && p + [0] <= z ensures Size(h, z) < Size(h, y) {
        LeftRight(h, p, z, y);
      }
    } else if some {
      forall y, z | Node(h, y) && Node(h, z) && rp <= y && p + [b] <= z ensures Size(h, z) < Size(h, y) {
        assert p <= z;
      }
    }
  }

  lemma NarrowStep(h: Heap, nb: nat, rsize: nat, p: Path, b: nat, some: bool, rp: Path, some': bool, rp': Path)
    requires Inv(h) && Node(h, p) && b < 2 && ValidPath(p + [b]) && Fits(nb, p + [b])
    requires Narrowed(h, nb, rsize, p, some, rp) && Covered(h, nb, rsize, p)
    requires Stepped(h, p, b, some, rp, some', rp')
    ensures Narrowed(h, nb, rsize, p + [b], some', rp')
  {
    hide Walk, Inv, Fits;
    NarrowRight(h, nb, p, b, some, rp, some', rp');
    assert (p + [b])[..1] == p[..1];
    forall x | Node(h, x) && p[..1] <= x && !Covered(h, nb, rsize, x)
      ensures p + [b] <= x || (some' && (rp' <= x || Size(h, x) > Size(h, rp')))
    {
      NarrowAt(h, nb, rsize, p, b, some, rp, some', rp', x);
    }
  }

  lemma NarrowAt(h: Heap, nb: nat, rsize: nat, p: Path, b: nat, some: bool, rp: Path, some': bool, rp': Path, x: Path)
    requires Inv(h) && Node(h, p) && b < 2 && ValidPath(p + [b]) && Fits(nb, p + [b])
    requires Narrowed(h, nb, rsize, p, some, rp) && Covered(h, nb, rsize, p)
    requires Stepped(h, p, b, some, rp, some', rp') && (some' ==> Node(h, rp'))
    requires Node(h, x) && p[..1] <= x && !Covered(h, nb, rsize, x)
    ensures p + [b] <= x || (some' && (rp' <= x || Size(h, x) > Size(h, rp')))
  {
    hide Walk, Inv, Fits;
    ChildBelow(p, 0);
    ChildBelow(p, 1);
    if p <= x {
      Below(p, x);
      if b == 1 && p + [0] <= x {
        RightOfNode(h, nb, p, x);
      }
      if b == 0 && p + [1] <= x {
        KidIs(h, p, 1);
        if Walk(h, p + [1]) == 0 { NoneBelow(h, p + [1], x); }
      }
    } else if b == 0 && Node(h, p + [1]) {
      assert p <= p + [1];
      assert rp <= rp;
    }
  }

  lemma StartNarrow(h: Heap, nb: nat, rsize: nat, i: nat)
    requires nb + rsize == WORD_LIMIT
    ensures Narrowed(h, nb, rsize, [i], false, []) && Candidate(h, nb, 0, [], rsize)
  {
    assert [i][..1] == [i];
  }

  lemma Tighten(h: Heap, nb: nat, rsize: nat, less: nat, p: Path, some: bool, rp: Path)
    requires Narrowed(h, nb, rsize, p, some, rp) && less <= rsize
    ensures Narrowed(h, nb, less, p, some, rp)
  {
    hide Node, Size, ToTheRight;
  }

  /** The subtree not taken at p. */
  lemma Untaken(h: Heap, p: Path, b: nat, some: bool, rp: Path)
    requires Inv(h) && Node(h, p) && b < 2
    ensures var rt, t := Kid(h, Walk(h, p), 1), Kid(h, Walk(h, p), b);
      if rt != 0 && rt != t
        then Stepped(h, p, b, some, rp, true, p + [1]) && ValidPath(p + [1]) && Walk(h, p + [1]) == rt
      else Stepped(h, p, b, some, rp, some, rp)
    ensures p + [1] != [] && (p + [1])[0] == p[0] && (p + [b])[0] == p[0]
  {
    hide Walk, Inv;
    KidIs(h, p, 0);
    KidIs(h, p, 1);
    if Node(h, p + [1]) && Node(h, p + [0]) { LeftRight(h, p, p + [0], p + [1]); }
  }

  lemma EndNarrow(h: Heap, nb: nat, rsize: nat, p: Path, some: bool, rp: Path)
    requires Inv(h) && ValidPath(p) && Walk(h, p) == 0 && Narrowed(h, nb, rsize, p, some, rp)
    ensures var q := if some then rp else p;
      && Enough(h, nb, q)
      && LeftOver(h, nb, rsize, p[0], q)
  {
    hide Walk, Inv;
    forall x | Node(h, x) ensures !(p <= x) {
      if p <= x { NoneBelow(h, p, x); assert false; }
    }
    forall x | Node(h, x) && x[0] == p[0] ensures p[..1] <= x {
      assert p[..1] == [x[0]];
    }
  }

  lemma ZeroCovers(h: Heap, nb: nat, i: nat, q: Path)
    ensures LeftOver(h, nb, 0, i, q)
  {
  }

  // ---- Putting the stages together -------------------------------------------------------------

  /** What is left of a bin after the descent: the subtree at q, and nodes larger than the node at q. */
  ghost predicate LeftOver(h: Heap, nb: nat, rsize: nat, i: nat, q: Path) {
    forall x :: Node(h, x) && x[0] == i ==>
      Covered(h, nb, rsize, x) || q <= x || (Node(h, q) && Size(h, x) > Size(h, q))
  }

  ghost predicate BinCovered(h: Heap, nb: nat, rsize: nat, i: nat) {
    forall x :: Node(h, x) && x[0] == i ==> Covered(h, nb, rsize, x)
  }

  /** Once that subtree is covered, so is the bin. */
  lemma LeftOverCovered(h: Heap, nb: nat, rsize0: nat, rsize: nat, i: nat, q: Path)
    requires LeftOver(h, nb, rsize0, i, q) && rsize <= rsize0 && (rsize0 == 0 || Enough(h, nb, q))
    requires forall x :: Node(h, x) && q <= x ==> Covered(h, nb, rsize, x)
    ensures BinCovered(h, nb, rsize, i)
  {
    hide Node;
    assert q <= q;
  }

  /** With an empty subtree at q nothing is left over. */
  lemma NothingLeft(h: Heap, nb: nat, rsize: nat, i: nat, q: Path)
    requires |h.roots| == NTREEBINS && ValidPath(q) && Walk(h, q) == 0 && LeftOver(h, nb, rsize, i, q)
    ensures BinCovered(h, nb, rsize, i)
  {
    hide Walk;
    forall x | Node(h, x) ensures !(q <= x) {
      if q <= x { NoneBelow(h, q, x); assert false; }
    }
  }

  lemma EmptyBin(h: Heap, i: nat)
    requires |h.roots| == NTREEBINS && i < NTREEBINS && h.roots[i] == 0
    ensures ValidPath([i]) && Walk(h, [i]) == 0 && forall x :: Node(h, x) ==> x[0] != i
  {
    forall x | Node(h, x) ensures x[0] != i {
      if x[0] == i { NoneBelow(h, [i], x); assert false; }
    }
  }

  lemma LargerBin(h: Heap, nb: nat, j: nat)
    requires Inv(h) && MIN_LARGE_SIZE <= nb < WORD_LIMIT && TreeIndex(nb) < j < NTREEBINS
    ensures ValidPath([j]) && Walk(h, [j]) == h.roots[j] && Enough(h, nb, [j])
  {
    hide TreeIndex;
    assert Walk(h, [j]) == h.roots[j];
    hide Walk;
    forall x | Node(h, x) && [j] <= x ensures Size(h, x) > nb {
      NodeFits(h, x);
      IndexMono(nb, Size(h, x));
    }
  }

  /** A covered node that is large enough means there is a candidate. */
  lemma HasCandidate(h: Heap, nb: nat, v: nat, vp: Path, rsize: nat, q: Path)
    requires Inv(h) && Candidate(h, nb, v, vp, rsize) && ValidPath(q) && Walk(h, q) != 0 && Enough(h, nb, q)
    requires forall x :: Node(h, x) && q <= x ==> Covered(h, nb, rsize, x)
    ensures v != 0
  {
    hide Walk;
    NodeFits(h, q);
    assert q <= q;
  }

  /** Covering the bin of nb, and the next non-empty bin if that held no fit, covers all bins. */
  lemma Finish(h: Heap, nb: nat, v: nat, vp: Path, rsize: nat, j: nat)
    requires Inv(h) && MIN_LARGE_SIZE <= nb < WORD_LIMIT && Candidate(h, nb, v, vp, rsize)
    requires 0 <= TreeIndex(nb) <= j <= NTREEBINS && BinCovered(h, nb, rsize, TreeIndex(nb))
    requires BinCovered(h, nb, rsize, j)
    requires forall k :: TreeIndex(nb) < k < j ==> h.roots[k] == 0
    requires j < NTREEBINS ==> v != 0 && vp[0] == j
    ensures forall x :: Node(h, x) ==> Covered(h, nb, rsize, x)
  {
    hide Walk, TreeIndex, Candidate, Covered, Inv;
    forall x | Node(h, x) ensures Covered(h, nb, rsize, x) {
      if x[0] < TreeIndex(nb) || j < x[0] {
        OtherBins(h, nb, v, vp, rsize, x);
      } else if TreeIndex(nb) < x[0] < j {
        EmptyBin(h, x[0]);
        assert false;
      }
    }
  }

  /** Nodes of a smaller bin are too small; nodes of a larger bin than the candidate's fit worse. */
  lemma OtherBins(h: Heap, nb: nat, v: nat, vp: Path, rsize: nat, x: Path)
    requires Inv(h) && MIN_LARGE_SIZE <= nb < WORD_LIMIT && Node(h, x) && Candidate(h, nb, v, vp, rsize)
    requires x[0] < TreeIndex(nb) || (v != 0 && vp[0] < x[0])
    ensures Covered(h, nb, rsize, x)
  {
    hide Walk, TreeIndex;
    NodeFits(h, x);
    if x[0] < TreeIndex(nb) {
      IndexMono(Size(h, x), nb);
    } else {
      NodeFits(h, vp);
      IndexMono(Size(h, vp), Size(h, x));
    }
  }

  lemma BinsCovered(h: Heap, nb: nat, rsize0: nat, rsize: nat, i: nat, j: nat)
    requires BinCovered(h, nb, rsize0, i) && rsize <= rsize0 && j < NTREEBINS
    requires forall x :: Node(h, x) && [j] <= x ==> Covered(h, nb, rsize, x)
    ensures BinCovered(h, nb, rsize, i) && BinCovered(h, nb, rsize, j)
  {
    forall x | Node(h, x) && x[0] == j ensures Covered(h, nb, rsize, x) {
      assert [j] <= x;
    }
  }

  lemma NoSuchBin(h: Heap, nb: nat, rsize: nat)
    ensures BinCovered(h, nb, rsize, NTREEBINS)
  {
    hide Walk;
  }
}
