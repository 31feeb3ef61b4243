/**
 * The pointer structure of the tree bins.  A node is named by the path that leads to it: the
 * bin followed by one bit per child pointer.  As with any tree of pointers the operations are
 * described by what they do to the function from paths to chunks.
 */
module TrieHeap {
  import opened Arith
  import opened Lists
  import opened TreeBins
  import opened Paths

  /** What a chunk's parent field says. */
  datatype Link = NotInTree | AtBin(bin: nat) | AtNode(node: nat)

  /**
   * Chunk zero is the null pointer.  `ring` gives the chunks of equal size that hang off a node,
   * the node's own chunk first, in the order of their bk links.
   */
  datatype Heap = Heap(
    roots: seq<nat>,
    kid: map<(nat, nat), nat>,
    size: map<nat, nat>,
    ring: map<nat, seq<nat>>,
    parent: map<nat, Link>)

  function Kid(h: Heap, c: nat, b: nat): nat {
    if (c, b) in h.kid then h.kid[(c, b)] else 0
  }

  predicate ValidPath(q: Path) {
    |q| >= 1 && q[0] < NTREEBINS && forall k :: 1 <= k < |q| ==> q[k] < 2
  }

  ghost function Walk(h: Heap, q: Path): nat
    requires |h.roots| == NTREEBINS && ValidPath(q)
    decreases |q|
  {
    if |q| == 1 then h.roots[q[0]]
    else
      var c := Walk(h, Init(q));
      if c == 0 then 0 else Kid(h, c, Last(q))
  }

  /** The size bits that a path fixes. */
  ghost function Bits(q: Path): nat
    requires ValidPath(q)
    decreases |q|
  {
    if |q| == 1 then Prefix(q[0]) else 2 * Bits(Init(q)) + Last(q)
  }

  /** The number of size bits a path leaves open. */
  ghost function Open(q: Path): int
    requires ValidPath(q)
  {
    Width(q[0]) - (|q| - 1)
  }

  /** Size s belongs at or below path q. */
  ghost predicate Fits(s: nat, q: Path)
    requires ValidPath(q)
  {
    MIN_LARGE_SIZE <= s < WORD_LIMIT && TreeIndex(s) == q[0] && Open(q) >= 0 && Shr(s, Open(q)) == Bits(q)
  }

  ghost predicate NodeOk(h: Heap, c: nat) {
    c in h.size && c in h.ring && h.ring[c] != [] && h.ring[c][0] == c
  }

  ghost predicate SameSize(h: Heap, q: Path, q': Path)
    requires |h.roots| == NTREEBINS && ValidPath(q) && ValidPath(q')
  {
    && Walk(h, q) != 0 && Walk(h, q') != 0
    && Walk(h, q) in h.size && Walk(h, q') in h.size
    && h.size[Walk(h, q)] == h.size[Walk(h, q')]
  }

  /** Every node's size carries the bits of its path, and no two nodes have the same size. */
  ghost predicate Trie(h: Heap) {
    && |h.roots| == NTREEBINS
    && (forall q :: ValidPath(q) && Walk(h, q) != 0 ==> NodeOk(h, Walk(h, q)) && Fits(h.size[Walk(h, q)], q))
    && (forall q, q' :: ValidPath(q) && ValidPath(q') && SameSize(h, q, q') ==> q == q')
  }

  lemma InitValid(q: Path)
    requires ValidPath(q) && |q| > 1
    ensures ValidPath(Init(q)) && Init(q)[0] == q[0] && Last(q) < 2 && q == Init(q) + [Last(q)]
  {
  }

  /** A size that belongs below a path belongs below every path above it. */
  lemma {:induction false} FitsAbove(s: nat, p: Path, q: Path)
    requires ValidPath(p) && ValidPath(q) && p <= q && Fits(s, q)
    ensures Fits(s, p)
    decreases |q|
  {
    PrefixInit(p, q);
    if p != q {
      InitValid(q);
      ShrStep(s, Open(q));
      FitsAbove(s, p, Init(q));
    }
  }

  /** The paths a size belongs to form a chain. */
  lemma {:induction false} FitsChain(s: nat, p: Path, q: Path)
    requires ValidPath(p) && ValidPath(q) && Fits(s, p) && Fits(s, q) && |p| <= |q|
    ensures p <= q
    decreases |q|
  {
    if |p| < |q| {
      InitValid(q);
      assert Init(q) <= q;
      FitsAbove(s, Init(q), q);
      FitsChain(s, p, Init(q));
      PrefixInit(p, q);
    } else {
      SamePath(p, q);
    }
  }

  lemma {:induction false} SamePath(p: Path, q: Path)
    requires ValidPath(p) && ValidPath(q) && |p| == |q| && p[0] == q[0] && Bits(p) == Bits(q)
    ensures p == q
    decreases |q|
  {
    if |q| > 1 {
      InitValid(p);
      InitValid(q);
      SamePath(Init(p), Init(q));
    }
  }

  /** Sizes below the left child are smaller than sizes below the right child. */
  lemma LeftIsSmaller(s: nat, s': nat, q: Path)
    requires ValidPath(q) && ValidPath(q + [0]) && ValidPath(q + [1]) && Fits(s, q + [0]) && Fits(s', q + [1])
    ensures s < s'
  {
    var w := Open(q + [0]);
    assert Init(q + [0]) == q && Init(q + [1]) == q;
    ShrRange(s, w, 2 * Bits(q));
    ShrRange(s', w, 2 * Bits(q) + 1);
  }

  // ---- Pointer updates ---------------------------------------------------------------------

  ghost predicate InTree(h: Heap, c: nat)
    requires |h.roots| == NTREEBINS
  {
    exists q :: ValidPath(q) && Walk(h, q) == c
  }

  /** h' names what h names, except that path p now names x. */
  ghost predicate Renamed(h: Heap, h': Heap, p: Path, x: nat) {
    && |h.roots| == |h'.roots| == NTREEBINS
    && forall q :: ValidPath(q) ==> Walk(h', q) == if q == p then x else Walk(h, q)
  }

  ghost predicate HasSlot(h: Heap, p: Path)
    requires |h.roots| == NTREEBINS && ValidPath(p)
  {
    |p| > 1 ==> Walk(h, Init(p)) != 0
  }

  /** Store x in the slot that path p names. */
  ghost function SetSlot(h: Heap, p: Path, x: nat): Heap
    requires |h.roots| == NTREEBINS && ValidPath(p)
  {
    if |p| == 1 then h.(roots := h.roots[p[0] := x])
    else h.(kid := h.kid[(Walk(h, Init(p)), Last(p)) := x])
  }

  function SetKids(h: Heap, x: nat, l: nat, r: nat): Heap {
    h.(kid := h.kid[(x, 0) := l][(x, 1) := r])
  }

  lemma SameNode(h: Heap, p: Path, q: Path)
    requires Trie(h) && ValidPath(p) && ValidPath(q) && Walk(h, p) == Walk(h, q) != 0
    ensures p == q
  {
    assert SameSize(h, p, q);
  }

  lemma DistinctSizes(h: Heap, p: Path, q: Path)
    requires Trie(h) && ValidPath(p) && ValidPath(q) && p != q && Walk(h, p) != 0 && Walk(h, q) != 0
    ensures h.size[Walk(h, p)] != h.size[Walk(h, q)]
  {
    assert !SameSize(h, p, q);
  }

  /** The child of a node, and of the null pointer too. */
  function KidOf(h: Heap, c: nat, b: nat): nat {
    if c == 0 then 0 else Kid(h, c, b)
  }

  ghost function Reseat(h: Heap, p: Path, x: nat): Heap
    requires |h.roots| == NTREEBINS && ValidPath(p)
  {
    SetSlot(SetKids(h, x, KidOf(h, Walk(h, p), 0), KidOf(h, Walk(h, p), 1)), p, x)
  }

  /**
   * Point the slot of p at a chunk x that is not in the tree and give x the children that the
   * old occupant of the slot had (none if the slot was empty).
   */
  lemma {:induction false} ReseatWalk(h: Heap, p: Path, x: nat, h': Heap, q: Path)
    requires Trie(h) && ValidPath(p) && ValidPath(q) && HasSlot(h, p) && x != 0 && !InTree(h, x)
    requires h' == Reseat(h, p, x)
    ensures |h'.roots| == NTREEBINS
    ensures Walk(h', q) == if q == p then x else Walk(h, q)
    decreases |q|
  {
    assert |h.roots| == NTREEBINS;
    hide Trie;
    SetKidsWalk(h, p, x, h');
    if |q| > 1 {
      InitValid(q);
      ReseatWalk(h, p, x, h', Init(q));
      var c := Walk(h, Init(q));
      if Init(q) == p {
        assert Walk(h', q) == Kid(h', x, Last(q));
      } else if |p| > 1 && c == Walk(h, Init(p)) {
        InitValid(p);
        SameNode(h, Init(p), Init(q));
        assert q == Init(p) + [Last(q)] && p == Init(p) + [Last(p)];
      } else if c != 0 {
        assert c != x;
      }
    }
  }

  /** The children after Reseat. */
  ghost function NewKid(h: Heap, p: Path, x: nat, c: nat, b: nat): nat
    requires |h.roots| == NTREEBINS && ValidPath(p)
  {
    if |p| > 1 && c == Walk(h, Init(p)) && b == Last(p) then x
    else if c == x then KidOf(h, Walk(h, p), b)
    else Kid(h, c, b)
  }

  lemma SetKidsWalk(h: Heap, p: Path, x: nat, h': Heap)
    requires Trie(h) && ValidPath(p) && HasSlot(h, p) && x != 0 && !InTree(h, x)
    requires h' == Reseat(h, p, x)
    ensures |h'.roots| == NTREEBINS
    ensures if |p| == 1 then h'.roots == h.roots[p[0] := x] else h'.roots == h.roots
    ensures forall c, b :: c != 0 && b < 2 ==> Kid(h', c, b) == NewKid(h, p, x, c, b)
  {
    if |p| > 1 {
      InitValid(p);
      KidsOutside(h, x, Init(p), KidOf(h, Walk(h, p), 0), KidOf(h, Walk(h, p), 1));
      assert InTree(h, Walk(h, Init(p)));
    }
  }

  /** Changing the children of a chunk outside the tree changes no path. */
  lemma {:induction false} KidsOutside(h: Heap, x: nat, q: Path, l: nat, r: nat)
    requires |h.roots| == NTREEBINS && ValidPath(q) && x != 0 && !InTree(h, x)
    ensures Walk(SetKids(h, x, l, r), q) == Walk(h, q)
    decreases |q|
  {
    if |q| > 1 {
      InitValid(q);
      KidsOutside(h, x, Init(q), l, r);
      assert Walk(h, Init(q)) != x;
    }
  }

  /** Path q ends at the slot of path p only if it is p. */
  lemma OneSlot(h: Heap, p: Path, q: Path)
    requires Trie(h) && ValidPath(p) && ValidPath(q) && |p| > 1 && |q| > 1
    requires Walk(h, Init(p)) == Walk(h, Init(q)) != 0 && Last(p) == Last(q)
    ensures q == p
  {
    InitValid(p);
    InitValid(q);
    hide Trie, Walk, ValidPath;
    SameNode(h, Init(p), Init(q));
    assert q == Init(q) + [Last(q)] && p == Init(p) + [Last(p)];
  }

  lemma SlotKid(h: Heap, p: Path, c: nat, b: nat)
    requires |h.roots| == NTREEBINS && ValidPath(p)
    ensures var h' := SetSlot(h, p, 0);
      Kid(h', c, b) == if |p| > 1 && c == Walk(h, Init(p)) && b == Last(p) then 0 else Kid(h, c, b)
  {
    hide Walk;
  }

  /** Clear the slot of a leaf. */
  lemma {:induction false} PruneWalk(h: Heap, p: Path, q: Path)
    requires Trie(h) && ValidPath(p) && ValidPath(q) && Walk(h, p) != 0
    requires Kid(h, Walk(h, p), 0) == 0 && Kid(h, Walk(h, p), 1) == 0
    ensures |SetSlot(h, p, 0).roots| == NTREEBINS
    ensures Walk(SetSlot(h, p, 0), q) == if q == p then 0 else Walk(h, q)
    decreases |q|
  {
    assert |h.roots| == NTREEBINS;
    hide Trie, Kid;
    if |q| > 1 {
      InitValid(q);
      PruneWalk(h, p, Init(q));
      var c := Walk(h, Init(q));
      SlotKid(h, p, c, Last(q));
      hide SetSlot, ValidPath;
      if |p| > 1 && c != 0 && c == Walk(h, Init(p)) && Last(q) == Last(p) { OneSlot(h, p, q); }
    }
  }

  // ---- The whole invariant ---------------------------------------------------------------------

  /** A chunk that hangs in a ring behind the node's own chunk. */
  ghost predicate Chained(h: Heap, c: nat) {
    c in h.parent && h.parent[c] == NotInTree && Kid(h, c, 0) == 0 && Kid(h, c, 1) == 0
  }

  ghost predicate RingOk(h: Heap, c: nat, rs: seq<nat>) {
    rs != [] && rs[0] == c && NoDup(rs) && 0 !in rs && forall x :: x in rs && x != c ==> Chained(h, x)
  }

  /** Chunk c of size s hangs off the node at path q. */
  ghost predicate HoldsAt(h: Heap, q: Path, c: nat, s: nat)
    requires |h.roots| == NTREEBINS && ValidPath(q)
  {
    var n := Walk(h, q);
    n != 0 && n in h.ring && n in h.size && c in h.ring[n] && h.size[n] == s
  }

  ghost predicate Holds(h: Heap, c: nat, s: nat)
    requires |h.roots| == NTREEBINS
  {
    exists q :: ValidPath(q) && HoldsAt(h, q, c, s)
  }

  ghost function UpLink(h: Heap, q: Path): Link
    requires |h.roots| == NTREEBINS && ValidPath(q)
  {
    if |q| == 1 then AtBin(q[0]) else AtNode(Walk(h, Init(q)))
  }

  ghost predicate Inv(h: Heap) {
    && Trie(h)
    && (forall q :: ValidPath(q) && Walk(h, q) != 0 ==>
          && RingOk(h, Walk(h, q), h.ring[Walk(h, q)])
          && Walk(h, q) in h.parent && h.parent[Walk(h, q)] == UpLink(h, q))
    && (forall q, q', c, s, s' :: ValidPath(q) && ValidPath(q') && HoldsAt(h, q, c, s) && HoldsAt(h, q', c, s') ==>
         q == q')
  }

  /** The chunk is on no ring of a node other than the one at p. */
  ghost predicate Elsewhere(h: Heap, p: Path, c: nat)
    requires |h.roots| == NTREEBINS
  {
    forall q, s :: ValidPath(q) && q != p ==> !HoldsAt(h, q, c, s)
  }

  ghost function Replace(h: Heap, p: Path, x: nat, rs: seq<nat>, s: nat): Heap
    requires |h.roots| == NTREEBINS && ValidPath(p)
  {
    var k0, k1 := KidOf(h, Walk(h, p), 0), KidOf(h, Walk(h, p), 1);
    var up0 := if k0 == 0 then h.parent else h.parent[k0 := AtNode(x)];
    var up1 := if k1 == 0 then up0 else up0[k1 := AtNode(x)];
    Reseat(h, p, x).(size := h.size[x := s], ring := h.ring[x := rs], parent := up1[x := UpLink(h, p)])
  }

  ghost predicate CanReplace(h: Heap, p: Path, x: nat, rs: seq<nat>, s: nat) {
    && Inv(h) && ValidPath(p) && HasSlot(h, p) && x != 0 && !InTree(h, x)
    && RingOk(h, x, rs)
    && (forall c :: c in rs ==> Elsewhere(h, p, c))
    && Fits(s, p)
    && (forall q :: ValidPath(q) && q != p && Walk(h, q) != 0 ==> h.size[Walk(h, q)] != s)
  }

  lemma ReplaceWalk(h: Heap, p: Path, x: nat, rs: seq<nat>, s: nat, h': Heap)
    requires CanReplace(h, p, x, rs, s) && h' == Replace(h, p, x, rs, s)
    ensures Renamed(h, h', p, x)
    ensures forall c, b :: c != 0 && b < 2 ==> Kid(h', c, b) == NewKid(h, p, x, c, b)
  {
    var r := Reseat(h, p, x);
    SetKidsWalk(h, p, x, r);
    forall q | ValidPath(q) ensures Walk(h', q) == if q == p then x else Walk(h, q) {
      ReseatWalk(h, p, x, r, q);
      WalkDepends(r, h', q);
    }
  }

  lemma {:induction false} WalkDepends(h: Heap, h': Heap, q: Path)
    requires |h.roots| == NTREEBINS && h'.roots == h.roots && h'.kid == h.kid && ValidPath(q)
    ensures Walk(h', q) == Walk(h, q)
    decreases |q|
  {
    if |q| > 1 {
      InitValid(q);
      WalkDepends(h, h', Init(q));
    }
  }

  lemma ReplaceTrie(h: Heap, p: Path, x: nat, rs: seq<nat>, s: nat, h': Heap)
    requires CanReplace(h, p, x, rs, s) && h' == Replace(h, p, x, rs, s)
    ensures Renamed(h, h', p, x) && Trie(h')
  {
    hide Walk, Reseat, Fits, HoldsAt, Elsewhere, Chained, UpLink;
    ReplaceWalk(h, p, x, rs, s, h');
    assert forall q :: ValidPath(q) && Walk(h, q) != 0 ==> Walk(h, q) != x;
    forall q | ValidPath(q) && Walk(h', q) != 0
      ensures NodeOk(h', Walk(h', q)) && Fits(h'.size[Walk(h', q)], q) {}
    forall q, q' | ValidPath(q) && ValidPath(q') && SameSize(h', q, q') ensures q == q' {
      assert q != p && q' != p ==> SameSize(h, q, q');
    }
  }

  /** After Replace the node at p holds the ring rs of size s; all others hold what they held. */
  ghost predicate Swapped(h: Heap, h': Heap, p: Path, rs: seq<nat>, s: nat) {
    && |h.roots| == |h'.roots| == NTREEBINS
    && forall q, c, t :: ValidPath(q) ==>
         (HoldsAt(h', q, c, t) <==> if q == p then c in rs && t == s else HoldsAt(h, q, c, t))
  }

  lemma ReplaceHolds(h: Heap, p: Path, x: nat, rs: seq<nat>, s: nat, h': Heap)
    requires CanReplace(h, p, x, rs, s) && h' == Replace(h, p, x, rs, s)
    ensures Swapped(h, h', p, rs, s)
  {
    ReplaceWalk(h, p, x, rs, s, h');
    hide Walk, Reseat, Fits;
    assert forall q :: ValidPath(q) && Walk(h, q) != 0 ==> Walk(h, q) != x;
  }

  /** A node's chunk is held at the node itself. */
  lemma NodeHeld(h: Heap, q: Path)
    requires Inv(h) && ValidPath(q) && Walk(h, q) != 0
    ensures HoldsAt(h, q, Walk(h, q), h.size[Walk(h, q)])
  {
    hide Walk, Fits;
    assert RingOk(h, Walk(h, q), h.ring[Walk(h, q)]);
  }

  /** Tree nodes other than p are not on the ring of p. */
  lemma NotANode(h: Heap, p: Path, c: nat, q: Path)
    requires Inv(h) && ValidPath(q) && q != p && Elsewhere(h, p, c) && c != 0
    ensures Walk(h, q) != c
  {
    hide Walk, Fits;
    if Walk(h, q) == c { NodeHeld(h, q); assert false; }
  }

  lemma KidPath(h: Heap, p: Path, b: nat)
    requires Trie(h) && ValidPath(p) && b < 2
    ensures ValidPath(p + [b]) && p + [b] != p && Walk(h, p + [b]) == KidOf(h, Walk(h, p), b)
    ensures UpLink(h, p + [b]) == AtNode(Walk(h, p))
  {
    assert Init(p + [b]) == p;
  }

  /** Chunks chained behind p's node keep their null fields. */
  lemma ReplaceChained(h: Heap, p: Path, x: nat, rs: seq<nat>, s: nat, h': Heap, y: nat)
    requires CanReplace(h, p, x, rs, s) && h' == Replace(h, p, x, rs, s)
    requires Chained(h, y) && y != x && y != 0
    requires forall q :: ValidPath(q) && q != p ==> Walk(h, q) != y
    ensures Chained(h', y)
  {
    hide Walk, Reseat, Fits, Kid, HoldsAt, Elsewhere, RingOk, SameSize, NodeOk;
    ReplaceWalk(h, p, x, rs, s, h');
    KidPath(h, p, 0);
    KidPath(h, p, 1);
    if |p| > 1 { InitValid(p); }
    assert y != KidOf(h, Walk(h, p), 0) && y != KidOf(h, Walk(h, p), 1);
  }

  lemma ReplaceRing(h: Heap, p: Path, x: nat, rs: seq<nat>, s: nat, h': Heap, q: Path)
    requires CanReplace(h, p, x, rs, s) && h' == Replace(h, p, x, rs, s)
    requires ValidPath(q) && |h'.roots| == NTREEBINS && Walk(h', q) != 0
    ensures Walk(h', q) in h'.ring && RingOk(h', Walk(h', q), h'.ring[Walk(h', q)])
  {
    ReplaceWalk(h, p, x, rs, s, h');
    hide Walk, Reseat, Fits, Chained;
    var n := Walk(h', q);
    var ring := if q == p then rs else h.ring[n];
    assert q != p ==> n != x;
    forall y | y in ring && y != n ensures Chained(h', y) {
      if q == p {
        forall q' | ValidPath(q') && q' != p ensures Walk(h, q') != y { NotANode(h, p, y, q'); }
      } else {
        OnlyItsOwn(h, q, y);
        assert y != x by { assert HoldsAt(h, q, y, h.size[n]); assert Elsewhere(h, p, x); }
      }
      ReplaceChained(h, p, x, rs, s, h', y);
    }
  }

  /** A chunk chained behind one node is the chunk of no node. */
  lemma OnlyItsOwn(h: Heap, q: Path, y: nat)
    requires Inv(h) && ValidPath(q) && Walk(h, q) != 0 && y in h.ring[Walk(h, q)] && y != Walk(h, q)
    ensures forall q' :: ValidPath(q') ==> Walk(h, q') != y
  {
    hide Walk, Fits;
    assert RingOk(h, Walk(h, q), h.ring[Walk(h, q)]);
    assert HoldsAt(h, q, y, h.size[Walk(h, q)]);
    forall q' | ValidPath(q') ensures Walk(h, q') != y {
      if Walk(h, q') == y { NodeHeld(h, q'); assert false; }
    }
  }

  lemma ReplaceUpLink(h: Heap, h': Heap, p: Path, x: nat, q: Path)
    requires Renamed(h, h', p, x) && ValidPath(p) && ValidPath(q)
    ensures UpLink(h', q) == if |q| > 1 && Init(q) == p then AtNode(x) else UpLink(h, q)
  {
    if |q| > 1 { InitValid(q); }
  }

  /** The children of the node at p are exactly the nodes one step below p. */
  lemma KidsBelow(h: Heap, p: Path, q: Path)
    requires Trie(h) && ValidPath(p) && ValidPath(q) && Walk(h, q) != 0
    ensures var k0, k1 := KidOf(h, Walk(h, p), 0), KidOf(h, Walk(h, p), 1);
      Walk(h, q) == k0 || Walk(h, q) == k1 <==> |q| > 1 && Init(q) == p
  {
    hide Walk, Fits, KidOf, UpLink;
    KidPath(h, p, 0);
    KidPath(h, p, 1);
    assert Init(p + [0]) == p && Init(p + [1]) == p;
    if |q| > 1 && Init(q) == p {
      InitValid(q);
      assert q == p + [0] || q == p + [1];
    }
    if Walk(h, q) == KidOf(h, Walk(h, p), 0) { SameNode(h, q, p + [0]); }
    if Walk(h, q) == KidOf(h, Walk(h, p), 1) { SameNode(h, q, p + [1]); }
  }

  lemma ReplaceParent(h: Heap, p: Path, x: nat, rs: seq<nat>, s: nat, h': Heap, q: Path)
    requires CanReplace(h, p, x, rs, s) && h' == Replace(h, p, x, rs, s)
    requires ValidPath(q) && |h'.roots| == NTREEBINS && Walk(h', q) != 0
    ensures Walk(h', q) in h'.parent && h'.parent[Walk(h', q)] == UpLink(h', q)
  {
    hide Walk, Reseat, Fits, Kid, KidOf, UpLink, RingOk;
    ReplaceWalk(h, p, x, rs, s, h');
    ReplaceUpLink(h, h', p, x, q);
    if q != p {
      assert Walk(h, q) != x;
      KidsBelow(h, p, q);
    } else {
      assert |p| > 1 ==> |Init(p)| < |p|;
    }
  }

  /** Replacing the occupant of a slot keeps the whole invariant. */
  lemma ReplaceInv(h: Heap, p: Path, x: nat, rs: seq<nat>, s: nat, h': Heap)
    requires CanReplace(h, p, x, rs, s) && h' == Replace(h, p, x, rs, s)
    ensures Inv(h') && Renamed(h, h', p, x) && Swapped(h, h', p, rs, s)
  {
    ReplaceTrie(h, p, x, rs, s, h');
    ReplaceHolds(h, p, x, rs, s, h');
    hide Walk, Replace, Fits, RingOk;
    forall q | ValidPath(q) && Walk(h', q) != 0
      ensures RingOk(h', Walk(h', q), h'.ring[Walk(h', q)])
      ensures Walk(h', q) in h'.parent && h'.parent[Walk(h', q)] == UpLink(h', q)
    {
      ReplaceRing(h, p, x, rs, s, h', q);
      ReplaceParent(h, p, x, rs, s, h', q);
    }
    forall q, q', c, t, t' | ValidPath(q) && ValidPath(q') && HoldsAt(h', q, c, t) && HoldsAt(h', q', c, t')
      ensures q == q'
    {
      assert c in rs ==> Elsewhere(h, p, c);
    }
  }

  // ---- Removing a leaf; rings -----------------------------------------------------------------

  lemma PruneRenames(h: Heap, r: Path, h': Heap)
    requires Trie(h) && ValidPath(r) && Walk(h, r) != 0 && h' == SetSlot(h, r, 0)
    requires Kid(h, Walk(h, r), 0) == 0 && Kid(h, Walk(h, r), 1) == 0
    ensures Renamed(h, h', r, 0) && h'.size == h.size && h'.ring == h.ring && h'.parent == h.parent
  {
    forall q | ValidPath(q) ensures Walk(h', q) == if q == r then 0 else Walk(h, q) { PruneWalk(h, r, q); }
  }

  lemma PruneInv(h: Heap, r: Path, h': Heap)
    requires Inv(h) && ValidPath(r) && Walk(h, r) != 0 && h' == SetSlot(h, r, 0)
    requires Kid(h, Walk(h, r), 0) == 0 && Kid(h, Walk(h, r), 1) == 0
    ensures Inv(h') && Renamed(h, h', r, 0)
    ensures forall q, c, t :: ValidPath(q) ==> (HoldsAt(h', q, c, t) <==> q != r && HoldsAt(h, q, c, t))
  {
    hide Walk, SetSlot, Fits, RingOk, UpLink, Kid, HoldsAt;
    PruneRenames(h, r, h');
    PruneHolds(h, r, h');
    forall q | ValidPath(q) && Walk(h', q) != 0
      ensures RingOk(h', Walk(h', q), h'.ring[Walk(h', q)])
      ensures h'.parent[Walk(h', q)] == UpLink(h', q)
    {
      PruneRing(h, r, h', q);
      PruneUpLink(h, r, h', q);
    }
    forall q, q' | ValidPath(q) && ValidPath(q') && SameSize(h', q, q') ensures q == q' {
      assert SameSize(h, q, q');
    }
    assert Trie(h');
  }

  lemma PruneHolds(h: Heap, r: Path, h': Heap)
    requires Renamed(h, h', r, 0) && h'.size == h.size && h'.ring == h.ring
    ensures forall q, c, t :: ValidPath(q) ==> (HoldsAt(h', q, c, t) <==> q != r && HoldsAt(h, q, c, t))
  {
    hide Walk;
  }

  lemma PruneUpLink(h: Heap, r: Path, h': Heap, q: Path)
    requires Inv(h) && ValidPath(r) && Walk(h, r) != 0 && Renamed(h, h', r, 0)
    requires Kid(h, Walk(h, r), 0) == 0 && Kid(h, Walk(h, r), 1) == 0
    requires ValidPath(q) && Walk(h', q) != 0
    ensures UpLink(h', q) == UpLink(h, q)
  {
    if |q| > 1 { InitValid(q); }
  }

  lemma PruneRing(h: Heap, r: Path, h': Heap, q: Path)
    requires Inv(h) && ValidPath(r) && Walk(h, r) != 0 && h' == SetSlot(h, r, 0) && Renamed(h, h', r, 0)
    requires ValidPath(q) && Walk(h, q) != 0
    ensures RingOk(h', Walk(h, q), h'.ring[Walk(h, q)])
  {
    hide Walk, Fits;
    var n := Walk(h, q);
    assert RingOk(h, n, h.ring[n]);
    forall y | y in h.ring[n] && y != n ensures Chained(h', y) {
      OnlyItsOwn(h, q, y);
      if |r| > 1 { InitValid(r); }
    }
  }

  ghost function Append(h: Heap, n: nat, x: nat, s: nat): Heap
    requires n in h.ring
  {
    SetKids(h, x, 0, 0).(size := h.size[x := s], ring := h.ring[n := h.ring[n] + [x]],
      parent := h.parent[x := NotInTree])
  }

  ghost predicate NotHeld(h: Heap, x: nat)
    requires |h.roots| == NTREEBINS
  {
    forall q, s :: ValidPath(q) ==> !HoldsAt(h, q, x, s)
  }

  lemma NotHeldNotNode(h: Heap, x: nat)
    requires Inv(h) && x != 0 && NotHeld(h, x)
    ensures !InTree(h, x)
  {
    hide Walk, Fits;
    forall q | ValidPath(q) ensures Walk(h, q) != x {
      if Walk(h, q) == x { NodeHeld(h, q); assert false; }
    }
  }

  lemma AppendWalk(h: Heap, n: nat, x: nat, s: nat, h': Heap)
    requires |h.roots| == NTREEBINS && x != 0 && !InTree(h, x) && n in h.ring && h' == Append(h, n, x, s)
    ensures |h'.roots| == NTREEBINS && forall q :: ValidPath(q) ==> Walk(h', q) == Walk(h, q)
    ensures forall q :: ValidPath(q) ==> UpLink(h', q) == UpLink(h, q)
  {
    forall q | ValidPath(q) ensures Walk(h', q) == Walk(h, q) {
      KidsOutside(h, x, q, 0, 0);
      WalkDepends(SetKids(h, x, 0, 0), h', q);
    }
    forall q | ValidPath(q) ensures UpLink(h', q) == UpLink(h, q) {
      if |q| > 1 { InitValid(q); }
    }
  }

  lemma AppendHolds(h: Heap, p: Path, n: nat, x: nat, s: nat, h': Heap)
    requires Inv(h) && ValidPath(p) && n == Walk(h, p) != 0 && x != 0 && NotHeld(h, x) && s == h.size[n]
    requires h' == Append(h, n, x, s) && |h'.roots| == NTREEBINS
    requires forall q :: ValidPath(q) ==> Walk(h', q) == Walk(h, q)
    ensures forall q, c, t :: ValidPath(q) ==>
      (HoldsAt(h', q, c, t) <==> HoldsAt(h, q, c, t) || (q == p && c == x && t == s))
  {
    NotHeldNotNode(h, x);
    hide Walk, Fits, RingOk, UpLink;
    forall q, c, t | ValidPath(q)
      ensures HoldsAt(h', q, c, t) <==> HoldsAt(h, q, c, t) || (q == p && c == x && t == s)
    {
      assert Walk(h, q) != x;
      if Walk(h, q) == n { SameNode(h, p, q); }
    }
  }

  lemma AppendRing(h: Heap, p: Path, n: nat, x: nat, s: nat, h': Heap, q: Path)
    requires Inv(h) && ValidPath(p) && n == Walk(h, p) != 0 && x != 0 && NotHeld(h, x) && h' == Append(h, n, x, s)
    requires ValidPath(q) && Walk(h, q) != 0
    ensures Walk(h, q) in h'.ring && RingOk(h', Walk(h, q), h'.ring[Walk(h, q)])
  {
    hide Walk, Fits, UpLink;
    var m := Walk(h, q);
    assert RingOk(h, m, h.ring[m]);
    assert !HoldsAt(h, q, x, h.size[m]);
    assert x !in h.ring[m];
  }

  lemma AppendTrie(h: Heap, n: nat, x: nat, s: nat, h': Heap)
    requires Trie(h) && !InTree(h, x) && n in h.ring && h.ring[n] != [] && h' == Append(h, n, x, s)
    requires |h'.roots| == NTREEBINS && forall q :: ValidPath(q) ==> Walk(h', q) == Walk(h, q)
    ensures Trie(h')
  {
    hide Walk, Fits, SetKids;
    assert forall q :: ValidPath(q) ==> Walk(h, q) != x;
    assert forall q, q' :: ValidPath(q) && ValidPath(q') && SameSize(h', q, q') ==> SameSize(h, q, q');
  }

  /** Hang another chunk of the same size behind the node at p. */
  lemma AppendInv(h: Heap, p: Path, n: nat, x: nat, s: nat, h': Heap)
    requires Inv(h) && ValidPath(p) && n == Walk(h, p) != 0 && x != 0 && NotHeld(h, x) && s == h.size[n]
    requires h' == Append(h, n, x, s)
    ensures Inv(h') && |h'.roots| == NTREEBINS && forall q :: ValidPath(q) ==> Walk(h', q) == Walk(h, q)
    ensures forall q, c, t :: ValidPath(q) ==>
      (HoldsAt(h', q, c, t) <==> HoldsAt(h, q, c, t) || (q == p && c == x && t == s))
  {
    hide Walk, Fits, RingOk, UpLink, SetKids, HoldsAt, SameSize;
    NotHeldNotNode(h, x);
    AppendWalk(h, n, x, s, h');
    AppendHolds(h, p, n, x, s, h');
    AppendTrie(h, n, x, s, h');
    forall q | ValidPath(q) && Walk(h', q) != 0 ensures RingOk(h', Walk(h', q), h'.ring[Walk(h', q)]) {
      AppendRing(h, p, n, x, s, h', q);
    }
    forall q | ValidPath(q) && Walk(h', q) != 0
      ensures Walk(h', q) in h'.parent && h'.parent[Walk(h', q)] == UpLink(h', q)
    {
      assert Walk(h, q) != x;
    }
  }

  lemma UnchainWalk(h: Heap, h': Heap, n: nat, rs: seq<nat>)
    requires |h.roots| == NTREEBINS && h' == h.(ring := h.ring[n := rs])
    ensures forall q :: ValidPath(q) ==> Walk(h', q) == Walk(h, q)
    ensures forall q :: ValidPath(q) ==> UpLink(h', q) == UpLink(h, q)
  {
    forall q | ValidPath(q) ensures Walk(h', q) == Walk(h, q) { WalkDepends(h, h', q); }
    forall q | ValidPath(q) ensures UpLink(h', q) == UpLink(h, q) {
      if |q| > 1 { InitValid(q); }
    }
  }

  /** Take a chunk out of the ring behind the node at p. */
  lemma UnchainInv(h: Heap, p: Path, n: nat, x: nat, h': Heap)
    requires Inv(h) && ValidPath(p) && n == Walk(h, p) != 0 && x in h.ring[n] && x != n
    requires h' == h.(ring := h.ring[n := Remove(h.ring[n], x)])
    ensures Inv(h') && |h'.roots| == NTREEBINS && forall q :: ValidPath(q) ==> Walk(h', q) == Walk(h, q)
    ensures forall q, c, t :: ValidPath(q) ==> (HoldsAt(h', q, c, t) <==> HoldsAt(h, q, c, t) && c != x)
  {
    hide Walk, Fits, UpLink;
    UnchainWalk(h, h', n, Remove(h.ring[n], x));
    assert RingOk(h, n, h.ring[n]);
    RemoveNoDup(h.ring[n], x);
    RemoveHead(h.ring[n], x);
    assert HoldsAt(h, p, x, h.size[n]);
    forall q | ValidPath(q) && Walk(h', q) != 0
      ensures NodeOk(h', Walk(h', q)) && RingOk(h', Walk(h', q), h'.ring[Walk(h', q)])
    {
      assert RingOk(h, Walk(h, q), h.ring[Walk(h, q)]);
      assert forall y :: Chained(h, y) ==> Chained(h', y);
    }
    forall q, c, t | ValidPath(q) ensures HoldsAt(h', q, c, t) <==> HoldsAt(h, q, c, t) && c != x {
      if Walk(h, q) == n { SameNode(h, p, q); }
    }
    assert forall q, q' :: ValidPath(q) && ValidPath(q') && SameSize(h', q, q') ==> SameSize(h, q, q');
  }

  lemma {:induction false} PrefixNamed(h: Heap, p: Path, q: Path)
    requires |h.roots| == NTREEBINS && ValidPath(p) && ValidPath(q) && p <= q && Walk(h, q) != 0
    ensures Walk(h, p) != 0
    decreases |q|
  {
    PrefixInit(p, q);
    if p != q {
      InitValid(q);
      PrefixNamed(h, p, Init(q));
    }
  }

  /** A leaf below p may take the place of p once it is cut off. */
  lemma LeafCanReplace(h: Heap, p: Path, r: Path, h1: Heap)
    requires Inv(h) && ValidPath(p) && ValidPath(r) && p < r && Walk(h, r) != 0
    requires Kid(h, Walk(h, r), 0) == 0 && Kid(h, Walk(h, r), 1) == 0 && h1 == SetSlot(h, r, 0)
    ensures CanReplace(h1, p, Walk(h, r), h1.ring[Walk(h, r)], h1.size[Walk(h, r)])
  {
    var x := Walk(h, r);
    PruneRenames(h, r, h1);
    PruneInv(h, r, h1);
    PruneRing(h, r, h1, r);
    if |p| > 1 {
      InitValid(p);
      assert Init(p) <= p && Init(p) <= r;
      PrefixNamed(h, Init(p), r);
    }
    FitsAbove(h.size[x], p, r);
    hide Walk, SetSlot, Fits, RingOk, UpLink, Kid;
    forall q | ValidPath(q) ensures Walk(h1, q) != x {
      if q != r && Walk(h, q) == x { SameNode(h, q, r); assert false; }
    }
    forall c | c in h1.ring[x] ensures Elsewhere(h1, p, c) {
      assert HoldsAt(h, r, c, h.size[x]);
    }
    forall q | ValidPath(q) && q != p && Walk(h1, q) != 0 ensures h1.size[Walk(h1, q)] != h.size[x] {
      if q != r { DistinctSizes(h, q, r); }
    }
  }

  /** So may the second chunk of the ring at p. */
  lemma NextCanReplace(h: Heap, p: Path, n: nat)
    requires Inv(h) && ValidPath(p) && n == Walk(h, p) != 0 && |h.ring[n]| > 1
    ensures CanReplace(h, p, h.ring[n][1], h.ring[n][1..], h.size[n])
  {
    var rs := h.ring[n];
    SizeFits(h, p);
    SlotThere(h, p);
    RestOfRing(h, p, n);
    OnlyItsOwn(h, p, rs[1]);
    hide Walk, Fits, UpLink, RingOk, Inv, HasSlot, Elsewhere;
    forall q | ValidPath(q) && q != p && Walk(h, q) != 0 ensures h.size[Walk(h, q)] != h.size[n] {
      DistinctSizes(h, q, p);
    }
  }

  /** A node has a slot to hang in. */
  lemma SlotThere(h: Heap, p: Path)
    requires Inv(h) && ValidPath(p) && Walk(h, p) != 0
    ensures HasSlot(h, p)
  {
    hide Fits, UpLink, RingOk, HoldsAt;
    if |p| > 1 {
      InitValid(p);
      assert Init(p) <= p;
      PrefixNamed(h, Init(p), p);
    }
  }

  /** The ring at p without its first chunk is a ring, and its chunks are held nowhere else. */
  lemma RestOfRing(h: Heap, p: Path, n: nat)
    requires Inv(h) && ValidPath(p) && n == Walk(h, p) != 0 && |h.ring[n]| > 1
    ensures h.ring[n][1] in h.ring[n] && h.ring[n][1] != n && RingOk(h, h.ring[n][1], h.ring[n][1..])
    ensures forall c :: c in h.ring[n][1..] ==> Elsewhere(h, p, c)
  {
    hide Walk, Fits, UpLink;
    var rs := h.ring[n];
    assert RingOk(h, n, rs) && rs[1] in rs;
    forall c | c in rs[1..] ensures Elsewhere(h, p, c) {
      assert HoldsAt(h, p, c, h.size[n]);
    }
  }

  /** A chunk may go into an empty slot that its size fits, if no node has its size. */
  lemma NewCanReplace(h: Heap, p: Path, x: nat, s: nat)
    requires Inv(h) && ValidPath(p) && HasSlot(h, p) && Walk(h, p) == 0 && Fits(s, p)
    requires x != 0 && NotHeld(h, x)
    requires forall q :: ValidPath(q) && Walk(h, q) != 0 ==> h.size[Walk(h, q)] != s
    ensures CanReplace(h, p, x, [x], s)
  {
    NotHeldNotNode(h, x);
  }

  /** If no node on the way down to p has size s and the slot of p is empty, no node at all has size s. */
  lemma SizeAbsent(h: Heap, p: Path, s: nat)
    requires Inv(h) && ValidPath(p) && Walk(h, p) == 0 && Fits(s, p)
    requires forall q :: ValidPath(q) && q < p && Walk(h, q) != 0 ==> h.size[Walk(h, q)] != s
    ensures forall q :: ValidPath(q) && Walk(h, q) != 0 ==> h.size[Walk(h, q)] != s
  {
    hide Walk, Fits, RingOk, UpLink, HoldsAt;
    forall q | ValidPath(q) && Walk(h, q) != 0 ensures h.size[Walk(h, q)] != s {
      SizeFits(h, q);
      if h.size[Walk(h, q)] == s { SameWay(h, p, q, s); }
    }
  }

  lemma SizeFits(h: Heap, q: Path)
    requires Inv(h) && ValidPath(q) && Walk(h, q) != 0
    ensures Walk(h, q) in h.size && Fits(h.size[Walk(h, q)], q)
  {
    hide Walk, Fits, RingOk, UpLink, HoldsAt;
  }

  /** A node whose size belongs below the empty slot at p lies on the way down to p. */
  lemma SameWay(h: Heap, p: Path, q: Path, s: nat)
    requires |h.roots| == NTREEBINS && ValidPath(p) && ValidPath(q) && Walk(h, p) == 0 && Walk(h, q) != 0
    requires Fits(s, p) && Fits(s, q)
    ensures q < p
  {
    hide Walk, Fits;
    assert q <= p && |q| == |p| ==> q == p;
    if |q| <= |p| {
      FitsChain(s, q, p);
    } else {
      FitsChain(s, p, q);
      PrefixNamed(h, p, q);
      assert false;
    }
  }
}
