/**
 * The block map of an ext2 inode: twelve direct slots and three trees of indirect blocks.
 *
 * A tree node is named by the path that leads to it from the inode: the slot in the inode
 * followed by one index per indirect block.  The whole structure is then one function from
 * paths to block numbers, and each operation is described by what it does to that function.
 */
module Ext2Tree {
  import opened Arith
  import opened Paths

  const DIRECT: nat := 12
  const SLOTS: nat := 15

  /** The slots of the inode and the contents of every block, as arrays of block numbers. */
  datatype Image = Image(root: seq<nat>, disk: seq<seq<nat>>)

  /** How many levels of indirection slot r of the inode has. */
  function Levels(r: nat): nat {
    if r < DIRECT then 0 else r - DIRECT + 1
  }

  ghost predicate ValidPath(S: nat, q: Path) {
    && |q| >= 1 && q[0] < SLOTS && |q| - 1 <= Levels(q[0])
    && forall k :: 1 <= k < |q| ==> q[k] < S
  }

  /** The path names a data block rather than an indirect block. */
  ghost predicate IsData(q: Path)
    requires |q| >= 1
  {
    |q| - 1 == Levels(q[0])
  }

  ghost predicate Shaped(S: nat, im: Image) {
    |im.root| == SLOTS && forall b :: 0 <= b < |im.disk| ==> |im.disk[b]| == S
  }

  /** The block at the end of a path; zero where there is none. */
  ghost function Walk(S: nat, im: Image, q: Path): nat
    requires Shaped(S, im) && ValidPath(S, q)
    decreases |q|
  {
    if |q| == 1 then im.root[q[0]]
    else
      var b := Walk(S, im, Init(q));
      if b == 0 || b >= |im.disk| then 0 else im.disk[b][Last(q)]
  }

  /** Every block in the tree is in use and hangs off exactly one path. */
  ghost predicate Owned(S: nat, im: Image, used: set<nat>) {
    && Shaped(S, im)
    && (forall q :: ValidPath(S, q) && Walk(S, im, q) != 0 ==> Walk(S, im, q) < |im.disk| && Walk(S, im, q) in used)
    && (forall q, q' ::
          ValidPath(S, q) && ValidPath(S, q') && Walk(S, im, q) != 0 && Walk(S, im, q) == Walk(S, im, q') ==> q == q')
  }

  /** Store x in the slot the path names. */
  function Store(im: Image, b: nat, q: Path, x: nat): Image
    requires |q| >= 1 && (if |q| == 1 then q[0] < |im.root| else b < |im.disk| && Last(q) < |im.disk[b]|)
  {
    if |q| == 1 then im.(root := im.root[q[0] := x])
    else
      var block: seq<nat> := im.disk[b][Last(q) := x];
      im.(disk := im.disk[b := block])
  }

  function ZeroBlock(S: nat): (z: seq<nat>)
    ensures |z| == S && forall i :: 0 <= i < S ==> z[i] == 0
  {
    if S == 0 then [] else [0] + ZeroBlock(S - 1)
  }

  /** The block that holds the slot the path names. */
  ghost function Parent(S: nat, im: Image, p: Path): nat
    requires Shaped(S, im) && ValidPath(S, p)
  {
    if |p| == 1 then 0 else Walk(S, im, Init(p))
  }

  ghost predicate HasSlot(S: nat, im: Image, p: Path)
    requires Shaped(S, im) && ValidPath(S, p)
  {
    |p| > 1 ==> 0 < Parent(S, im, p) < |im.disk|
  }

  lemma InitValid(S: nat, q: Path)
    requires ValidPath(S, q) && |q| > 1
    ensures ValidPath(S, Init(q)) && Init(q)[0] == q[0]
    ensures q == Init(q) + [Last(q)]
  {
  }

  /** Hanging a fresh zeroed block into an empty slot changes what that one path names, nothing else. */
  lemma {:induction false} InstallWalk(S: nat, im: Image, used: set<nat>, p: Path, f: nat, im': Image, q: Path)
    requires Owned(S, im, used) && ValidPath(S, p) && ValidPath(S, q)
    requires Walk(S, im, p) == 0 && HasSlot(S, im, p)
    requires 0 < f < |im.disk| && f !in used
    requires im' == Store(im.(disk := im.disk[f := ZeroBlock(S)]), Parent(S, im, p), p, f)
    requires Shaped(S, im')
    ensures Walk(S, im', q) == if q == p then f else Walk(S, im, q)
    decreases |q|
  {
    if |q| > 1 {
      InitValid(S, q);
      InstallWalk(S, im, used, p, f, im', Init(q));
      var b := Walk(S, im, Init(q));
      if Init(q) == p {
        assert Walk(S, im, q) == 0 && Walk(S, im', q) == im'.disk[f][Last(q)];
        assert |p| > 1 ==> Parent(S, im, p) != f;
      } else if |p| > 1 && b == Parent(S, im, p) {
        InitValid(S, p);
        assert Init(q) == Init(p);
      } else if b != 0 {
        assert b != f;
      }
    }
  }

  /** Clearing a slot removes the path and everything below it, nothing else. */
  lemma {:induction false} ClearWalk(S: nat, im: Image, used: set<nat>, p: Path, im': Image, q: Path)
    requires Owned(S, im, used) && ValidPath(S, p) && ValidPath(S, q) && HasSlot(S, im, p)
    requires im' == Store(im, Parent(S, im, p), p, 0)
    requires Shaped(S, im')
    ensures Walk(S, im', q) == if p <= q then 0 else Walk(S, im, q)
    decreases |q|
  {
    if |q| > 1 {
      InitValid(S, q);
      ClearWalk(S, im, used, p, im', Init(q));
      var b := Walk(S, im, Init(q));
      PrefixInit(p, q);
      if |p| > 1 && b == Parent(S, im, p) {
        InitValid(S, p);
        assert Init(q) == Init(p);
      }
    }
  }

  // ---- The blocks of a tree -----------------------------------------------------------------

  ghost predicate Reached(S: nat, im: Image, b: nat)
    requires Shaped(S, im)
  {
    exists q :: ValidPath(S, q) && Walk(S, im, q) == b
  }

  ghost function Blocks(S: nat, im: Image): set<nat>
    requires Shaped(S, im)
  {
    set b: nat | 0 < b < |im.disk| && Reached(S, im, b)
  }

  /** im' names what im names, except that the path p now names x. */
  ghost predicate Renamed(S: nat, im: Image, im': Image, p: Path, x: nat) {
    && Shaped(S, im) && Shaped(S, im') && |im'.disk| == |im.disk|
    && forall q :: ValidPath(S, q) ==> Walk(S, im', q) == if q == p then x else Walk(S, im, q)
  }

  lemma InstallRenames(S: nat, im: Image, used: set<nat>, p: Path, f: nat, im': Image)
    requires Owned(S, im, used) && ValidPath(S, p)
    requires Walk(S, im, p) == 0 && HasSlot(S, im, p)
    requires 0 < f < |im.disk| && f !in used
    requires im' == Store(im.(disk := im.disk[f := ZeroBlock(S)]), Parent(S, im, p), p, f)
    ensures Renamed(S, im, im', p, f)
  {
    forall q | ValidPath(S, q) ensures Walk(S, im', q) == if q == p then f else Walk(S, im, q) {
      InstallWalk(S, im, used, p, f, im', q);
    }
  }

  lemma GrowOwned(S: nat, im: Image, used: set<nat>, p: Path, f: nat, im': Image)
    requires Owned(S, im, used) && ValidPath(S, p) && Walk(S, im, p) == 0
    requires 0 < f < |im.disk| && f !in used && Renamed(S, im, im', p, f)
    ensures Owned(S, im', used + {f})
    ensures |Blocks(S, im')| == |Blocks(S, im)| + 1
  {
    hide Walk, Shaped;
    forall b: nat | 0 < b < |im.disk| ensures Reached(S, im', b) <==> b == f || Reached(S, im, b) {
      if b == f { assert Walk(S, im', p) == b; }
      if q :| ValidPath(S, q) && Walk(S, im, q) == b { assert Walk(S, im', q) == b; }
    }
    assert Blocks(S, im') == Blocks(S, im) + {f};
    assert f !in Blocks(S, im);
  }

  /** Clearing the slot of a block below which nothing hangs. */
  lemma ClearRenames(S: nat, im: Image, used: set<nat>, p: Path, im': Image)
    requires Owned(S, im, used) && ValidPath(S, p) && HasSlot(S, im, p)
    requires forall q :: ValidPath(S, q) && p < q ==> Walk(S, im, q) == 0
    requires im' == Store(im, Parent(S, im, p), p, 0)
    ensures Renamed(S, im, im', p, 0)
  {
    forall q | ValidPath(S, q) ensures Walk(S, im', q) == if q == p then 0 else Walk(S, im, q) {
      ClearWalk(S, im, used, p, im', q);
    }
  }

  lemma ShrinkOwned(S: nat, im: Image, used: set<nat>, p: Path, f: nat, im': Image)
    requires Owned(S, im, used) && ValidPath(S, p) && Walk(S, im, p) == f != 0
    requires Renamed(S, im, im', p, 0)
    ensures f in Blocks(S, im) && Owned(S, im', used - {f})
    ensures Blocks(S, im') == Blocks(S, im) - {f} && |Blocks(S, im')| == |Blocks(S, im)| - 1
  {
    hide Walk, Shaped;
    forall b: nat | 0 < b < |im.disk| ensures Reached(S, im', b) <==> b != f && Reached(S, im, b) {
      if q :| ValidPath(S, q) && Walk(S, im, q) == b { assert q != p ==> Walk(S, im', q) == b; }
    }
    assert Blocks(S, im) == Blocks(S, im') + {f};
    assert f !in Blocks(S, im');
  }

  // ---- Logical block numbers -------------------------------------------------------------------

  /** The number of logical blocks below a node with d levels of indirection. */
  function Cap(S: nat, d: nat): (c: nat)
    ensures S > 0 ==> c > 0
  {
    if d == 0 then 1 else S * Cap(S, d - 1)
  }

  /** The first logical block of slot r. */
  function Base(S: nat, r: nat): nat {
    if r <= DIRECT then r else Base(S, r - 1) + Cap(S, Levels(r - 1))
  }

  function Limit(S: nat): nat {
    Base(S, SLOTS)
  }

  /** The first logical block below a node. */
  ghost function First(S: nat, q: Path): nat
    requires ValidPath(S, q)
    decreases |q|
  {
    if |q| == 1 then Base(S, q[0])
    else First(S, Init(q)) + Last(q) * Cap(S, Levels(q[0]) - (|q| - 1))
  }

  /** The node is below slot r on the way to logical block m of that slot, k levels down. */
  function Towards(S: nat, r: nat, m: nat, k: nat): (q: Path)
    requires S > 0 && r < SLOTS && k <= Levels(r)
    ensures |q| == k + 1 && q[0] == r
    ensures forall i :: 1 <= i < |q| ==> q[i] < S
    decreases k
  {
    if k == 0 then [r]
    else Towards(S, r, m, k - 1) + [(m / Cap(S, Levels(r) - k)) % S]
  }

  lemma DigitStep(m: nat, c: nat, S: nat)
    requires c > 0 && S > 0
    ensures S * c > 0 && m % (S * c) == ((m / c) % S) * c + m % c
  {
    var d, r := m / c, m % c;
    var e, t := d / S, d % S;
    assert m == d * c + r && d == e * S + t;
    assert m == e * (S * c) + (t * c + r) by {
      assert (e * S + t) * c == e * (S * c) + t * c;
    }
    MulMono(t + 1, S, c);
    MulNext(t, c);
    ModUnique(m, S * c, e, t * c + r);
  }

  lemma TowardsNext(S: nat, r: nat, m: nat, k: nat)
    requires S > 0 && r < SLOTS && 0 < k <= Levels(r)
    ensures var c := Cap(S, Levels(r) - k);
      && Cap(S, Levels(r) - (k - 1)) == S * c
      && First(S, Towards(S, r, m, k)) == First(S, Towards(S, r, m, k - 1)) + ((m / c) % S) * c
  {
    var c, q := Cap(S, Levels(r) - k), Towards(S, r, m, k);
    assert Init(q) == Towards(S, r, m, k - 1) && Last(q) == (m / c) % S;
  }

  lemma {:induction false} TowardsFirst(S: nat, r: nat, m: nat, k: nat)
    requires S > 0 && r < SLOTS && k <= Levels(r) && m < Cap(S, Levels(r))
    ensures First(S, Towards(S, r, m, k)) + m % Cap(S, Levels(r) - k) == Base(S, r) + m
    decreases k
  {
    if k > 0 {
      TowardsFirst(S, r, m, k - 1);
      DigitStep(m, Cap(S, Levels(r) - k), S);
      TowardsNext(S, r, m, k);
    } else {
      ModUnique(m, Cap(S, Levels(r)), 0, m);
    }
  }

  function SlotOf(S: nat, n: nat): (r: nat)
    requires S > 0 && n < Limit(S)
    ensures r < SLOTS && Base(S, r) <= n < Base(S, r) + Cap(S, Levels(r))
  {
    if n < DIRECT then n
    else if n - DIRECT < Cap(S, 1) then DIRECT
    else if n - DIRECT - Cap(S, 1) < Cap(S, 2) then DIRECT + 1
    else DIRECT + 2
  }

  /** The path of logical block n. */
  function PathOf(S: nat, n: nat): (q: Path)
    requires S > 0 && n < Limit(S)
    ensures ValidPath(S, q) && IsData(q)
  {
    var r := SlotOf(S, n);
    Towards(S, r, n - Base(S, r), Levels(r))
  }

  /** Logical block numbers and data paths correspond: n is the first block below its own path. */
  lemma PathOfFirst(S: nat, n: nat)
    requires S > 0 && n < Limit(S)
    ensures First(S, PathOf(S, n)) == n
  {
    var r := SlotOf(S, n);
    TowardsFirst(S, r, n - Base(S, r), Levels(r));
  }

  /** The sparse map from logical to physical blocks. */
  ghost function Block(S: nat, im: Image, n: nat): nat
    requires S > 0 && Shaped(S, im) && n < Limit(S)
  {
    Walk(S, im, PathOf(S, n))
  }

  // ---- Descending one path ------------------------------------------------------------------------

  /** The only paths that may have come to name a block are the first k + 1 prefixes of the target. */
  ghost predicate Grew(S: nat, im: Image, im': Image, target: Path, k: nat) {
    && Shaped(S, im) && Shaped(S, im') && |im'.disk| == |im.disk|
    && forall q :: ValidPath(S, q) && !(q <= target && |q| <= k + 1 && Walk(S, im, q) == 0) ==>
         Walk(S, im', q) == Walk(S, im, q)
  }

  lemma GrewUntouched(S: nat, im: Image, im': Image, target: Path, k: nat, p: Path)
    requires Grew(S, im, im', target, k) && ValidPath(S, p) && |p| > k + 1
    ensures Walk(S, im', p) == Walk(S, im, p)
  {
  }

  lemma GrewStep(S: nat, im: Image, mid: Image, im': Image, target: Path, k: nat, p: Path, x: nat)
    requires Grew(S, im, mid, target, k) && Renamed(S, mid, im', p, x)
    requires ValidPath(S, p) && p <= target && |p| == k + 2
    requires Walk(S, mid, p) != 0 ==> x == Walk(S, mid, p)
    ensures Grew(S, im, im', target, k + 1)
  {
  }

  lemma GrewFirst(S: nat, im: Image, im': Image, target: Path, p: Path, x: nat)
    requires Renamed(S, im, im', p, x) && ValidPath(S, p) && p <= target && |p| == 1
    requires Walk(S, im, p) != 0 ==> x == Walk(S, im, p)
    ensures Grew(S, im, im', target, 0)
  {
  }

  lemma GrewMore(S: nat, im: Image, im': Image, target: Path, k: nat, k': nat)
    requires Grew(S, im, im', target, k) && k <= k'
    ensures Grew(S, im, im', target, k')
  {
  }

  lemma {:induction false} PrefixNamed(S: nat, im: Image, p: Path, q: Path)
    requires Shaped(S, im) && ValidPath(S, p) && ValidPath(S, q) && p <= q && Walk(S, im, q) != 0
    ensures Walk(S, im, p) != 0
    decreases |q|
  {
    PrefixInit(p, q);
    if p != q {
      InitValid(S, q);
      PrefixNamed(S, im, p, Init(q));
    }
  }

  lemma SlotUnique(S: nat, n: nat, r: nat)
    requires S > 0 && n < Limit(S) && r < SLOTS && Base(S, r) <= n < Base(S, r) + Cap(S, Levels(r))
    ensures SlotOf(S, n) == r
  {
  }

  lemma TowardsStep(S: nat, r: nat, m: nat, k: nat)
    requires S > 0 && r < SLOTS && k < Levels(r)
    ensures Init(Towards(S, r, m, k + 1)) == Towards(S, r, m, k)
    ensures Last(Towards(S, r, m, k + 1)) == (m / Cap(S, Levels(r) - k - 1)) % S
  {
  }

  lemma {:induction false} TowardsPrefix(S: nat, r: nat, m: nat, k: nat, j: nat)
    requires S > 0 && r < SLOTS && j <= k <= Levels(r)
    ensures Towards(S, r, m, j) <= Towards(S, r, m, k)
    decreases k
  {
    if j < k { TowardsPrefix(S, r, m, k - 1, j); }
  }

  /** What a completed descent means for the sparse map. */
  lemma GrewBlock(S: nat, im: Image, im': Image, n: nat, k: nat)
    requires S > 0 && n < Limit(S) && Grew(S, im, im', PathOf(S, n), k)
    ensures forall m: nat :: m < Limit(S) && m != n ==> Block(S, im', m) == Block(S, im, m)
    ensures k < Levels(SlotOf(S, n)) ==> Block(S, im', n) == Block(S, im, n)
  {
    forall m: nat | m < Limit(S) && m != n ensures Block(S, im', m) == Block(S, im, m) {
      PathOfFirst(S, m);
      PathOfFirst(S, n);
      if PathOf(S, m) <= PathOf(S, n) { DataPrefix(S, PathOf(S, m), PathOf(S, n)); assert false; }
    }
  }

  lemma DataPrefix(S: nat, q: Path, t: Path)
    requires ValidPath(S, q) && ValidPath(S, t) && IsData(q) && IsData(t) && q <= t
    ensures q == t
  {
    assert q[0] == t[0];
  }

  // ---- Cutting ---------------------------------------------------------------------------------------

  /** Levels of indirection left below a node. */
  ghost function Rest(S: nat, q: Path): nat
    requires ValidPath(S, q)
  {
    Levels(q[0]) - (|q| - 1)
  }

  /** The blocks below a node lie inside the range of every node above it. */
  lemma {:induction false} RangeInside(S: nat, p: Path, q: Path)
    requires S > 0 && ValidPath(S, p) && ValidPath(S, q) && p <= q
    ensures First(S, p) <= First(S, q) < First(S, q) + Cap(S, Rest(S, q)) <= First(S, p) + Cap(S, Rest(S, p))
    decreases |q|
  {
    PrefixInit(p, q);
    if p != q {
      InitValid(S, q);
      RangeInside(S, p, Init(q));
      var c := Cap(S, Rest(S, q));
      MulMono(Last(q) + 1, S, c);
      MulNext(Last(q), c);
      assert Rest(S, Init(q)) == Rest(S, q) + 1 && Cap(S, Rest(S, Init(q))) == S * c;
      assert First(S, q) == First(S, Init(q)) + Last(q) * c;
    }
  }

  /** im' is im without the nodes at or below p that start at logical block x or later. */
  ghost predicate Cut(S: nat, im: Image, im': Image, p: Path, x: nat) {
    && Shaped(S, im) && Shaped(S, im') && |im'.disk| == |im.disk|
    && forall q :: ValidPath(S, q) ==> Walk(S, im', q) == if p <= q && First(S, q) >= x then 0 else Walk(S, im, q)
  }

  /** The same for the nodes strictly below p that start between x and y. */
  ghost predicate CutBelow(S: nat, im: Image, im': Image, p: Path, x: nat, y: nat) {
    && Shaped(S, im) && Shaped(S, im') && |im'.disk| == |im.disk|
    && forall q :: ValidPath(S, q) ==>
         Walk(S, im', q) == if p < q && x <= First(S, q) < y then 0 else Walk(S, im, q)
  }

  ghost function Child(p: Path, j: nat): Path {
    p + [j]
  }

  lemma ChildFirst(S: nat, p: Path, j: nat, c: nat)
    requires ValidPath(S, p) && Rest(S, p) > 0 && j < S && c == Cap(S, Rest(S, p) - 1)
    ensures ValidPath(S, Child(p, j)) && Rest(S, Child(p, j)) == Rest(S, p) - 1
    ensures First(S, Child(p, j)) == First(S, p) + j * c
  {
    assert Init(Child(p, j)) == p;
  }

  /** Below p, a node that starts in the range of child j is at or below child j. */
  lemma ChildOf(S: nat, p: Path, j: nat, c: nat, q: Path)
    requires S > 0 && ValidPath(S, p) && Rest(S, p) > 0 && j < S && ValidPath(S, q) && p < q
    requires c == Cap(S, Rest(S, p) - 1)
    ensures ValidPath(S, Child(p, j)) && First(S, Child(p, j)) == First(S, p) + j * c
    ensures Child(p, j) <= q <==> First(S, p) + j * c <= First(S, q) < First(S, p) + (j + 1) * c
  {
    hide First, Cap;
    var t := q[|p|];
    ChildFirst(S, p, j, c);
    ChildFirst(S, p, t, c);
    assert Child(p, t) <= q && (Child(p, j) <= q <==> t == j);
    RangeInside(S, Child(p, t), q);
    MulNext(t, c);
    MulNext(j, c);
    if t < j { MulMono(t + 1, j, c); }
    if j < t { MulMono(j + 1, t, c); }
  }

  /** One child more. */
  lemma CutStep(S: nat, im: Image, mid: Image, im': Image, p: Path, x: nat, i: nat, j: nat, c: nat)
    requires S > 0 && ValidPath(S, p) && Rest(S, p) > 0 && j < S && c == Cap(S, Rest(S, p) - 1)
    requires j * c <= i < (j + 1) * c && x <= First(S, p) + i
    requires CutBelow(S, im, mid, p, x, First(S, p) + i)
    requires Cut(S, mid, im', Child(p, j), First(S, p) + i)
    ensures CutBelow(S, im, im', p, x, First(S, p) + (j + 1) * c)
  {
    hide Walk, First;
    forall q | ValidPath(S, q)
      ensures Walk(S, im', q) == if p < q && x <= First(S, q) < First(S, p) + (j + 1) * c then 0 else Walk(S, im, q)
    {
      if p < q {
        ChildOf(S, p, j, c, q);
      } else {
        assert !(Child(p, j) <= q) by { if Child(p, j) <= q { ChildPrefix(p, j, q); assert false; } }
      }
    }
  }

  lemma ChildPrefix(p: Path, j: nat, q: Path)
    requires Child(p, j) <= q
    ensures p < q
  {
    assert p == Child(p, j)[..|p|];
  }

  /** After all children: done if the node itself stays. */
  lemma CutKeeps(S: nat, im: Image, im': Image, p: Path, to: nat)
    requires S > 0 && ValidPath(S, p) && to > 0
    requires CutBelow(S, im, im', p, First(S, p) + to, First(S, p) + Cap(S, Rest(S, p)))
    ensures Cut(S, im, im', p, First(S, p) + to)
  {
    forall q | ValidPath(S, q)
      ensures Walk(S, im', q) == if p <= q && First(S, q) >= First(S, p) + to then 0 else Walk(S, im, q)
    {
      if p <= q { RangeInside(S, p, q); }
    }
  }

  /** After all children: the node itself goes too. */
  lemma CutGoes(S: nat, im: Image, mid: Image, im': Image, p: Path)
    requires S > 0 && ValidPath(S, p)
    requires CutBelow(S, im, mid, p, First(S, p), First(S, p) + Cap(S, Rest(S, p)))
    requires Renamed(S, mid, im', p, 0)
    ensures Cut(S, im, im', p, First(S, p))
  {
    forall q | ValidPath(S, q)
      ensures Walk(S, im', q) == if p <= q && First(S, q) >= First(S, p) then 0 else Walk(S, im, q)
    {
      if p <= q { RangeInside(S, p, q); }
    }
  }

  lemma CutNothing(S: nat, im: Image, p: Path, x: nat)
    requires Shaped(S, im) && ValidPath(S, p) && Walk(S, im, p) == 0
    ensures Cut(S, im, im, p, x)
  {
    forall q | ValidPath(S, q) && p <= q ensures Walk(S, im, q) == 0 {
      if Walk(S, im, q) != 0 { PrefixNamed(S, im, p, q); assert false; }
    }
  }

  lemma ChildrenGone(S: nat, im: Image, im': Image, p: Path)
    requires S > 0 && ValidPath(S, p)
    requires CutBelow(S, im, im', p, First(S, p), First(S, p) + Cap(S, Rest(S, p)))
    ensures forall q :: ValidPath(S, q) && p < q ==> Walk(S, im', q) == 0
  {
    forall q | ValidPath(S, q) && p < q ensures Walk(S, im', q) == 0 { RangeInside(S, p, q); }
  }

  // ---- Truncating a whole inode ------------------------------------------------------------------------

  /** The nodes ext2_trunc removes when the file shrinks from `end` to n blocks. */
  ghost predicate Gone(S: nat, n: nat, end: nat, q: Path)
    requires ValidPath(S, q)
  {
    n < end && Base(S, q[0]) < end && First(S, q) >= n
  }

  /** The slots below r have been dealt with. */
  ghost predicate CutSlots(S: nat, im: Image, im': Image, n: nat, end: nat, r: nat) {
    && Shaped(S, im) && Shaped(S, im') && |im'.disk| == |im.disk|
    && forall q :: ValidPath(S, q) ==>
         Walk(S, im', q) == if q[0] < r && Gone(S, n, end, q) then 0 else Walk(S, im, q)
  }

  lemma {:induction false} BaseMono(S: nat, r: nat, r': nat)
    requires r <= r'
    ensures Base(S, r) <= Base(S, r')
  {
    if r < r' { BaseMono(S, r, r' - 1); }
  }

  lemma CutSlotsNone(S: nat, im: Image, n: nat, end: nat, r: nat)
    requires S > 0 && Shaped(S, im) && r <= DIRECT && r <= n
    ensures CutSlots(S, im, im, n, end, r)
  {
    forall q | ValidPath(S, q) && q[0] < r ensures !Gone(S, n, end, q) {
      assert First(S, q) == q[0];
    }
  }

  lemma SlotFirst(S: nat, r: nat)
    requires r < SLOTS
    ensures ValidPath(S, [r]) && First(S, [r]) == Base(S, r) && Rest(S, [r]) == Levels(r)
  {
  }

  /** Slot r is cut from x, the later of n and its own beginning. */
  lemma CutSlotsStep(S: nat, im: Image, mid: Image, im': Image, n: nat, end: nat, r: nat, x: nat)
    requires S > 0 && r < SLOTS && CutSlots(S, im, mid, n, end, r) && Cut(S, mid, im', [r], x)
    requires n < end && Base(S, r) < end && x == if n > Base(S, r) then n else Base(S, r)
    ensures CutSlots(S, im, im', n, end, r + 1)
  {
    hide Walk;
    forall q | ValidPath(S, q)
      ensures Walk(S, im', q) == if q[0] < r + 1 && Gone(S, n, end, q) then 0 else Walk(S, im, q)
    {
      assert [r] <= q <==> q[0] == r;
      if q[0] == r { RangeInside(S, [r], q); }
    }
  }

  /** Slot r needs nothing: it begins at or after the old end, or ends before n, or n is not below the end. */
  lemma CutSlotsSkip(S: nat, im: Image, im': Image, n: nat, end: nat, r: nat, r': nat)
    requires S > 0 && r <= r' <= SLOTS && CutSlots(S, im, im', n, end, r)
    requires n >= end || Base(S, r) >= end || (r' == r + 1 && Base(S, r) + Cap(S, Levels(r)) <= n)
    ensures CutSlots(S, im, im', n, end, r')
  {
    hide Walk, First, Base, Cap;
    forall q | ValidPath(S, q) && r <= q[0] < r' ensures !Gone(S, n, end, q) {
      BaseMono(S, r, q[0]);
      SlotFirst(S, q[0]);
      assert [q[0]] <= q;
      RangeInside(S, [q[0]], q);
    }
  }

  /** What truncation does, node by node. */
  ghost predicate Truncated(S: nat, im: Image, im': Image, n: nat, end: nat) {
    CutSlots(S, im, im', n, end, SLOTS)
  }

  ghost predicate NoDataFrom(S: nat, im: Image, end: nat)
    requires S > 0 && Shaped(S, im)
  {
    forall m: nat :: end <= m < Limit(S) ==> Block(S, im, m) == 0
  }

  /** Whatever lay past the old end, the data blocks below n survive. */
  lemma TruncatedBelow(S: nat, im: Image, im': Image, n: nat, end: nat, m: nat)
    requires S > 0 && Truncated(S, im, im', n, end) && m < n && m < Limit(S)
    ensures Block(S, im', m) == Block(S, im, m)
  {
    PathOfFirst(S, m);
    hide First;
  }

  /** If no data lay at or past the old end, exactly the data blocks below n survive. */
  lemma TruncatedData(S: nat, im: Image, im': Image, n: nat, end: nat, m: nat)
    requires S > 0 && Truncated(S, im, im', n, end) && NoDataFrom(S, im, end) && m < Limit(S)
    ensures Block(S, im', m) == if m < n then Block(S, im, m) else 0
  {
    var q := PathOf(S, m);
    PathOfFirst(S, m);
    assert [q[0]] <= q && First(S, [q[0]]) == Base(S, q[0]);
    RangeInside(S, [q[0]], q);
    if m >= end { assert Block(S, im, m) == 0; }
  }

  /**
   * Truncation leaves nothing at or past n exactly when every slot that begins at or past the
   * old end was empty: an indirect block hanging there without data is never given back.
   */
  lemma TruncatedExactlyWhen(S: nat, im: Image, im': Image, n: nat, end: nat)
    requires S > 0 && Truncated(S, im, im', n, end) && n < end
    ensures (forall q :: ValidPath(S, q) && First(S, q) >= n ==> Walk(S, im', q) == 0)
       <==> (forall r: nat :: r < SLOTS && Base(S, r) >= end ==> im.root[r] == 0)
  {
    if forall r: nat :: r < SLOTS && Base(S, r) >= end ==> im.root[r] == 0 {
      forall q | ValidPath(S, q) && First(S, q) >= n ensures Walk(S, im', q) == 0 {
        if Walk(S, im', q) != 0 { PrefixNamed(S, im, [q[0]], q); assert false; }
      }
    }
    if forall q :: ValidPath(S, q) && First(S, q) >= n ==> Walk(S, im', q) == 0 {
      forall r: nat | r < SLOTS && Base(S, r) >= end ensures im.root[r] == 0 {
        assert First(S, [r]) == Base(S, r) && Walk(S, im', [r]) == Walk(S, im, [r]);
      }
    }
  }

  /** What an allocation for logical block 12 leaves that got its indirect block but no data block. */
  function Leftover(S: nat): Image {
    Image(ZeroBlock(SLOTS)[DIRECT := 1], [ZeroBlock(S), ZeroBlock(S)])
  }

  /** Such an inode holds no data at all, yet truncating it to nothing keeps the indirect block. */
  lemma LeftoverKept(S: nat, im': Image)
    requires S > 0 && Truncated(S, Leftover(S), im', 0, 1)
    ensures Owned(S, Leftover(S), {0, 1}) && NoDataFrom(S, Leftover(S), 0)
    ensures Walk(S, im', [DIRECT]) == 1
  {
    var im := Leftover(S);
    forall q | ValidPath(S, q) ensures Walk(S, im, q) == if q == [DIRECT] then 1 else 0 { LeftoverWalk(S, q); }
    SlotFirst(S, DIRECT);
  }

  lemma {:induction false} LeftoverWalk(S: nat, q: Path)
    requires ValidPath(S, q)
    ensures Walk(S, Leftover(S), q) == if q == [DIRECT] then 1 else 0
    decreases |q|
  {
    if |q| > 1 {
      InitValid(S, q);
      LeftoverWalk(S, Init(q));
    } else {
      assert q == [q[0]];
    }
  }
}
