/** Powers of two and the few non-linear facts the other modules need. */
module Arith {

  datatype Option<+T> = None | Some(value: T)

  const PAGE_SIZE: nat := 4096
  const PAGE_ORDER_MAX: nat := 10

  function Pow2(n: nat): (r: nat)
    ensures r > 0
  {
    if n == 0 then 1 else 2 * Pow2(n - 1)
  }

  lemma {:induction false} Pow2Add(a: nat, b: nat)
    ensures Pow2(a + b) == Pow2(a) * Pow2(b)
  {
    if a > 0 {
      Pow2Add(a - 1, b);
      assert Pow2(a + b) == 2 * Pow2(a - 1 + b);
    }
  }

  lemma {:induction false} Pow2Mono(a: nat, b: nat)
    requires a <= b
    ensures Pow2(a) <= Pow2(b)
  {
    if a < b { Pow2Mono(a, b - 1); }
  }

  lemma MulTwice(i: int, p: int)
    ensures i * (2 * p) == (2 * i) * p == 2 * (i * p)
  {}

  lemma MulNext(i: int, p: int)
    ensures (i + 1) * p == i * p + p
  {}

  lemma MulCancel(a: int, b: int, p: int)
    requires p > 0 && a * p < b * p
    ensures a < b
  {}

  lemma MulMono(a: int, b: int, p: int)
    requires p >= 0 && a <= b
    ensures a * p <= b * p
  {}

  /** The quotient of a number between q * d and (q + 1) * d. */
  lemma DivUnique(n: int, d: int, q: int)
    requires d > 0 && q * d <= n < (q + 1) * d
    ensures n / d == q
  {
    var k := n / d;
    assert k * d <= n < (k + 1) * d;
    assert k < q ==> (k + 1) * d <= q * d;
    assert k > q ==> (q + 1) * d <= k * d;
  }

  lemma ModUnique(n: int, d: int, q: int, r: int)
    requires d > 0 && n == q * d + r && 0 <= r < d
    ensures n % d == r && n / d == q
  {
    MulNext(q, d);
    DivUnique(n, d, q);
  }

  /** Quotient and remainder identify a number. */
  lemma DivModIff(x: nat, n: nat, q: nat, r: nat)
    requires r < n
    ensures x / n == q && x % n == r <==> x == r + q * n
  {
    if x == r + q * n { ModUnique(x, n, q, r); }
    assert x == (x / n) * n + x % n;
  }

  lemma DivModSame(x: nat, y: nat, n: nat)
    requires n > 0 && x / n == y / n && x % n == y % n
    ensures x == y
  {
    assert x == (x / n) * n + x % n && y == (y / n) * n + y % n;
  }

  lemma DivNat(x: nat, n: nat)
    requires n > 0
    ensures x / n >= 0
  {
  }

  lemma DivMod(x: nat, n: nat)
    requires n > 0
    ensures x == (x / n) * n + x % n && x / n >= 0 && 0 <= x % n < n
  {
  }

  lemma {:induction false} SubsetSize<T>(s: set<T>, t: set<T>)
    requires s <= t
    ensures |s| <= |t|
    decreases |s|
  {
    if s != {} {
      var x :| x in s;
      SubsetSize(s - {x}, t - {x});
    }
  }

  /** The natural numbers from a up to, not including, b. */
  ghost function Interval(a: nat, b: nat): (s: set<nat>)
    ensures forall p: nat :: p in s <==> a <= p < b
    ensures a <= b ==> |s| == b - a
    decreases b
  {
    if a >= b then {} else Interval(a, b - 1) + {b - 1}
  }

  /** Shift right: drop the lowest k bits. */
  function Shr(i: nat, k: nat): nat
    decreases k
  {
    if k == 0 then i else Shr(i / 2, k - 1)
  }

  lemma {:induction false} ShrAdd(i: nat, a: nat, b: nat)
    ensures Shr(Shr(i, a), b) == Shr(i, a + b)
    decreases a
  {
    if a > 0 { ShrAdd(i / 2, a - 1, b); }
  }

  lemma ShrStep(i: nat, k: nat)
    ensures Shr(i, k + 1) == Shr(i, k) / 2
  {
    ShrAdd(i, k, 1);
    assert Shr(Shr(i, k), 1) == Shr(Shr(i, k) / 2, 0);
  }

  /** The numbers with the same high bits form a run of length 2^k. */
  lemma {:induction false} ShrRange(p: nat, k: nat, i: nat)
    ensures Shr(p, k) == i <==> i * Pow2(k) <= p < (i + 1) * Pow2(k)
    decreases k
  {
    if k > 0 {
      ShrRange(p / 2, k - 1, i);
      MulTwice(i, Pow2(k - 1));
      MulTwice(i + 1, Pow2(k - 1));
    }
  }

  lemma ShrIsDiv(p: nat, k: nat)
    ensures Shr(p, k) == p / Pow2(k)
  {
    ShrRange(p, k, Shr(p, k));
    DivUnique(p, Pow2(k), Shr(p, k));
  }
}
