/**
 * The large bins of dlmalloc: 32 bitwise tries of free chunks keyed by size.
 *
 * A trie whose nodes share the size bits above bit w has prefix a and width w: every size s in
 * it satisfies s >> w == a.  Its left and right subtrees have prefixes 2a and 2a + 1 and width
 * w - 1; the node at the root may hold any size with the prefix.  Chunks of equal size hang in
 * a ring off one node, in the order they were inserted.
 */
module TreeBins {
  import opened Arith

  const NTREEBINS: nat := 32
  const MIN_LARGE_SIZE: nat := 256
  const WORD_LIMIT: nat := 0x1_0000_0000
  const SIGN: nat := 0x8000_0000

  // ---- Index arithmetic -----------------------------------------------------------

  /** Unsigned 32-bit subtraction. */
  function Sub32(a: nat, b: nat): nat
    requires a < WORD_LIMIT && b < WORD_LIMIT
  {
    if a >= b then a - b else a + WORD_LIMIT - b
  }

  /** Bit masks with one bit, and a left shift by 0, 2, 4 or 8, as the index macro uses them. */
  function AndBit(x: nat, bit: nat): nat
    requires bit > 0
  {
    (x / bit % 2) * bit
  }

  /** Floor of the base-2 logarithm of a 16-bit number, computed without branches. */
  function FloorLog(x: nat): (k: int)
    requires 0 < x <= 0xFFFF
  {
    var n8 := AndBit(Sub32(x, 0x100) / 0x1_0000, 8);
    var y8 := if n8 == 8 then x * 0x100 else x;
    var n4 := AndBit(Sub32(y8, 0x1000) / 0x1_0000, 4);
    var y4 := if n4 == 4 then y8 * 0x10 else y8;
    var n2 := AndBit(Sub32(y4, 0x4000) / 0x1_0000, 2);
    var y2 := if n2 == 2 then y4 * 4 else y4;
    14 - (n8 + n4 + n2) + y2 / 0x8000
  }

  lemma Powers()
    ensures Pow2(0) == 1 && Pow2(1) == 2 && Pow2(2) == 4 && Pow2(3) == 8 && Pow2(4) == 16 && Pow2(5) == 32
    ensures Pow2(6) == 64 && Pow2(7) == 128 && Pow2(8) == 256 && Pow2(9) == 512 && Pow2(10) == 1024
    ensures Pow2(11) == 2048 && Pow2(12) == 4096 && Pow2(13) == 8192 && Pow2(14) == 16384
    ensures Pow2(15) == 32768 && Pow2(16) == 65536
  {
  }

  lemma FloorLogCorrect(x: nat)
    requires 0 < x <= 0xFFFF
    ensures 0 <= FloorLog(x) <= 15
    ensures Pow2(FloorLog(x)) <= x < Pow2(FloorLog(x) + 1)
  {
    Powers();
    hide Pow2;
  }

  /** The bin of a chunk size, as the macro computes it. */
  function TreeIndex(s: nat): int {
    var x := s / 256;
    if x == 0 then 0
    else if x > 0xFFFF then NTREEBINS - 1
    else
      var k := FloorLog(x);
      2 * k + (if k < 0 then 0 else Shr(s, k + 7) % 2)
  }

  function Width(i: nat): nat {
    if i == NTREEBINS - 1 then 32 else i / 2 + 7
  }

  function Prefix(i: nat): nat {
    if i == NTREEBINS - 1 then 0 else 2 + i % 2
  }

  /** The smallest size bin i holds. */
  function MinSize(i: nat): nat {
    Pow2(i / 2 + 8) + (i % 2) * Pow2(i / 2 + 7)
  }

  lemma MinSizeStep(i: nat)
    ensures MinSize(i) == (2 + i % 2) * Pow2(i / 2 + 7)
    ensures MinSize(i + 1) == MinSize(i) + Pow2(i / 2 + 7)
  {
    assert Pow2(i / 2 + 8) == 2 * Pow2(i / 2 + 7);
    if i % 2 == 1 { assert (i + 1) / 2 == i / 2 + 1 && Pow2(i / 2 + 9) == 2 * Pow2(i / 2 + 8); }
  }

  lemma {:induction false} MinSizeMono(i: nat, j: nat)
    requires i <= j
    ensures MinSize(i) <= MinSize(j)
    decreases j
  {
    if i < j {
      MinSizeMono(i, j - 1);
      MinSizeStep(j - 1);
    }
  }

  lemma LogRange(s: nat, k: nat)
    requires Pow2(k) <= s / 256 < Pow2(k + 1)
    ensures 2 <= Shr(s, k + 7) <= 3
  {
    var p := Pow2(k + 7);
    assert Pow2(7) == 128 by { Powers(); }
    Pow2Add(k, 7);
    assert 2 * p == 256 * Pow2(k) && 4 * p == 256 * Pow2(k + 1);
    ShrIsDiv(s, k + 7);
    assert 2 * p <= s < 4 * p;
    assert s / p >= 2 by { if s / p < 2 { MulMono(s / p, 1, p); } }
    assert s / p <= 3 by { if s / p > 3 { MulMono(4, s / p, p); } }
  }

  /** Bin i holds the sizes from MinSize(i) up to MinSize(i + 1); the last bin has no upper end. */
  lemma IndexRange(s: nat)
    requires MIN_LARGE_SIZE <= s < WORD_LIMIT
    ensures 0 <= TreeIndex(s) < NTREEBINS
    ensures MinSize(TreeIndex(s)) <= s
    ensures TreeIndex(s) < NTREEBINS - 1 ==> s < MinSize(TreeIndex(s) + 1)
  {
    hide FloorLog, Pow2, Shr, MinSize;
    var x := s / 256;
    if x > 0xFFFF {
      LastBin();
    } else {
      FloorLogCorrect(x);
      var k := FloorLog(x);
      LogRange(s, k);
      var i := TreeIndex(s);
      assert i / 2 == k && i % 2 == Shr(s, k + 7) % 2;
      ShrRange(s, k + 7, 2 + i % 2);
      MinSizeStep(i);
      MulNext(2 + i % 2, Pow2(k + 7));
    }
  }

  lemma LastBin()
    ensures MinSize(NTREEBINS - 1) == 0xC0_0000
  {
    Powers();
    Pow2Add(15, 7);
    Pow2Add(15, 8);
  }

  /** All sizes of a bin share the bin's prefix. */
  lemma BinPrefix(s: nat)
    requires MIN_LARGE_SIZE <= s < WORD_LIMIT
    ensures 0 <= TreeIndex(s) < NTREEBINS && Shr(s, Width(TreeIndex(s))) == Prefix(TreeIndex(s))
  {
    IndexRange(s);
    var i := TreeIndex(s);
    if i < NTREEBINS - 1 {
      MinSizeStep(i);
      MulNext(2 + i % 2, Pow2(i / 2 + 7));
      ShrRange(s, i / 2 + 7, 2 + i % 2);
    } else {
      ShrRange(s, 32, 0);
      Pow2Add(16, 16);
      Powers();
    }
  }

  /** Smaller bins hold smaller sizes. */
  lemma IndexMono(s: nat, s': nat)
    requires MIN_LARGE_SIZE <= s < WORD_LIMIT && MIN_LARGE_SIZE <= s' < WORD_LIMIT
    requires TreeIndex(s) < TreeIndex(s')
    ensures s < s'
  {
    IndexRange(s);
    IndexRange(s');
    MinSizeMono(TreeIndex(s) + 1, TreeIndex(s'));
  }

  // ---- The register that feeds out size bits ---------------------------------------------------

  /** The size shifted so that bit w - 1 is the sign bit. */
  function Register(s: nat, w: nat): nat
    requires w <= 32
  {
    (s * Pow2(32 - w)) % WORD_LIMIT
  }

  function LeftShift(i: nat): nat
    requires i < NTREEBINS
  {
    if i == NTREEBINS - 1 then 0 else 31 - (i / 2 + 6)
  }

  lemma RegisterStart(i: nat)
    requires i < NTREEBINS
    ensures Width(i) <= 32 && LeftShift(i) == 32 - Width(i)
  {
  }

  lemma RegisterArith(s: nat, p: nat, q: nat, d: nat, r: nat, a: nat, t: nat)
    requires s == d * p + r && r < p && d == 2 * a + t && t < 2 && p * q == SIGN && q > 0
    ensures 0 <= r * q < SIGN
    ensures (s * q) % WORD_LIMIT == t * SIGN + r * q
    ensures (s * (2 * q)) % WORD_LIMIT == 2 * (r * q)
  {
    RegisterSplit(s, p, q, d, r, a, t);
    MulMono(r + 1, p, q);
    MulNext(r, q);
    var x, y := s * q, r * q;
    ModUnique(x, WORD_LIMIT, a, t * SIGN + y);
    MulTwice(s, q);
    ModUnique(2 * x, WORD_LIMIT, d, 2 * y);
  }

  lemma SignBit(t: nat, y: nat)
    requires t < 2 && y < SIGN
    ensures (t * SIGN + y) / SIGN == t && 2 * (t * SIGN + y) % WORD_LIMIT == 2 * y
  {
  }

  /** The sign bit chooses between the two halves of the range, and shifting left moves on. */
  lemma RegisterStep(s: nat, w: nat)
    requires 0 < w <= 32
    ensures Register(s, w) / SIGN == Shr(s, w - 1) % 2
    ensures 2 * Register(s, w) % WORD_LIMIT == Register(s, w - 1)
  {
    var p, q := Pow2(w - 1), Pow2(32 - w);
    hide Register, Shr;
    assert Pow2(32 - (w - 1)) == 2 * q;
    assert p * q == SIGN by { Pow2Add(w - 1, 32 - w); SignPower(); }
    hide Pow2;
    ShrIsDiv(s, w - 1);
    DivMod(s, p);
    RegisterEnd(s, w, p, q, s / p, s % p);
  }

  lemma RegisterEnd(s: nat, w: nat, p: nat, q: nat, d: nat, r: nat)
    requires 0 < w <= 32 && p > 0 && s == d * p + r && r < p && p * q == SIGN && d == Shr(s, w - 1)
    requires q == Pow2(32 - w) && 2 * q == Pow2(32 - (w - 1))
    ensures Register(s, w) / SIGN == d % 2
    ensures 2 * Register(s, w) % WORD_LIMIT == Register(s, w - 1)
  {
    hide Pow2, Shr;
    RegisterArith(s, p, q, d, r, d / 2, d % 2);
    SignBit(d % 2, r * q);
  }

  lemma RegisterSplit(s: nat, p: nat, q: nat, d: nat, r: nat, a: nat, t: nat)
    requires s == d * p + r && d == 2 * a + t && p * q == SIGN
    ensures s * q == a * WORD_LIMIT + (t * SIGN + r * q)
  {
    assert s * q == d * (p * q) + r * q;
    assert d * SIGN == a * WORD_LIMIT + t * SIGN;
  }

  lemma SignPower()
    ensures Pow2(31) == SIGN
  {
    Powers();
    Pow2Add(16, 15);
  }
}
