/** Bitmaps of 32-bit words: testing, setting and clearing one bit. */
module Bitmap {
  const WORD: nat := 32

  function Mask(k: bv5): bv32 { 1 << k }

  lemma MaskDisjoint(i: bv5, j: bv5)
    ensures i != j ==> Mask(i) & Mask(j) == 0
  {}

  lemma MaskNonZero(i: bv5)
    ensures Mask(i) != 0
  {}

  lemma OrKeeps(w: bv32, a: bv32, b: bv32)
    requires a & b == 0
    ensures (w | a) & b == w & b
  {}

  lemma OrSets(w: bv32, a: bv32)
    ensures (w | a) & a == a
  {}

  lemma AndKeeps(w: bv32, a: bv32, b: bv32)
    requires a & b == 0
    ensures (w & !a) & b == w & b
  {}

  lemma AndClears(w: bv32, a: bv32)
    ensures (w & !a) & a == 0
  {}

  lemma AndRestores(w: bv32, a: bv32)
    requires w & a == 0
    ensures (w | a) & !a == w
  {}

  lemma OrRestores(w: bv32, a: bv32)
    requires w & a == a
    ensures (w & !a) | a == w
  {}

  /** A mask has one bit, so a word has all of it or nothing. */
  lemma MaskWhole(w: bv32, i: bv5)
    ensures w & Mask(i) == 0 || w & Mask(i) == Mask(i)
  {}

  // ---- One word ------------------------------------------------------------------

  function Masked(w: bv32, k: bv5): bv32 { w & Mask(k) }

  predicate TestWord(w: bv32, k: bv5) { Masked(w, k) != 0 }

  /** The bit tested is bit k, counting from the least significant. */
  lemma TestMeans(w: bv32, k: bv5)
    ensures TestWord(w, k) <==> (w >> k) & 1 == 1
  {
  }

  function SetWord(w: bv32, k: bv5): bv32 { w | Mask(k) }

  function ClearWord(w: bv32, k: bv5): bv32 { w & !Mask(k) }

  lemma SameBit(w: bv32, i: bv5)
    ensures TestWord(SetWord(w, i), i) && !TestWord(ClearWord(w, i), i)
  {
    MaskNonZero(i);
    OrSets(w, Mask(i));
    AndClears(w, Mask(i));
  }

  lemma OtherBitSet(w: bv32, i: bv5, j: bv5)
    requires i != j
    ensures Masked(SetWord(w, i), j) == Masked(w, j)
  {
    MaskDisjoint(i, j);
    OrKeeps(w, Mask(i), Mask(j));
  }

  lemma OtherBitCleared(w: bv32, i: bv5, j: bv5)
    requires i != j
    ensures Masked(ClearWord(w, i), j) == Masked(w, j)
  {
    MaskDisjoint(i, j);
    AndKeeps(w, Mask(i), Mask(j));
  }

  lemma SetThenClearWord(w: bv32, i: bv5)
    requires !TestWord(w, i)
    ensures ClearWord(SetWord(w, i), i) == w
  {
    hide Mask;
    AndRestores(w, Mask(i));
  }

  lemma ClearThenSetWord(w: bv32, i: bv5)
    requires TestWord(w, i)
    ensures SetWord(ClearWord(w, i), i) == w
  {
    MaskWhole(w, i);
    hide Mask;
    OrRestores(w, Mask(i));
  }

  // ---- A whole bitmap ----------------------------------------------------------------

  function Shift(n: nat): bv5 { (n % WORD) as bv5 }

  lemma ShiftInjective(n: nat, m: nat)
    requires Shift(n) == Shift(m)
    ensures n % WORD == m % WORD
  {
    assert ((n % WORD) as bv5) as nat == n % WORD;
    assert ((m % WORD) as bv5) as nat == m % WORD;
  }

  predicate Test(words: seq<bv32>, n: nat)
    requires n / WORD < |words|
  {
    TestWord(words[n / WORD], Shift(n))
  }

  function Set(words: seq<bv32>, n: nat): (r: seq<bv32>)
    requires n / WORD < |words|
    ensures |r| == |words|
  {
    words[n / WORD := SetWord(words[n / WORD], Shift(n))]
  }

  function Clear(words: seq<bv32>, n: nat): (r: seq<bv32>)
    requires n / WORD < |words|
    ensures |r| == |words|
  {
    words[n / WORD := ClearWord(words[n / WORD], Shift(n))]
  }

  /** Setting or clearing a bit changes that bit and no other. */
  lemma OneBit(words: seq<bv32>, n: nat, m: nat)
    requires n / WORD < |words| && m / WORD < |words|
    ensures Test(Set(words, n), m) <==> m == n || Test(words, m)
    ensures Test(Clear(words, n), m) <==> m != n && Test(words, m)
  {
    hide Masked, SetWord, ClearWord, Shift;
    if m / WORD == n / WORD {
      if Shift(n) == Shift(m) {
        ShiftInjective(n, m);
        SameBit(words[n / WORD], Shift(n));
      } else {
        OtherBitSet(words[n / WORD], Shift(n), Shift(m));
        OtherBitCleared(words[n / WORD], Shift(n), Shift(m));
      }
    }
  }

  /** Clearing a bit that was clear before it was set restores the bitmap. */
  lemma SetThenClear(words: seq<bv32>, n: nat)
    requires n / WORD < |words| && !Test(words, n)
    ensures Clear(Set(words, n), n) == words
  {
    hide Masked, SetWord, ClearWord, Shift;
    SetThenClearWord(words[n / WORD], Shift(n));
  }

  /** Setting a bit that was set before it was cleared restores the bitmap. */
  lemma ClearThenSet(words: seq<bv32>, n: nat)
    requires n / WORD < |words| && Test(words, n)
    ensures Set(Clear(words, n), n) == words
  {
    hide Masked, SetWord, ClearWord, Shift;
    ClearThenSetWord(words[n / WORD], Shift(n));
  }

  /** The number of clear bits among the first n. */
  function ClearBits(words: seq<bv32>, n: nat): nat
    requires n <= |words| * WORD
  {
    if n == 0 then 0 else ClearBits(words, n - 1) + if Test(words, n - 1) then 0 else 1
  }

  lemma {:induction false} ClearBitsSet(words: seq<bv32>, n: nat, k: nat)
    requires n <= |words| * WORD && k / WORD < |words| && !Test(words, k)
    ensures ClearBits(Set(words, k), n) == ClearBits(words, n) - if k < n then 1 else 0
  {
    hide Test, Set;
    if n > 0 {
      ClearBitsSet(words, n - 1, k);
      OneBit(words, k, n - 1);
    }
  }

  lemma {:induction false} ClearBitsClear(words: seq<bv32>, n: nat, k: nat)
    requires n <= |words| * WORD && k / WORD < |words| && Test(words, k)
    ensures ClearBits(Clear(words, k), n) == ClearBits(words, n) + if k < n then 1 else 0
  {
    hide Test, Clear;
    if n > 0 {
      ClearBitsClear(words, n - 1, k);
      OneBit(words, k, n - 1);
    }
  }

  /** A bitmap whose bits are all set has no clear bit to count. */
  lemma {:induction false} AllSet(words: seq<bv32>, n: nat)
    requires n <= |words| * WORD && forall k: nat :: k < n ==> Test(words, k)
    ensures ClearBits(words, n) == 0
  {
    hide Test;
    if n > 0 { AllSet(words, n - 1); }
  }
}
