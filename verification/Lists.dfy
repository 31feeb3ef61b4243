/** Linked lists of numbered objects, as sequences. */
module Lists {

  ghost predicate NoDup(l: seq<nat>) {
    forall i, j :: 0 <= i < j < |l| ==> l[i] != l[j]
  }

  /** The list without the first occurrence of x. */
  function Remove(l: seq<nat>, x: nat): (r: seq<nat>)
    ensures forall y :: y in r ==> y in l
    ensures forall y :: y in l && y != x ==> y in r
  {
    if l == [] then []
    else if l[0] == x then
      assert l == [l[0]] + l[1..];
      l[1..]
    else
      assert l == [l[0]] + l[1..];
      [l[0]] + Remove(l[1..], x)
  }

  lemma {:induction false} RemoveNoDup(l: seq<nat>, x: nat)
    requires NoDup(l)
    ensures NoDup(Remove(l, x)) && x !in Remove(l, x)
  {
    if l != [] {
      var t := l[1..];
      assert forall a :: 0 <= a < |t| ==> t[a] == l[a + 1];
      RemoveNoDup(t, x);
      assert l[0] !in t;
    }
  }

  lemma RemoveHead(l: seq<nat>, x: nat)
    requires l != [] && l[0] != x
    ensures Remove(l, x) != [] && Remove(l, x)[0] == l[0]
  {
  }

  lemma {:induction false} RemoveLength(l: seq<nat>, x: nat)
    requires x in l
    ensures |Remove(l, x)| == |l| - 1
  {
    if l[0] != x {
      assert l == [l[0]] + l[1..];
      RemoveLength(l[1..], x);
    }
  }

  /** The list with x put in front of position k. */
  function InsertAt(l: seq<nat>, k: nat, x: nat): (r: seq<nat>)
    requires k <= |l|
    ensures forall y :: y in r <==> y in l || y == x
  {
    var r := l[..k] + [x] + l[k..];
    assert forall y :: y in l ==> y in r by { assert l == l[..k] + l[k..]; }
    r
  }

  lemma InsertLast(l: seq<nat>, x: nat)
    ensures InsertAt(l, |l|, x) == l + [x]
  {
  }

  lemma InsertNoDup(l: seq<nat>, k: nat, x: nat)
    requires k <= |l| && NoDup(l) && x !in l
    ensures NoDup(InsertAt(l, k, x))
  {
    var r := InsertAt(l, k, x);
    forall i, j | 0 <= i < j < |r| ensures r[i] != r[j] {
      assert r[i] == if i < k then l[i] else if i == k then x else l[i - 1];
      assert r[j] == if j < k then l[j] else if j == k then x else l[j - 1];
    }
  }

  // ---- The order of a list ------------------------------------------------------------------------

  /** a stands in front of b. */
  ghost predicate Ahead<T(!new)>(l: seq<T>, a: T, b: T) {
    exists i, j :: 0 <= i < j < |l| && l[i] == a && l[j] == b
  }

  /** Nothing overtakes: whatever stands in front of an element that was in l stood in front of it there. */
  ghost predicate SameOrder<T(!new)>(l: seq<T>, l': seq<T>) {
    forall a, b :: Ahead(l', a, b) && b in l ==> Ahead(l, a, b)
  }

  lemma AheadCons<T(!new)>(x: T, l: seq<T>, a: T, b: T)
    requires Ahead(l, a, b)
    ensures Ahead([x] + l, a, b)
  {
    var i, j :| 0 <= i < j < |l| && l[i] == a && l[j] == b;
    assert ([x] + l)[i + 1] == a && ([x] + l)[j + 1] == b;
  }

  lemma AheadHead<T(!new)>(x: T, l: seq<T>, b: T)
    requires b in l
    ensures Ahead([x] + l, x, b)
  {
    var j :| 0 <= j < |l| && l[j] == b;
    assert ([x] + l)[0] == x && ([x] + l)[j + 1] == b;
  }

  lemma AheadFirst<T(!new)>(x: T, l: seq<T>, a: T, b: T)
    requires Ahead([x] + l, a, b)
    ensures (a == x && b in l) || Ahead(l, a, b)
  {
    var i, j :| 0 <= i < j < |[x] + l| && ([x] + l)[i] == a && ([x] + l)[j] == b;
    if i > 0 { assert l[i - 1] == a && l[j - 1] == b; } else { assert l[j - 1] == b; }
  }

  lemma AppendOrder<T(!new)>(l: seq<T>, x: T)
    requires x !in l
    ensures SameOrder(l, l + [x])
  {
    var l' := l + [x];
    forall a, b | Ahead(l', a, b) && b in l ensures Ahead(l, a, b) {
      var i, j :| 0 <= i < j < |l'| && l'[i] == a && l'[j] == b;
      assert j < |l|;
    }
  }

  lemma TailOrder<T(!new)>(l: seq<T>, l': seq<T>, x: T)
    requires l == [x] + l'
    ensures SameOrder(l, l')
  {
    forall a, b | Ahead(l', a, b) ensures Ahead(l, a, b) { AheadCons(x, l', a, b); }
  }

  lemma {:induction false} RemoveOrder(l: seq<nat>, x: nat)
    ensures forall a, b :: Ahead(Remove(l, x), a, b) ==> Ahead(l, a, b)
  {
    if l != [] {
      var t := l[1..];
      var u := Remove(t, x);
      RemoveOrder(t, x);
      assert l == [l[0]] + t;
      forall a, b | Ahead(t, a, b) ensures Ahead(l, a, b) { AheadCons(l[0], t, a, b); }
      if l[0] != x {
        forall a, b | Ahead([l[0]] + u, a, b) ensures Ahead(l, a, b) {
          AheadFirst(l[0], u, a, b);
          if b in u { AheadHead(l[0], t, b); }
        }
      }
    }
  }

  /** An element that is in the first and the last list has been in the one between them. */
  lemma OrderTrans<T(!new)>(l: seq<T>, m: seq<T>, r: seq<T>)
    requires SameOrder(l, m) && SameOrder(m, r) && forall b :: b in l && b in r ==> b in m
    ensures SameOrder(l, r)
  {
    forall a, b | Ahead(r, a, b) && b in l ensures Ahead(l, a, b) {
      var i, j :| 0 <= i < j < |r| && r[i] == a && r[j] == b;
      assert b in r;
      assert Ahead(m, a, b);
    }
  }
}
