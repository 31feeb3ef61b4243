/** Paths through a tree: the slots taken on the way down. */
module Paths {
  type Path = seq<nat>

  function Init(q: Path): Path
    requires |q| >= 1
  {
    q[..|q| - 1]
  }

  function Last(q: Path): nat
    requires |q| >= 1
  {
    q[|q| - 1]
  }

  lemma PrefixInit(p: Path, q: Path)
    requires |q| >= 1
    ensures p <= q <==> p <= Init(q) || p == q
  {
    if p <= q && |p| == |q| { assert p == q[..|q|]; }
  }
}
