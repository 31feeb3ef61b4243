/** The cache of path nodes: a reference-counted tree whose unused nodes are dropped from the bottom up. */
module PathCache {
  import opened Arith
  import opened Lists

  datatype PathNode = PathNode(name: string, parent: Option<nat>, refCount: int, children: seq<nat>, mounted: bool)

  type Nodes = map<nat, PathNode>

  /**
   * Handles held by file descriptors, processes, mounts, and put operations on their way up.  The
   * cache does not record them: they are what its reference counts have to agree with.
   */
  type Handles = map<nat, nat>

  // ---- Accounting ----------------------------------------------------------------------------------

  /** One if the node is on its parent's list of children; the root is its own parent but on no list. */
  function Linked(nodes: Nodes, root: nat, n: nat): nat {
    if n in nodes && n != root && nodes[n].parent.Some? then 1 else 0
  }

  function Held(handles: Handles, n: nat): nat {
    if n in handles then handles[n] else 0
  }

  /** The reference count is what it should be, and permanent handles are in place. */
  ghost predicate Counted(nodes: Nodes, handles: Handles, root: nat, n: nat) {
    n in nodes ==>
      && nodes[n].refCount ==
           Held(handles, n) + Linked(nodes, root, n) + |nodes[n].children| + (if n == root then 1 else 0)
      && Held(handles, n) >= Pins(nodes, root, n)
  }

  ghost predicate HasChild(nodes: Nodes, n: nat, c: nat) {
    n in nodes && c in nodes[n].children
  }

  ghost predicate ChildOf(nodes: Nodes, root: nat, c: nat, n: nat) {
    c in nodes && c != root && nodes[c].parent == Some(n)
  }

  ghost predicate NodeOk(nodes: Nodes, root: nat, n: nat) {
    n in nodes ==>
      NoDup(nodes[n].children) &&
        (nodes[n].parent.Some? ==> nodes[n].parent.value in nodes && (nodes[n].parent == Some(n) ==> n == root))
  }

  /** Children and parents agree. */
  ghost predicate Tree(nodes: Nodes, root: nat) {
    && root in nodes && nodes[root].parent == Some(root)
    && (forall n :: NodeOk(nodes, root, n))
    && (forall n, c :: HasChild(nodes, n, c) <==> ChildOf(nodes, root, c, n))
  }

  /** Handles that are never given back: the system's own on the root, and those of mounts. */
  function Pins(nodes: Nodes, root: nat, n: nat): nat {
    (if n == root then 1 else 0) + (if n in nodes && nodes[n].mounted then 1 else 0)
  }

  ghost predicate Accounted(nodes: Nodes, handles: Handles, root: nat) {
    Tree(nodes, root) && handles.Keys <= nodes.Keys && forall n :: Counted(nodes, handles, root, n)
  }

  /** What the pool's destructor demands of a node that is returned to it. */
  ghost predicate Constructed(p: PathNode) {
    p.refCount == 0 && p.children == [] && !p.mounted
  }

  // ---- Taking a handle and giving it back -----------------------------------------------------------

  /** A tree whose nodes keep their parents and children is still one. */
  lemma SameTree(nodes: Nodes, nodes': Nodes, root: nat)
    requires Tree(nodes, root) && nodes'.Keys == nodes.Keys
    requires forall n :: n in nodes ==> nodes'[n].parent == nodes[n].parent && nodes'[n].children == nodes[n].children
    ensures Tree(nodes', root)
  {
    hide NoDup;
    forall n ensures NodeOk(nodes', root, n) { assert NodeOk(nodes, root, n); }
    forall n, c ensures HasChild(nodes', n, c) <==> ChildOf(nodes', root, c, n) {
      assert HasChild(nodes, n, c) <==> ChildOf(nodes, root, c, n);
    }
  }

  lemma HandleChanged(nodes: Nodes, handles: Handles, root: nat, n: nat, h: nat, nodes': Nodes, handles': Handles)
    requires Accounted(nodes, handles, root) && n in nodes && h >= Pins(nodes, root, n)
    requires nodes' == nodes[n := nodes[n].(refCount := nodes[n].refCount + h - Held(handles, n))]
    requires handles' == handles[n := h]
    ensures Accounted(nodes', handles', root)
  {
    SameTree(nodes, nodes', root);
    hide Tree;
    forall x ensures Counted(nodes', handles', root, x) {
      assert Counted(nodes, handles, root, x);
    }
  }

  /** The state after an unused node n is unlinked and freed; its claim on its parent has become a handle. */
  ghost function Freed(nodes: Nodes, n: nat): Nodes
    requires n in nodes
  {
    match nodes[n].parent
    case None => nodes - {n}
    case Some(p) =>
      if p in nodes && p != n then (nodes - {n})[p := nodes[p].(children := Remove(nodes[p].children, n))]
        else nodes - {n}
  }

  function Passed(nodes: Nodes, handles: Handles, n: nat): Handles
    requires n in nodes
  {
    match nodes[n].parent
    case None => handles - {n}
    case Some(p) => (handles - {n})[p := Held(handles, p) + 1]
  }

  lemma FreedTree(nodes: Nodes, root: nat, n: nat)
    requires Tree(nodes, root) && n in nodes && n != root && nodes[n].children == []
    ensures Tree(Freed(nodes, n), root)
    ensures nodes[n].parent.Some? ==>
      var p := nodes[n].parent.value; p != n && p in nodes && n in nodes[p].children && NoDup(nodes[p].children)
  {
    var nodes' := Freed(nodes, n);
    assert NodeOk(nodes, root, n);
    if nodes[n].parent.Some? {
      var p := nodes[n].parent.value;
      assert ChildOf(nodes, root, n, p) && HasChild(nodes, p, n);
      assert NodeOk(nodes, root, p);
      RemoveNoDup(nodes[p].children, n);
    }
    hide NoDup, Remove;
    forall x ensures NodeOk(nodes', root, x) {
      assert NodeOk(nodes, root, x);
      assert !HasChild(nodes, n, x) && !ChildOf(nodes, root, x, n);
    }
    forall x, c ensures HasChild(nodes', x, c) <==> ChildOf(nodes', root, c, x) {
      assert HasChild(nodes, x, c) <==> ChildOf(nodes, root, c, x);
    }
  }

  lemma FreedAccounted(nodes: Nodes, handles: Handles, root: nat, n: nat)
    requires Accounted(nodes, handles, root) && n in nodes && n != root && nodes[n].children == []
    requires Held(handles, n) == 0
    ensures Accounted(Freed(nodes, n), Passed(nodes, handles, n), root)
  {
    FreedTree(nodes, root, n);
    var nodes', handles' := Freed(nodes, n), Passed(nodes, handles, n);
    if nodes[n].parent.Some? {
      RemoveLength(nodes[nodes[n].parent.value].children, n);
    }
    hide Tree, Remove, NoDup;
    forall x ensures Counted(nodes', handles', root, x) {
      assert Counted(nodes, handles, root, x);
    }
  }

  /** A new node, linked in front of its parent's children, with one handle. */
  ghost function Grown(nodes: Nodes, n: nat, name: string, p: nat): Nodes
    requires p in nodes
  {
    var q := nodes[p];
    nodes[p := q.(refCount := q.refCount + 1, children := [n] + q.children)][n := PathNode(name, Some(p), 2, [], false)]
  }

  lemma GrownAccounted(nodes: Nodes, handles: Handles, root: nat, n: nat, name: string, p: nat)
    requires Accounted(nodes, handles, root) && p in nodes && n !in nodes
    ensures Accounted(Grown(nodes, n, name, p), handles[n := 1], root)
  {
    var nodes', handles' := Grown(nodes, n, name, p), handles[n := 1];
    assert !ChildOf(nodes, root, n, p) && !HasChild(nodes, p, n);
    forall x ensures NodeOk(nodes', root, x) { assert NodeOk(nodes, root, x); }
    forall x, c ensures HasChild(nodes', x, c) <==> ChildOf(nodes', root, c, x) {
      assert HasChild(nodes, x, c) <==> ChildOf(nodes, root, c, x);
      assert NodeOk(nodes, root, c);
    }
    hide Tree;
    forall x ensures Counted(nodes', handles', root, x) { assert Counted(nodes, handles, root, x); }
  }

  /**
   * A node taken out of the tree while it is in use.  The claim on its parent is given up if it
   * has one; its own count is lowered in any case, as if its parent had listed it.
   */
  ghost function Removed(nodes: Nodes, n: nat): Nodes
    requires n in nodes && (nodes[n].parent.Some? ==> nodes[n].parent.value in nodes)
  {
    match nodes[n].parent
    case None => nodes[n := nodes[n].(refCount := nodes[n].refCount - 1)]
    case Some(p) =>
      var q := nodes[p].(refCount := nodes[p].refCount - 1, children := Remove(nodes[p].children, n));
      var rest := nodes[p := q];
      rest[n := rest[n].(parent := None, refCount := rest[n].refCount - 1)]
  }

  lemma RemovedLinked(nodes: Nodes, handles: Handles, root: nat, n: nat)
    requires Accounted(nodes, handles, root) && Linked(nodes, root, n) == 1
    ensures nodes[n].parent.value in nodes
    ensures Accounted(Removed(nodes, n), handles, root)
  {
    var p := nodes[n].parent.value;
    assert NodeOk(nodes, root, n) && NodeOk(nodes, root, p);
    assert ChildOf(nodes, root, n, p) && HasChild(nodes, p, n);
    RemoveNoDup(nodes[p].children, n);
    RemoveLength(nodes[p].children, n);
    hide NoDup, Remove;
    var nodes' := Removed(nodes, n);
    forall x ensures NodeOk(nodes', root, x) { assert NodeOk(nodes, root, x); }
    forall x, c ensures HasChild(nodes', x, c) <==> ChildOf(nodes', root, c, x) {
      assert HasChild(nodes, x, c) <==> ChildOf(nodes, root, c, x);
    }
    hide Tree;
    forall x ensures Counted(nodes', handles, root, x) { assert Counted(nodes, handles, root, x); }
  }

  lemma ParentPresent(nodes: Nodes, handles: Handles, root: nat, n: nat)
    requires Accounted(nodes, handles, root) && n in nodes
    ensures nodes[n].parent.Some? ==> nodes[n].parent.value in nodes
  {
    assert NodeOk(nodes, root, n);
  }

  /**
   * Removal keeps the counts right if and only if the node is on its parent's list.  A node that
   * another thread has removed already loses a reference that was never counted, and the root
   * loses its place.
   */
  lemma RemovedIff(nodes: Nodes, handles: Handles, root: nat, n: nat)
    requires Accounted(nodes, handles, root) && n in nodes
    ensures nodes[n].parent.Some? ==> nodes[n].parent.value in nodes
    ensures Accounted(Removed(nodes, n), handles, root) <==> Linked(nodes, root, n) == 1
  {
    ParentPresent(nodes, handles, root, n);
    if Linked(nodes, root, n) == 1 {
      RemovedLinked(nodes, handles, root, n);
    } else {
      assert Counted(nodes, handles, root, n);
      assert !(Removed(nodes, n)[root].parent == Some(root) && Counted(Removed(nodes, n), handles, root, n));
    }
  }

  /** The test of a put on a node whose count it has just lowered. */
  predicate FreesNow(p: PathNode) {
    p.refCount < 2 && !(p.refCount == 1 && p.parent == None)
  }

  function Lowered(p: PathNode): PathNode {
    p.(refCount := p.refCount - 1)
  }

  /**
   * What the lost reference does: after the second removal the next put frees the node although
   * up to two handles and children are left; with the counts right it does so for the last only.
   */
  lemma RemovedTwiceFrees(nodes: Nodes, handles: Handles, root: nat, n: nat)
    requires Accounted(nodes, handles, root) && n in nodes && n != root && nodes[n].parent == None
    ensures FreesNow(Lowered(nodes[n])) <==> Held(handles, n) + |nodes[n].children| <= 1
    ensures FreesNow(Lowered(Removed(nodes, n)[n])) <==> Held(handles, n) + |nodes[n].children| <= 2
  {
    assert Counted(nodes, handles, root, n);
  }

  /** Entry k is the first of the list with the name. */
  ghost predicate IsFirst(nodes: Nodes, l: seq<nat>, name: string, k: nat) {
    && k < |l| && l[k] in nodes && nodes[l[k]].name == name
    && forall i: nat :: i < k && l[i] in nodes ==> nodes[l[i]].name != name
  }

  // ---- The cache ------------------------------------------------------------------------------------

  class Cache {
    const root: nat
    var nodes: Nodes
    var handles: Handles

    ghost predicate Valid()
      reads this
    {
      Accounted(nodes, handles, root)
    }

    ghost function Now(): World
      reads this
    {
      World(nodes, handles)
    }

    /** The root holds two references to itself: the system's and its own as its parent. */
    constructor (root: nat)
      ensures Valid() && this.root == root && nodes.Keys == {root} && handles == map[root := 1]
    {
      this.root := root;
      nodes := map[root := PathNode("/", Some(root), 2, [], false)];
      handles := map[root := 1];
      new;
      forall n, c ensures HasChild(nodes, n, c) <==> ChildOf(nodes, root, c, n) {}
    }

    /** Add a node below a node the caller holds. */
    method Create(n: nat, name: string, parent: nat)
      requires Valid() && n !in nodes && parent in nodes
      modifies this
      ensures Valid() && nodes == Grown(old(nodes), n, name, parent) && handles == old(handles)[n := 1]
    {
      GrownAccounted(nodes, handles, root, n, name, parent);
      hide Accounted;
      var q := nodes[parent];
      nodes := nodes[parent := q.(refCount := q.refCount + 1, children := [n] + q.children)];
      nodes := nodes[n := PathNode(name, Some(parent), 2, [], false)];
      handles := handles[n := 1];
    }

    method Duplicate(n: nat)
      requires Valid() && n in nodes
      modifies this
      ensures Valid() && handles == old(handles)[n := Held(old(handles), n) + 1]
      ensures nodes == old(nodes)[n := old(nodes)[n].(refCount := old(nodes)[n].refCount + 1)]
    {
      assert Counted(nodes, handles, root, n);
      HandleChanged(nodes, handles, root, n, Held(handles, n) + 1,
                    nodes[n := nodes[n].(refCount := nodes[n].refCount + 1)], handles[n := Held(handles, n) + 1]);
      hide Accounted;
      nodes := nodes[n := nodes[n].(refCount := nodes[n].refCount + 1)];
      handles := handles[n := Held(handles, n) + 1];
    }

    /** Find a cached child by name and take a handle on it. */
    method LookupCached(parent: nat, name: string) returns (r: Option<nat>)
      requires Valid() && parent in nodes
      modifies this
      ensures Valid() && (forall c :: c in old(nodes)[parent].children ==> c in old(nodes))
      ensures r.None? ==> nodes == old(nodes) && handles == old(handles)
      ensures r.Some? ==>
        && r.value in old(nodes)[parent].children && old(nodes)[r.value].name == name
        && (exists k: nat :: IsFirst(old(nodes), old(nodes)[parent].children, name, k) &&
              r.value == old(nodes)[parent].children[k])
        && handles == old(handles)[r.value := Held(old(handles), r.value) + 1]
        && nodes == old(nodes)[r.value := old(nodes)[r.value].(refCount := old(nodes)[r.value].refCount + 1)]
      ensures r.None? <==> forall c :: c in old(nodes)[parent].children ==> old(nodes)[c].name != name
    {
      var l := nodes[parent].children;
      forall c | c in l ensures c in nodes {
        assert HasChild(nodes, parent, c);
        assert ChildOf(nodes, root, c, parent);
      }
      hide Accounted;
      var k := 0;
      while k < |l| && nodes[l[k]].name != name
        invariant k <= |l| && nodes == old(nodes) && handles == old(handles)
        invariant forall i :: 0 <= i < k ==> nodes[l[i]].name != name
      {
        k := k + 1;
      }
      if k == |l| {
        return None;
      }
      assert IsFirst(nodes, l, name, k);
      Duplicate(l[k]);
      r := Some(l[k]);
    }

    /** Take a node out of the tree, because its file is gone. */
    method Detach(n: nat)
      requires Valid() && n in nodes
      modifies this`nodes
      ensures old(nodes)[n].parent.Some? ==> old(nodes)[n].parent.value in old(nodes)
      ensures nodes == Removed(old(nodes), n)
      ensures Valid() <==> Linked(old(nodes), root, n) == 1
    {
      RemovedIff(nodes, handles, root, n);
      hide Accounted;
      if nodes[n].parent.Some? {
        var p := nodes[n].parent.value;
        nodes := nodes[p := nodes[p].(refCount := nodes[p].refCount - 1, children := Remove(nodes[p].children, n))];
        nodes := nodes[n := nodes[n].(parent := None)];
      }
      nodes := nodes[n := nodes[n].(refCount := nodes[n].refCount - 1)];
    }

    /** Mount a file system on a node; the caller's handle becomes the mount's. */
    method Mount(n: nat)
      requires Valid() && n in nodes && !nodes[n].mounted && Held(handles, n) > Pins(nodes, root, n)
      modifies this`nodes
      ensures Valid() && nodes == old(nodes)[n := old(nodes)[n].(mounted := true)]
    {
      nodes := nodes[n := nodes[n].(mounted := true)];
      SameTree(old(nodes), nodes, root);
      hide Tree;
      forall x ensures Counted(nodes, handles, root, x) { assert Counted(old(nodes), handles, root, x); }
    }

    /**
     * One locked section of a put: give up a handle on n, and free n if it is unused.  The claim
     * that n had on its parent is then a handle that the put gives up in its next section.
     */
    method Release(n: nat) returns (next: Option<nat>)
      requires Valid() && n in nodes && Held(handles, n) > Pins(nodes, root, n)
      modifies this
      ensures Valid()
      ensures if Unused(old(nodes), old(handles), n) then
          && n != root && nodes == Freed(old(nodes), n) && next == old(nodes)[n].parent
          && handles == Passed(old(nodes), Zeroed(old(handles), n), n)
        else
          && next == None && handles == old(handles)[n := Held(old(handles), n) - 1]
          && nodes == old(nodes)[n := old(nodes)[n].(refCount := old(nodes)[n].refCount - 1)]
    {
      ReleaseCount(nodes, handles, root, n);
      hide Accounted;
      var nodes0, handles0 := nodes, handles;
      nodes := nodes[n := nodes[n].(refCount := nodes[n].refCount - 1)];
      handles := handles[n := Held(handles, n) - 1];
      var p := nodes[n];
      assert !(p.refCount == 0 && p.parent != None);
      if FreesNow(p) {
        ReleaseFree(old(nodes), old(handles), root, n, nodes, handles);
        if p.parent.Some? {
          assert p.refCount == 1;
          var up := p.parent.value;
          nodes := nodes[up := nodes[up].(children := Remove(nodes[up].children, n))];
          p := p.(refCount := p.refCount - 1);
        }
        assert Constructed(p);
        nodes := nodes - {n};
        assert nodes == Freed(old(nodes), n);
        handles := Passed(nodes0, Zeroed(handles0, n), n);
        next := p.parent;
      } else {
        next := None;
      }
    }

    /**
     * Give up a handle: the node and the longest chain of ancestors that this leaves unused are
     * freed, and nothing else.
     */
    method Put(n: nat) returns (ghost freed: seq<nat>)
      requires Valid() && n in nodes && Held(handles, n) > Pins(nodes, root, n)
      modifies this
      ensures Valid() && root in nodes && MaximalChain(old(nodes), old(handles), n, freed)
      ensures nodes.Keys == old(nodes).Keys - set x | x in freed
      ensures forall x :: x in nodes && Some(x) != Stop(old(nodes), n, freed) ==>
        nodes[x] == old(nodes)[x] && Held(handles, x) == Held(old(handles), x)
      ensures var stop := Stop(old(nodes), n, freed);
        stop.Some? ==>
          && stop.value in nodes && stop.value in old(nodes)
          && nodes[stop.value].refCount == old(nodes)[stop.value].refCount - 1
          && Held(handles, stop.value) == Held(old(handles), stop.value) - (if freed == [] then 1 else 0)
          && (forall c :: c in nodes[stop.value].children <==>
                c in old(nodes)[stop.value].children && (freed == [] || c != freed[|freed| - 1]))
    {
      freed := [];
      var cur := Some(n);
      PutStart(nodes, handles, root, n);
      while cur.Some?
        invariant Valid()
        invariant cur.Some? ==> Climbing(old(nodes), old(handles), nodes, handles, root, n, freed, cur.value)
        invariant cur.None? ==> Finished(old(nodes), old(handles), nodes, handles, n, freed)
        decreases cur.Some?, nodes.Keys
      {
        hide Accounted, Climbing, Finished, Freed, Passed, Zeroed, Unused;
        ghost var at, nodes1, handles1 := cur.value, nodes, handles;
        ClimbFacts(old(nodes), old(handles), nodes, handles, root, n, freed, at);
        cur := Release(cur.value);
        if Unused(nodes1, handles1, at) {
          ClimbUp(old(nodes), old(handles), nodes1, handles1, root, n, freed, at);
          freed := freed + [at];
        } else {
          ClimbEnd(old(nodes), old(handles), nodes1, handles1, root, n, freed, at);
        }
      }
      hide Accounted;
      assert root in nodes by { RootStays(nodes, handles, root); }
    }

    /**
     * Locked sections of any number of threads, in any order.  A put that has freed a node goes on
     * with its parent in a later section; in between it counts as one of the parent's handles.
     * Each section does what Stepped says and keeps the counts right, up to the first removal of a
     * node that is not on its parent's list, which breaks them, or the first mount on a node that
     * is mounted on, which panics.  `trace` holds the states in between.
     */
    method Execute(ops: seq<Op>) returns (done: nat, ghost trace: seq<World>)
      requires Valid()
      modifies this
      ensures done <= |ops| && IsRun(trace, ops[..done], root) && trace[0] == old(Now())
      ensures done == |ops| ==> Valid() && root in nodes && trace[done] == Now()
      ensures done < |ops| && Careless(trace[done].nodes, root, ops[done]) ==> !Valid()
      ensures done < |ops| ==>
        Careless(trace[done].nodes, root, ops[done]) || Panics(trace[done], root, ops[done])
    {
      hide Stepped, Accounted;
      done, trace := 0, [Now()];
      while done < |ops|
        invariant done <= |ops| && Valid() && IsRun(trace, ops[..done], root)
        invariant trace[0] == old(Now()) && trace[done] == Now()
        decreases |ops| - done
      {
        var careless := Careless(nodes, root, ops[done]);
        var ok := Perform(ops[done]);
        if careless || !ok {
          return;
        }
        assert ops[..done + 1] == ops[..done] + [ops[done]];
        trace := trace + [Now()];
        done := done + 1;
      }
      RootStays(nodes, handles, root);
    }

    /**
     * One locked section; one whose caller does not hold what it needs does nothing.  It keeps
     * the counts right if and only if it is not the removal of a node that is out of the tree.
     */
    method Perform(op: Op) returns (ok: bool)
      requires Valid()
      modifies this
      ensures Valid() <==> !Careless(old(nodes), root, op)
      ensures ok <==> !Panics(old(Now()), root, op)
      ensures if ok then Stepped(old(Now()), root, op, Now()) else Now() == old(Now())
    {
      hide Accounted, Removed, Freed, Passed, Zeroed, Unused, IsFirst;
      ok := true;
      match op
      case MakeNode(n, name, parent) => if n !in nodes && parent in nodes { Create(n, name, parent); }
      case Share(n) => if n in nodes { Duplicate(n); }
      case Lookup(parent, name) =>
        if parent in nodes {
          var r := LookupCached(parent, name);
          if r.None? {
            NoFirst(old(nodes), old(nodes)[parent].children, name);
          }
        }
      case Forget(n) => if n in nodes { Detach(n); }
      case MountOn(n) =>
        if n in nodes && Held(handles, n) > Pins(nodes, root, n) {
          ok := !nodes[n].mounted;
          if ok { Mount(n); }
        }
      case GiveUp(n) => if n in nodes && Held(handles, n) > Pins(nodes, root, n) { var _ := Release(n); }
    }
  }

  // ---- What the sections do ------------------------------------------------------------------------------

  datatype World = World(nodes: Nodes, handles: Handles)

  /** Node n with one handle more. */
  ghost function Taken(w: World, n: nat): World
    requires n in w.nodes
  {
    World(w.nodes[n := w.nodes[n].(refCount := w.nodes[n].refCount + 1)], w.handles[n := Held(w.handles, n) + 1])
  }

  /** A mount on a node that is mounted on. */
  ghost predicate Panics(w: World, root: nat, op: Op) {
    && op.MountOn? && op.node in w.nodes && w.nodes[op.node].mounted
    && Held(w.handles, op.node) > Pins(w.nodes, root, op.node)
  }

  /** A handle on n has been given up. */
  ghost predicate LetGo(w: World, w': World, n: nat) {
    && n in w.nodes && Held(w.handles, n) > 0
    && if Unused(w.nodes, w.handles, n)
       then w' == World(Freed(w.nodes, n), Passed(w.nodes, Zeroed(w.handles, n), n))
       else w' == World(w.nodes[n := w.nodes[n].(refCount := w.nodes[n].refCount - 1)],
                        w.handles[n := Held(w.handles, n) - 1])
  }

  ghost predicate Stepped(w: World, root: nat, op: Op, w': World) {
    match op
    case MakeNode(n, name, p) =>
      if n !in w.nodes && p in w.nodes then
        && w'.handles == w.handles[n := 1] && w'.nodes.Keys == w.nodes.Keys + {n}
        && w'.nodes[n] == PathNode(name, Some(p), 2, [], false)
        && w'.nodes[p] ==
             w.nodes[p].(refCount := w.nodes[p].refCount + 1, children := [n] + w.nodes[p].children)
        && forall x :: x in w.nodes && x != p ==> w'.nodes[x] == w.nodes[x]
      else w' == w
    case Share(n) => w' == if n in w.nodes then Taken(w, n) else w
    case Lookup(p, name) =>
      if p in w.nodes && exists k: nat :: IsFirst(w.nodes, w.nodes[p].children, name, k) then
        exists k: nat :: IsFirst(w.nodes, w.nodes[p].children, name, k) && w' == Taken(w, w.nodes[p].children[k])
      else w' == w
    case Forget(n) =>
      if n in w.nodes && (w.nodes[n].parent.Some? ==> w.nodes[n].parent.value in w.nodes)
      then w' == w.(nodes := Removed(w.nodes, n)) else w' == w
    case MountOn(n) =>
      if n in w.nodes && Held(w.handles, n) > Pins(w.nodes, root, n)
      then w' == w.(nodes := w.nodes[n := w.nodes[n].(mounted := true)]) else w' == w
    case GiveUp(n) =>
      if n in w.nodes && Held(w.handles, n) > Pins(w.nodes, root, n) then LetGo(w, w', n) else w' == w
  }

  /** The states of a run, in all of which the counts are right. */
  ghost predicate IsRun(trace: seq<World>, ops: seq<Op>, root: nat) {
    && |trace| == |ops| + 1 && (forall i :: 0 <= i < |trace| ==> Accounted(trace[i].nodes, trace[i].handles, root))
    && forall i :: 0 <= i < |ops| ==>
         && Stepped(trace[i], root, ops[i], trace[i + 1])
         && !Careless(trace[i].nodes, root, ops[i]) && !Panics(trace[i], root, ops[i])
  }

  lemma NoFirst(nodes: Nodes, l: seq<nat>, name: string)
    requires forall c :: c in l ==> c in nodes && nodes[c].name != name
    ensures forall k: nat :: !IsFirst(nodes, l, name, k)
  {
    assert forall k: nat :: k < |l| ==> l[k] in l;
  }

  /** A node that has just been made is found under its name. */
  method MakeThenLookup(c: Cache, n: nat, name: string, parent: nat) returns (r: Option<nat>)
    requires c.Valid() && n !in c.nodes && parent in c.nodes
    modifies c
    ensures c.Valid() && r == Some(n) && Held(c.handles, n) == 2
  {
    hide Accounted;
    c.Create(n, name, parent);
    ghost var nodes, l := c.nodes, c.nodes[parent].children;
    assert l[0] == n && n in nodes && nodes[n].name == name;
    r := c.LookupCached(parent, name);
    assert forall k: nat :: IsFirst(nodes, l, name, k) ==> k == 0;
  }

  /**
   * Two threads unlink the same file.  Both hold its node, both remove it, and the first put frees
   * it under the second thread.
   */
  method UnlinkTwice() returns (c: Cache)
    ensures fresh(c) && !c.Valid()
    ensures 1 in c.nodes && c.nodes[1].refCount == 1 && c.nodes[1].children == []
    ensures Held(c.handles, 1) == 2 && FreesNow(Lowered(c.nodes[1]))
  {
    hide Accounted;
    c := new Cache(0);
    c.Create(1, "f", 0);
    c.Duplicate(1);
    c.Detach(1);
    c.Detach(1);
  }

  datatype Op =
    | MakeNode(node: nat, name: string, parent: nat)
    | Share(node: nat)
    | Lookup(parent: nat, name: string)
    | Forget(node: nat)
    | MountOn(node: nat)
    | GiveUp(node: nat)

  /** The removal of a node that is not on its parent's list. */
  predicate Careless(nodes: Nodes, root: nat, op: Op) {
    op.Forget? && op.node in nodes && Linked(nodes, root, op.node) == 0
  }

  /** Entry i of the chain is kept by nothing but the entry before it (the first one by the handle given up). */
  ghost predicate DropsAt(nodes: Nodes, handles: Handles, n: nat, d: seq<nat>, i: nat) {
    i < |d| ==> Drops(nodes, handles, n, d[..i], d[i])
  }

  /** After the chain d has been dropped, x is the next node up and nothing else keeps it. */
  ghost predicate Drops(nodes: Nodes, handles: Handles, n: nat, d: seq<nat>, x: nat) {
    && x in nodes
    && if d == [] then x == n && Held(handles, x) == 1 && nodes[x].children == []
       else
         var below := d[|d| - 1];
         below in nodes && nodes[below].parent == Some(x) && Held(handles, x) == 0 && nodes[x].children == [below]
  }

  /** The node that the chain d ends at, if any. */
  ghost function Stop(nodes: Nodes, n: nat, d: seq<nat>): Option<nat> {
    if d == [] then Some(n) else if d[|d| - 1] in nodes then nodes[d[|d| - 1]].parent else None
  }

  ghost predicate MaximalChain(nodes: Nodes, handles: Handles, n: nat, d: seq<nat>) {
    && (forall i: nat :: DropsAt(nodes, handles, n, d, i))
    && (Stop(nodes, n, d).Some? ==> !Drops(nodes, handles, n, d, Stop(nodes, n, d).value))
  }

  /** Only the handle about to be given up keeps the node. */
  ghost predicate Unused(nodes: Nodes, handles: Handles, n: nat) {
    n in nodes && Held(handles, n) == 1 && nodes[n].children == []
  }

  function Zeroed(handles: Handles, n: nat): Handles {
    handles[n := 0]
  }

  /** How the count after giving up a handle tells what else keeps the node. */
  lemma ReleaseCount(nodes: Nodes, handles: Handles, root: nat, n: nat)
    requires Accounted(nodes, handles, root) && n in nodes && Held(handles, n) > Pins(nodes, root, n)
    ensures var nodes', handles' := nodes[n := nodes[n].(refCount := nodes[n].refCount - 1)],
      handles[n := Held(handles, n) - 1];
      Accounted(nodes', handles', root)
    ensures var r := nodes[n].refCount - 1;
      && !(r == 0 && nodes[n].parent != None)
      && (r < 2 && !(r == 1 && nodes[n].parent == None) <==> Unused(nodes, handles, n))
  {
    assert Counted(nodes, handles, root, n);
    HandleChanged(nodes, handles, root, n, Held(handles, n) - 1,
                  nodes[n := nodes[n].(refCount := nodes[n].refCount - 1)], handles[n := Held(handles, n) - 1]);
  }

  lemma ReleaseFree(nodes: Nodes, handles: Handles, root: nat, n: nat, nodes1: Nodes, handles1: Handles)
    requires Accounted(nodes, handles, root) && Unused(nodes, handles, n) && Held(handles, n) > Pins(nodes, root, n)
    requires nodes1 == nodes[n := nodes[n].(refCount := nodes[n].refCount - 1)]
    requires handles1 == handles[n := Held(handles, n) - 1]
    requires Accounted(nodes1, handles1, root)
    ensures n != root && Accounted(Freed(nodes, n), Passed(nodes, Zeroed(handles, n), n), root)
    ensures !nodes[n].mounted && nodes1[n].refCount == Linked(nodes, root, n)
    ensures nodes[n].parent.Some? ==> nodes[n].parent.value in nodes && nodes[n].parent.value != n
    ensures Freed(nodes1, n) == Freed(nodes, n)
  {
    assert Counted(nodes, handles, root, n) && NodeOk(nodes, root, n);
    FreedAccounted(nodes1, handles1, root, n);
    assert Freed(nodes1, n) == Freed(nodes, n);
    assert Passed(nodes1, handles1, n) == Passed(nodes, Zeroed(handles, n), n);
  }

  // ---- Climbing up -------------------------------------------------------------------------------------

  /** The chain d has been dropped and a handle on its parent, cur, is about to be given up. */
  ghost predicate Climbing(nodes: Nodes, handles: Handles, nodes1: Nodes, handles1: Handles, root: nat, n: nat,
                           d: seq<nat>, cur: nat) {
    && cur in nodes1 && cur in nodes && Held(handles1, cur) > Pins(nodes1, root, cur)
    && Stop(nodes, n, d) == Some(cur) && (forall i: nat :: DropsAt(nodes, handles, n, d, i))
    && nodes1.Keys == nodes.Keys - (set x | x in d)
    && (forall x :: x in nodes1 && x != cur ==> nodes1[x] == nodes[x] && Held(handles1, x) == Held(handles, x))
    && if d == [] then nodes1 == nodes && handles1 == handles
       else
         var below := d[|d| - 1];
         && below in nodes[cur].children && NoDup(nodes[cur].children)
         && nodes1[cur] == nodes[cur].(children := Remove(nodes[cur].children, below))
         && Held(handles1, cur) == Held(handles, cur) + 1
  }

  ghost predicate Finished(nodes: Nodes, handles: Handles, nodes1: Nodes, handles1: Handles, n: nat, d: seq<nat>) {
    && MaximalChain(nodes, handles, n, d) && nodes1.Keys == nodes.Keys - (set x | x in d)
    && (forall x :: x in nodes1 && Some(x) != Stop(nodes, n, d) ==>
         nodes1[x] == nodes[x] && Held(handles1, x) == Held(handles, x))
    && var stop := Stop(nodes, n, d);
      stop.Some? ==>
        && stop.value in nodes1 && stop.value in nodes
        && nodes1[stop.value].refCount == nodes[stop.value].refCount - 1
        && Held(handles1, stop.value) == Held(handles, stop.value) - (if d == [] then 1 else 0)
        && (forall c :: c in nodes1[stop.value].children <==>
             c in nodes[stop.value].children && (d == [] || c != d[|d| - 1]))
  }

  lemma RootStays(nodes: Nodes, handles: Handles, root: nat)
    requires Accounted(nodes, handles, root)
    ensures root in nodes
  {
  }

  lemma PutStart(nodes: Nodes, handles: Handles, root: nat, n: nat)
    requires n in nodes && Held(handles, n) > Pins(nodes, root, n)
    ensures Climbing(nodes, handles, nodes, handles, root, n, [], n)
  {
  }

  lemma RemoveOnly(l: seq<nat>, x: nat)
    requires NoDup(l) && x in l
    ensures Remove(l, x) == [] <==> l == [x]
  {
    RemoveLength(l, x);
    if l == [x] { assert Remove([x], x) == []; }
  }

  /** The node reached is unused in the current state exactly when nothing else kept it in the first one. */
  lemma ClimbFacts(nodes: Nodes, handles: Handles, nodes1: Nodes, handles1: Handles, root: nat, n: nat, d: seq<nat>,
                   cur: nat)
    requires Climbing(nodes, handles, nodes1, handles1, root, n, d, cur)
    ensures cur in nodes1 && Held(handles1, cur) > Pins(nodes1, root, cur)
    ensures Unused(nodes1, handles1, cur) <==> Drops(nodes, handles, n, d, cur)
  {
    if d != [] {
      var below := d[|d| - 1];
      RemoveOnly(nodes[cur].children, below);
    }
  }

  lemma ClimbEnd(nodes: Nodes, handles: Handles, nodes1: Nodes, handles1: Handles, root: nat, n: nat, d: seq<nat>,
                 cur: nat)
    requires Climbing(nodes, handles, nodes1, handles1, root, n, d, cur) && !Unused(nodes1, handles1, cur)
    requires Held(handles1, cur) > 0
    ensures cur in nodes1
    ensures Finished(nodes, handles, nodes1[cur := nodes1[cur].(refCount := nodes1[cur].refCount - 1)],
                     handles1[cur := Held(handles1, cur) - 1], n, d)
  {
    ClimbFacts(nodes, handles, nodes1, handles1, root, n, d, cur);
    hide Drops, DropsAt, Unused;
    if d != [] {
      RemoveNoDup(nodes[cur].children, d[|d| - 1]);
    }
  }

  lemma DropsAppend(nodes: Nodes, handles: Handles, n: nat, d: seq<nat>, x: nat)
    requires (forall i: nat :: DropsAt(nodes, handles, n, d, i)) && Drops(nodes, handles, n, d, x)
    ensures forall i: nat :: DropsAt(nodes, handles, n, d + [x], i)
  {
    forall i: nat ensures DropsAt(nodes, handles, n, d + [x], i) {
      assert DropsAt(nodes, handles, n, d, i);
      if i < |d| {
        assert (d + [x])[..i] == d[..i];
      } else if i == |d| {
        assert (d + [x])[..i] == d;
      }
    }
  }

  lemma FreedKeys(nodes: Nodes, n: nat)
    requires n in nodes
    ensures Freed(nodes, n).Keys == nodes.Keys - {n}
  {
  }

  /** What the accounting says about the parent of an unused node. */
  lemma ParentFacts(nodes: Nodes, handles: Handles, root: nat, n: nat)
    requires Accounted(nodes, handles, root) && Unused(nodes, handles, n) && Held(handles, n) > Pins(nodes, root, n)
    ensures n != root
    ensures nodes[n].parent.Some? ==>
      var p := nodes[n].parent.value;
      p != n && p in nodes && n in nodes[p].children && NoDup(nodes[p].children) &&
        Held(handles, p) >= Pins(nodes, root, p)
  {
    if nodes[n].parent.Some? {
      var p := nodes[n].parent.value;
      assert NodeOk(nodes, root, n) && NodeOk(nodes, root, p) && Counted(nodes, handles, root, p);
      assert n != root ==> ChildOf(nodes, root, n, p) && HasChild(nodes, p, n);
    }
  }

  lemma ClimbParent(nodes: Nodes, handles: Handles, nodes1: Nodes, handles1: Handles, root: nat, n: nat, d: seq<nat>,
                    cur: nat, p: nat)
    requires Climbing(nodes, handles, nodes1, handles1, root, n, d, cur) && Drops(nodes, handles, n, d, cur)
    requires nodes1[cur].parent == Some(p) && p != cur && p in nodes1 && cur in nodes1[p].children
    requires NoDup(nodes1[p].children)
    requires Held(handles1, p) >= Pins(nodes1, root, p)
    ensures Climbing(nodes, handles, Freed(nodes1, cur), Passed(nodes1, Zeroed(handles1, cur), cur), root, n,
      d + [cur], p)
  {
    DropsAppend(nodes, handles, n, d, cur);
    FreedKeys(nodes1, cur);
    var d' := d + [cur];
    assert (set x | x in d') == (set x | x in d) + {cur};
    assert nodes1[cur].parent == nodes[cur].parent && Stop(nodes, n, d') == Some(p);
    hide DropsAt, Drops, NoDup, Remove;
    assert nodes1[p] == nodes[p] && Held(handles1, p) == Held(handles, p);
  }

  lemma ClimbTop(nodes: Nodes, handles: Handles, nodes1: Nodes, handles1: Handles, root: nat, n: nat, d: seq<nat>,
                 cur: nat)
    requires Climbing(nodes, handles, nodes1, handles1, root, n, d, cur) && Drops(nodes, handles, n, d, cur)
    requires nodes1[cur].parent == None
    ensures Finished(nodes, handles, Freed(nodes1, cur), Passed(nodes1, Zeroed(handles1, cur), cur), n, d + [cur])
  {
    DropsAppend(nodes, handles, n, d, cur);
    FreedKeys(nodes1, cur);
    var d' := d + [cur];
    assert (set x | x in d') == (set x | x in d) + {cur};
    assert nodes1[cur].parent == nodes[cur].parent && Stop(nodes, n, d') == None;
    hide DropsAt, Drops, NoDup, Remove;
  }

  lemma ClimbUp(nodes: Nodes, handles: Handles, nodes1: Nodes, handles1: Handles, root: nat, n: nat, d: seq<nat>,
                cur: nat)
    requires Climbing(nodes, handles, nodes1, handles1, root, n, d, cur) && Accounted(nodes1, handles1, root)
    requires Unused(nodes1, handles1, cur)
    ensures cur in nodes1
    ensures var nodes2, handles2 := Freed(nodes1, cur), Passed(nodes1, Zeroed(handles1, cur), cur);
      && nodes2.Keys < nodes1.Keys
      && match nodes1[cur].parent
         case None => Finished(nodes, handles, nodes2, handles2, n, d + [cur])
         case Some(p) => Climbing(nodes, handles, nodes2, handles2, root, n, d + [cur], p)
  {
    ClimbFacts(nodes, handles, nodes1, handles1, root, n, d, cur);
    ParentFacts(nodes1, handles1, root, cur);
    FreedKeys(nodes1, cur);
    hide Climbing, Finished, Accounted, Drops, Freed, Passed, NoDup;
    if nodes1[cur].parent.Some? {
      ClimbParent(nodes, handles, nodes1, handles1, root, n, d, cur, nodes1[cur].parent.value);
    } else {
      ClimbTop(nodes, handles, nodes1, handles1, root, n, d, cur);
    }
  }
}
