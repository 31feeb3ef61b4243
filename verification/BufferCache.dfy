/**
 * The buffer cache against the disk.  `truth` is the disk as it would be if every change had gone
 * to it directly, at once.
 */
module BufferCache {
  import opened Arith

  const MAX_SIZE: nat := 1024

  /** A block is named by its number, its device and its size; it starts at byte number * size. */
  datatype Key = Key(block: nat, dev: nat, size: nat)

  /** Bytes by device and address. */
  type Disk = (nat, nat) -> int

  /** `leaving` counts the clients that have unlocked the buffer and still have to give up their reference. */
  datatype Buf = Buf(key: Key, valid: bool, dirty: bool, refCount: nat, leaving: nat, locked: bool, data: seq<int>)

  /** The cache list, most recently released first. */
  type Cache = seq<Buf>

  function Start(k: Key): nat {
    k.block * k.size
  }

  ghost predicate Covers(k: Key, dev: nat, a: nat) {
    dev == k.dev && Start(k) <= a < Start(k) + k.size
  }

  function Slice(d: Disk, k: Key): (r: seq<int>)
    ensures |r| == k.size && forall i :: 0 <= i < k.size ==> r[i] == d(k.dev, Start(k) + i)
  {
    seq(k.size, (i: nat) => d(k.dev, Start(k) + i))
  }

  function Store(d: Disk, k: Key, data: seq<int>): Disk {
    (dev: nat, a: nat) => if dev == k.dev && Start(k) <= a < Start(k) + |data| then data[a - Start(k)] else d(dev, a)
  }

  // ---- Which requests are compatible -------------------------------------------------------------------

  /** Two blocks share a byte. */
  ghost predicate Overlap(k: Key, k': Key) {
    exists dev, a :: Covers(k, dev, a) && Covers(k', dev, a)
  }

  lemma StoreElsewhere(d: Disk, k: Key, data: seq<int>, k': Key)
    requires |data| == k.size && !Overlap(k, k')
    ensures Slice(Store(d, k, data), k') == Slice(d, k')
  {
    hide Start;
    var d' := Store(d, k, data);
    forall i | 0 <= i < k'.size ensures Slice(d', k')[i] == Slice(d, k')[i] {
      assert Covers(k', k'.dev, Start(k') + i);
      assert !Covers(k, k'.dev, Start(k') + i);
    }
  }

  lemma StoreHere(d: Disk, k: Key, data: seq<int>)
    requires |data| == k.size
    ensures Slice(Store(d, k, data), k) == data
  {
    hide Start;
  }

  /** Blocks of one size on one device are the same block or share no byte. */
  lemma OneSizeApart(k: Key, k': Key)
    requires k != k' && k.dev == k'.dev ==> k.size == k'.size
    ensures k == k' || !Overlap(k, k')
  {
    if k != k' && Overlap(k, k') {
      var dev, a :| Covers(k, dev, a) && Covers(k', dev, a);
      MulNext(k.block, k.size);
      MulNext(k'.block, k.size);
      if k.block < k'.block {
        MulMono(k.block + 1, k'.block, k.size);
      } else {
        MulMono(k'.block + 1, k.block, k.size);
      }
      assert false;
    }
  }

  // ---- The operations -------------------------------------------------------------------------------------

  /** `stamp` gives the time a block's buffer was last returned to the cache. */
  datatype State = State(cache: Cache, disk: Disk, truth: Disk, stamp: map<Key, nat>, clock: nat)

  /** Where the block is cached; the length of the list if it is not. */
  function Find(c: Cache, k: Key): (i: nat)
    ensures i <= |c| && (i < |c| ==> c[i].key == k) && forall j :: 0 <= j < i ==> c[j].key != k
  {
    if c == [] then 0 else if c[0].key == k then 0
    else
      var i := Find(c[1..], k);
      assert forall j :: 0 < j < i + 1 ==> c[j] == c[1..][j - 1];
      i + 1
  }

  /** The last buffer of the list that nobody references; the length of the list if there is none. */
  function LastFree(c: Cache): (i: nat)
    ensures i <= |c| && (i < |c| ==> c[i].refCount == 0 && forall j :: i < j < |c| ==> c[j].refCount != 0)
    ensures i == |c| ==> forall j :: 0 <= j < |c| ==> c[j].refCount != 0
  {
    if c == [] then 0
    else
      var last := |c| - 1;
      if c[last].refCount == 0 then last
      else
        var i := LastFree(c[..last]);
        assert forall j :: 0 <= j < last ==> c[..last][j] == c[j];
        if i == last then |c| else i
  }

  function Empty(k: Key): Buf {
    Buf(k, false, false, 1, 0, false, seq(k.size, i => 0))
  }

  /** Reference the buffer of a block, giving it a new or a recycled buffer if it has none. */
  function Got(c: Cache, k: Key): Option<Cache> {
    var i := Find(c, k);
    if i < |c| then Some(c[i := c[i].(refCount := c[i].refCount + 1)])
    else if |c| < MAX_SIZE then Some([Empty(k)] + c)
    else
      var j := LastFree(c);
      if j < |c| then Some(c[j := Empty(k)]) else None
  }

  /** Lock a referenced buffer and fill it if it has not been. */
  function Entered(s: State, i: nat): State
    requires i < |s.cache|
  {
    var b := s.cache[i];
    var data := if b.valid then b.data else Slice(s.disk, b.key);
    s.(cache := s.cache[i := b.(locked := true, valid := true, data := data)])
  }

  /** The holder of a buffer changes its contents and marks it dirty. */
  function Modified(s: State, i: nat, data: seq<int>): State
    requires i < |s.cache|
  {
    var b := s.cache[i];
    s.(cache := s.cache[i := b.(data := data, dirty := true)], truth := Store(s.truth, b.key, data))
  }

  /** A dirty buffer goes to the disk. */
  function Written(s: State, i: nat): State
    requires i < |s.cache|
  {
    var b := s.cache[i];
    if !b.dirty then s
    else s.(cache := s.cache[i := b.(dirty := false, valid := true)], disk := Store(s.disk, b.key, b.data))
  }

  /** The holder of a buffer writes it if it is dirty and unlocks it. */
  function Left(s: State, i: nat): State
    requires i < |s.cache|
  {
    var s1 := Written(s, i);
    s1.(cache := s1.cache[i := s1.cache[i].(locked := false, leaving := s1.cache[i].leaving + 1)])
  }

  /** A client that has unlocked the buffer gives up its reference; the last one moves it to the front of the list. */
  function Dropped(s: State, i: nat): State
    requires i < |s.cache| && s.cache[i].refCount > 0 && s.cache[i].leaving > 0
  {
    var b := s.cache[i].(refCount := s.cache[i].refCount - 1, leaving := s.cache[i].leaving - 1);
    if b.refCount == 0 then
      s.(cache := [b] + s.cache[..i] + s.cache[i + 1..], stamp := s.stamp[b.key := s.clock], clock := s.clock + 1)
    else s.(cache := s.cache[i := b])
  }

  // ---- What holds between steps ------------------------------------------------------------------------------

  ghost predicate BufOk(b: Buf) {
    && |b.data| == b.key.size && (b.dirty ==> b.locked) && (b.locked ==> b.valid)
    && b.leaving + (if b.locked then 1 else 0) <= b.refCount
  }

  /** At most one buffer per block, and no more than the limit. */
  ghost predicate Sound(c: Cache) {
    && |c| <= MAX_SIZE && (forall i :: 0 <= i < |c| ==> BufOk(c[i]))
    && (forall i, j :: 0 <= i < j < |c| ==> c[i].key != c[j].key)
  }

  ghost predicate CoherentAt(s: State, b: Buf) {
    b.valid ==> b.data == Slice(s.truth, b.key) && (!b.dirty ==> b.data == Slice(s.disk, b.key))
  }

  ghost predicate DirtyAt(c: Cache, dev: nat, a: nat) {
    exists i :: 0 <= i < |c| && c[i].dirty && Covers(c[i].key, dev, a)
  }

  /** Valid buffers hold what was last written; the disk is up to date except under dirty buffers. */
  ghost predicate Coherent(s: State) {
    && (forall i :: 0 <= i < |s.cache| ==> CoherentAt(s, s.cache[i]))
    && (forall dev, a :: s.truth(dev, a) == s.disk(dev, a) || DirtyAt(s.cache, dev, a))
  }

  /** The cached blocks share no bytes. */
  ghost predicate Apart(c: Cache) {
    forall i, j :: 0 <= i < j < |c| ==> !Overlap(c[i].key, c[j].key)
  }

  // ---- One buffer per block --------------------------------------------------------------------------------

  /** Changing a buffer in place without changing its key. */
  lemma SoundUpdate(c: Cache, i: nat, b: Buf)
    requires Sound(c) && i < |c| && b.key == c[i].key && BufOk(b)
    ensures Sound(c[i := b])
  {
    hide BufOk;
  }

  lemma GotSound(c: Cache, k: Key)
    requires Sound(c)
    ensures Got(c, k).Some? ==> Sound(Got(c, k).value)
  {
    var i := Find(c, k);
    hide Find, LastFree;
    if i < |c| {
      SoundUpdate(c, i, c[i].(refCount := c[i].refCount + 1));
    } else if |c| < MAX_SIZE {
      var c' := [Empty(k)] + c;
      assert forall x :: 0 < x < |c'| ==> c'[x] == c[x - 1];
    } else if LastFree(c) < |c| {
      assert BufOk(Empty(k));
      hide BufOk;
    }
  }

  lemma LeftSound(s: State, i: nat)
    requires Sound(s.cache) && i < |s.cache| && s.cache[i].locked
    ensures Sound(Left(s, i).cache)
  {
    assert BufOk(s.cache[i]);
    SoundUpdate(s.cache, i, Left(s, i).cache[i]);
    assert Left(s, i).cache == s.cache[i := Left(s, i).cache[i]];
  }

  lemma DroppedSound(s: State, i: nat)
    requires Sound(s.cache) && i < |s.cache| && s.cache[i].leaving > 0
    ensures s.cache[i].refCount > 0 && Sound(Dropped(s, i).cache)
  {
    var c := s.cache;
    assert BufOk(c[i]);
    var b := c[i].(refCount := c[i].refCount - 1, leaving := c[i].leaving - 1);
    assert BufOk(b);
    if b.refCount == 0 {
      var r := [b] + c[..i] + c[i + 1..];
      hide BufOk;
      forall x | 0 <= x < |r| ensures BufOk(r[x]) { MovedIndex(c, i, b, x); }
      forall x, y | 0 <= x < y < |r| ensures r[x].key != r[y].key {
        MovedIndex(c, i, b, x);
        MovedIndex(c, i, b, y);
      }
    } else {
      SoundUpdate(c, i, b);
    }
  }

  lemma MovedIndex(c: Cache, i: nat, b: Buf, x: nat)
    requires i < |c| && x < |c|
    ensures ([b] + c[..i] + c[i + 1..])[x] == if x == 0 then b else if x <= i then c[x - 1] else c[x]
  {
  }

  // ---- Coherence ---------------------------------------------------------------------------------------------

  lemma SliceSame(d: Disk, d': Disk, k: Key)
    requires forall a: nat :: Covers(k, k.dev, a) ==> d(k.dev, a) == d'(k.dev, a)
    ensures Slice(d, k) == Slice(d', k)
  {
    hide Start;
    forall i | 0 <= i < k.size ensures Slice(d, k)[i] == Slice(d', k)[i] {
      assert Covers(k, k.dev, Start(k) + i);
    }
  }

  /** A block whose buffer is not dirty reads the same from the disk as from the truth. */
  lemma DiskIsTruth(s: State, i: nat)
    requires Sound(s.cache) && Coherent(s) && Apart(s.cache) && i < |s.cache| && !s.cache[i].dirty
    ensures Slice(s.disk, s.cache[i].key) == Slice(s.truth, s.cache[i].key)
  {
    var k := s.cache[i].key;
    forall a: nat | Covers(k, k.dev, a) ensures s.disk(k.dev, a) == s.truth(k.dev, a) {
      if DirtyAt(s.cache, k.dev, a) {
        var j :| 0 <= j < |s.cache| && s.cache[j].dirty && Covers(s.cache[j].key, k.dev, a);
        assert Overlap(s.cache[i].key, s.cache[j].key) && Overlap(s.cache[j].key, s.cache[i].key);
        assert false;
      }
    }
    SliceSame(s.disk, s.truth, k);
  }

  /** Coherence only looks at keys, contents and flags: c' holds the same in any order. */
  ghost predicate SameContents(c: Cache, c': Cache) {
    && (forall x :: 0 <= x < |c'| ==> exists y :: 0 <= y < |c| && Alike(c[y], c'[x]))
    && (forall y :: 0 <= y < |c| ==> exists x :: 0 <= x < |c'| && Alike(c[y], c'[x]))
  }

  ghost predicate Alike(b: Buf, b': Buf) {
    b.key == b'.key && b.valid == b'.valid && b.dirty == b'.dirty && b.data == b'.data
  }

  lemma ContentsDirty(c: Cache, c': Cache, dev: nat, a: nat)
    requires SameContents(c, c') && DirtyAt(c, dev, a)
    ensures DirtyAt(c', dev, a)
  {
    hide Covers;
    var y :| 0 <= y < |c| && c[y].dirty && Covers(c[y].key, dev, a);
    var x :| 0 <= x < |c'| && Alike(c[y], c'[x]);
  }

  lemma ContentsCoherent(s: State, s': State)
    requires Coherent(s) && SameContents(s.cache, s'.cache) && s'.disk == s.disk && s'.truth == s.truth
    ensures Coherent(s')
  {
    hide DirtyAt, Slice;
    forall x | 0 <= x < |s'.cache| ensures CoherentAt(s', s'.cache[x]) {
      var y :| 0 <= y < |s.cache| && Alike(s.cache[y], s'.cache[x]);
      assert CoherentAt(s, s.cache[y]);
    }
    hide CoherentAt, Alike, SameContents;
    forall dev: nat, a: nat ensures s'.truth(dev, a) == s'.disk(dev, a) || DirtyAt(s'.cache, dev, a) {
      if DirtyAt(s.cache, dev, a) { ContentsDirty(s.cache, s'.cache, dev, a); }
    }
  }

  lemma AlikeSelf(b: Buf)
    ensures Alike(b, b)
  {
  }

  lemma InPlaceContents(c: Cache, i: nat, b: Buf)
    requires i < |c| && Alike(c[i], b)
    ensures SameContents(c, c[i := b])
  {
    hide Alike;
    var c' := c[i := b];
    forall x | 0 <= x < |c| ensures Alike(c[x], c'[x]) { if x != i { AlikeSelf(c[x]); } }
  }

  lemma MovedContents(c: Cache, i: nat, b: Buf)
    requires i < |c| && Alike(c[i], b)
    ensures SameContents(c, [b] + c[..i] + c[i + 1..])
  {
    var c' := [b] + c[..i] + c[i + 1..];
    forall x | 0 <= x < |c'| ensures exists y :: 0 <= y < |c| && Alike(c[y], c'[x]) {
      MovedIndex(c, i, b, x);
      assert Alike(c[if x == 0 then i else if x <= i then x - 1 else x], c'[x]);
    }
    forall y | 0 <= y < |c| ensures exists x :: 0 <= x < |c'| && Alike(c[y], c'[x]) {
      var x := if y == i then 0 else if y < i then y + 1 else y;
      MovedIndex(c, i, b, x);
      assert Alike(c[y], c'[x]);
    }
  }

  lemma EnteredCoherent(s: State, i: nat)
    requires Sound(s.cache) && Coherent(s) && Apart(s.cache) && i < |s.cache|
    requires s.cache[i].refCount > s.cache[i].leaving
    ensures Sound(Entered(s, i).cache) && Coherent(Entered(s, i))
    ensures Entered(s, i).cache[i].data == Slice(s.truth, s.cache[i].key)
  {
    var b, s' := s.cache[i], Entered(s, i);
    assert CoherentAt(s, b) && BufOk(b);
    if !b.valid { DiskIsTruth(s, i); }
    SoundUpdate(s.cache, i, s'.cache[i]);
    hide Sound, Apart, BufOk;
    forall x | 0 <= x < |s'.cache| ensures CoherentAt(s', s'.cache[x]) { assert CoherentAt(s, s.cache[x]); }
    forall dev: nat, a: nat ensures s'.truth(dev, a) == s'.disk(dev, a) || DirtyAt(s'.cache, dev, a) {
      if DirtyAt(s.cache, dev, a) {
        var y :| 0 <= y < |s.cache| && s.cache[y].dirty && Covers(s.cache[y].key, dev, a);
        assert s'.cache[y].dirty;
      }
    }
  }

  lemma ModifiedCoherent(s: State, i: nat, data: seq<int>)
    requires Sound(s.cache) && Coherent(s) && Apart(s.cache) && i < |s.cache| && s.cache[i].locked
    requires |data| == s.cache[i].key.size
    ensures Sound(Modified(s, i, data).cache) && Coherent(Modified(s, i, data))
  {
    var b, s' := s.cache[i], Modified(s, i, data);
    assert BufOk(b);
    SoundUpdate(s.cache, i, s'.cache[i]);
    StoreHere(s.truth, b.key, data);
    hide Sound, BufOk;
    forall x | 0 <= x < |s'.cache| ensures CoherentAt(s', s'.cache[x]) {
      assert CoherentAt(s, s.cache[x]);
      if x != i {
        OverlapSym(b.key, s.cache[x].key);
        StoreElsewhere(s.truth, b.key, data, s.cache[x].key);
      }
    }
    forall dev: nat, a: nat ensures s'.truth(dev, a) == s'.disk(dev, a) || DirtyAt(s'.cache, dev, a) {
      if Covers(b.key, dev, a) {
        assert s'.cache[i].dirty;
      } else if DirtyAt(s.cache, dev, a) {
        var y :| 0 <= y < |s.cache| && s.cache[y].dirty && Covers(s.cache[y].key, dev, a);
        assert s'.cache[y].dirty;
      }
    }
  }

  lemma OverlapSym(k: Key, k': Key)
    ensures Overlap(k, k') <==> Overlap(k', k)
  {
  }

  lemma WrittenCoherent(s: State, i: nat)
    requires Sound(s.cache) && Coherent(s) && Apart(s.cache) && i < |s.cache| && s.cache[i].locked
    ensures Sound(Written(s, i).cache) && Coherent(Written(s, i)) && !Written(s, i).cache[i].dirty
  {
    var b, s' := s.cache[i], Written(s, i);
    assert BufOk(b) && CoherentAt(s, b);
    if b.dirty {
      SoundUpdate(s.cache, i, s'.cache[i]);
      StoreHere(s.disk, b.key, b.data);
      hide Sound, BufOk;
      forall x | 0 <= x < |s'.cache| ensures CoherentAt(s', s'.cache[x]) {
        assert CoherentAt(s, s.cache[x]);
        if x != i {
          OverlapSym(b.key, s.cache[x].key);
          StoreElsewhere(s.disk, b.key, b.data, s.cache[x].key);
        }
      }
      forall dev: nat, a: nat ensures s'.truth(dev, a) == s'.disk(dev, a) || DirtyAt(s'.cache, dev, a) {
        if Covers(b.key, dev, a) {
          assert b.data[a - Start(b.key)] == Slice(s.truth, b.key)[a - Start(b.key)];
        } else if DirtyAt(s.cache, dev, a) {
          var y :| 0 <= y < |s.cache| && s.cache[y].dirty && Covers(s.cache[y].key, dev, a);
          assert y != i && s'.cache[y].dirty;
        }
      }
    }
  }

  lemma LeftCoherent(s: State, i: nat)
    requires Sound(s.cache) && Coherent(s) && Apart(s.cache) && i < |s.cache| && s.cache[i].locked
    ensures Sound(Left(s, i).cache) && Coherent(Left(s, i)) && !Left(s, i).cache[i].dirty
  {
    LeftSound(s, i);
    WrittenCoherent(s, i);
    var s1 := Written(s, i);
    hide Written, Sound, Coherent, Apart;
    InPlaceContents(s1.cache, i, Left(s, i).cache[i]);
    ContentsCoherent(s1, Left(s, i));
  }

  lemma DroppedCoherent(s: State, i: nat)
    requires Sound(s.cache) && Coherent(s) && i < |s.cache| && s.cache[i].leaving > 0
    ensures s.cache[i].refCount > 0 && Sound(Dropped(s, i).cache) && Coherent(Dropped(s, i))
  {
    DroppedSound(s, i);
    hide Sound, Coherent;
    var b := s.cache[i].(refCount := s.cache[i].refCount - 1, leaving := s.cache[i].leaving - 1);
    if b.refCount == 0 {
      MovedContents(s.cache, i, b);
    } else {
      InPlaceContents(s.cache, i, b);
    }
    ContentsCoherent(s, Dropped(s, i));
  }

  lemma GotCoherent(s: State, k: Key)
    requires Sound(s.cache) && Coherent(s) && Got(s.cache, k).Some?
    ensures Sound(Got(s.cache, k).value) && Coherent(s.(cache := Got(s.cache, k).value))
  {
    GotSound(s.cache, k);
    var c' := Got(s.cache, k).value;
    var i := Find(s.cache, k);
    hide Coherent;
    if i < |s.cache| {
      InPlaceContents(s.cache, i, c'[i]);
      ContentsCoherent(s, s.(cache := c'));
    } else if |s.cache| < MAX_SIZE {
      NewCoherent(s, k);
    } else {
      var j := LastFree(s.cache);
      assert BufOk(s.cache[j]) && !s.cache[j].dirty;
      RecycledCoherent(s, j, k);
    }
  }

  lemma NewCoherent(s: State, k: Key)
    requires Coherent(s)
    ensures Coherent(s.(cache := [Empty(k)] + s.cache))
  {
    hide Covers, Slice;
    var c' := [Empty(k)] + s.cache;
    var s' := s.(cache := c');
    forall x | 0 <= x < |c'| ensures CoherentAt(s', c'[x]) { assert x > 0 ==> CoherentAt(s, s.cache[x - 1]); }
    forall dev: nat, a: nat ensures s'.truth(dev, a) == s'.disk(dev, a) || DirtyAt(c', dev, a) {
      if DirtyAt(s.cache, dev, a) {
        var y :| 0 <= y < |s.cache| && s.cache[y].dirty && Covers(s.cache[y].key, dev, a);
        assert c'[y + 1] == s.cache[y];
      }
    }
  }

  lemma RecycledCoherent(s: State, j: nat, k: Key)
    requires Coherent(s) && j < |s.cache| && !s.cache[j].dirty
    ensures Coherent(s.(cache := s.cache[j := Empty(k)]))
  {
    hide Covers, Slice;
    var c' := s.cache[j := Empty(k)];
    var s' := s.(cache := c');
    forall x | 0 <= x < |c'| ensures CoherentAt(s', c'[x]) { assert CoherentAt(s, s.cache[x]); }
    forall dev: nat, a: nat ensures s'.truth(dev, a) == s'.disk(dev, a) || DirtyAt(c', dev, a) {
      if DirtyAt(s.cache, dev, a) {
        var y :| 0 <= y < |s.cache| && s.cache[y].dirty && Covers(s.cache[y].key, dev, a);
        assert c'[y] == s.cache[y];
      }
    }
  }

  // ---- Runs ------------------------------------------------------------------------------------------------

  datatype Op =
    | Get(key: Key)
    | Enter(key: Key)
    | Modify(key: Key, data: seq<int>)
    | Write(key: Key)
    | Leave(key: Key)
    | Drop(key: Key)

  /**
   * One step of one client; a step that is not possible, or would block, changes nothing, nor does
   * the write of a clean buffer, which panics.
   */
  function Step(s: State, op: Op): State {
    var i := Find(s.cache, op.key);
    match op
    case Get(k) => var r := Got(s.cache, k); if r.Some? then s.(cache := r.value) else s
    case Enter(_) =>
      if i < |s.cache| && s.cache[i].refCount > s.cache[i].leaving && !s.cache[i].locked then Entered(s, i) else s
    case Modify(k, data) => if i < |s.cache| && s.cache[i].locked && |data| == k.size then Modified(s, i, data) else s
    case Write(_) => if i < |s.cache| && s.cache[i].locked then Written(s, i) else s
    case Leave(_) => if i < |s.cache| && s.cache[i].locked then Left(s, i) else s
    case Drop(_) => if i < |s.cache| && s.cache[i].leaving > 0 && s.cache[i].refCount > 0 then Dropped(s, i) else s
  }

  function Run(s: State, ops: seq<Op>): State
    decreases |ops|
  {
    if ops == [] then s else Run(Step(s, ops[0]), ops[1..])
  }

  function Fresh(d: Disk): State {
    State([], d, d, map[], 0)
  }

  /** Whoever holds a buffer sees what direct accesses to the disk would show. */
  ghost predicate Transparent(s: State) {
    forall i :: 0 <= i < |s.cache| && s.cache[i].locked ==> s.cache[i].data == Slice(s.truth, s.cache[i].key)
  }

  ghost predicate NoOverlap(keys: iset<Key>) {
    forall k, k' :: k in keys && k' in keys && k != k' ==> !Overlap(k, k')
  }

  ghost predicate KeysIn(c: Cache, keys: iset<Key>) {
    forall i :: 0 <= i < |c| ==> c[i].key in keys
  }

  ghost predicate OpsIn(ops: seq<Op>, keys: iset<Key>) {
    forall i :: 0 <= i < |ops| ==> ops[i].key in keys
  }

  lemma KeysApart(c: Cache, keys: iset<Key>)
    requires Sound(c) && KeysIn(c, keys) && NoOverlap(keys)
    ensures Apart(c)
  {
    hide BufOk, Overlap;
  }

  lemma StepKeys(s: State, op: Op, keys: iset<Key>)
    requires KeysIn(s.cache, keys) && op.key in keys
    ensures KeysIn(Step(s, op).cache, keys)
  {
    var i := Find(s.cache, op.key);
    hide Find, LastFree;
    if op.Drop? && i < |s.cache| && s.cache[i].leaving > 0 && s.cache[i].refCount > 0 {
      var c := s.cache;
      forall x | 0 <= x < |Dropped(s, i).cache| ensures Dropped(s, i).cache[x].key in keys {
        MovedIndex(c, i, c[i].(refCount := c[i].refCount - 1, leaving := c[i].leaving - 1), x);
      }
    }
  }

  lemma StepCoherent(s: State, op: Op)
    requires Sound(s.cache) && Coherent(s) && Apart(s.cache)
    ensures Sound(Step(s, op).cache) && Coherent(Step(s, op))
  {
    hide Sound, Coherent, Apart, Find, Got, Entered, Modified, Written, Left, Dropped;
    var i := Find(s.cache, op.key);
    match op
    case Get(k) => if Got(s.cache, k).Some? { GotCoherent(s, k); }
    case Enter(_) => if i < |s.cache| && s.cache[i].refCount > s.cache[i].leaving { EnteredCoherent(s, i); }
    case Modify(k, data) =>
      if i < |s.cache| && s.cache[i].locked && |data| == k.size {
        assert s.cache[i].key == k by { assert i == Find(s.cache, k); }
        ModifiedCoherent(s, i, data);
      }
    case Write(_) => if i < |s.cache| && s.cache[i].locked { WrittenCoherent(s, i); }
    case Leave(_) => if i < |s.cache| && s.cache[i].locked { LeftCoherent(s, i); }
    case Drop(_) => if i < |s.cache| && s.cache[i].leaving > 0 { DroppedCoherent(s, i); }
  }

  /** Every run over blocks that share no bytes keeps one buffer per block and shows clients the true contents. */
  lemma {:induction false} RunCoherent(s: State, ops: seq<Op>, keys: iset<Key>)
    requires Sound(s.cache) && Coherent(s) && KeysIn(s.cache, keys) && OpsIn(ops, keys) && NoOverlap(keys)
    ensures Sound(Run(s, ops).cache) && Coherent(Run(s, ops)) && Transparent(Run(s, ops))
    decreases |ops|
  {
    if ops == [] {
      forall i | 0 <= i < |s.cache| && s.cache[i].locked ensures s.cache[i].data == Slice(s.truth, s.cache[i].key) {
        assert BufOk(s.cache[i]) && CoherentAt(s, s.cache[i]);
      }
    } else {
      KeysApart(s.cache, keys);
      StepCoherent(s, ops[0]);
      StepKeys(s, ops[0], keys);
      RunCoherent(Step(s, ops[0]), ops[1..], keys);
    }
  }

  // ---- References ------------------------------------------------------------------------------------------

  datatype Counts = Counts(held: nat, leaving: nat)

  /** The references to a block's buffer, and those of clients that have unlocked it; none if it has no buffer. */
  ghost function CountsOf(c: Cache, k: Key): Counts {
    var i := Find(c, k);
    if i < |c| then Counts(c[i].refCount, c[i].leaving) else Counts(0, 0)
  }

  ghost predicate CanGet(c: Cache, k: Key) {
    || |c| < MAX_SIZE
    || exists i :: 0 <= i < |c| && (c[i].key == k || c[i].refCount == 0)
  }

  ghost predicate CanLeave(c: Cache, k: Key) {
    exists i :: 0 <= i < |c| && c[i].key == k && c[i].locked
  }

  ghost predicate CanDrop(c: Cache, k: Key) {
    exists i :: 0 <= i < |c| && c[i].key == k && c[i].leaving > 0
  }

  /** How often in a run a reference to block k is taken, its buffer is unlocked, and a reference is given up. */
  ghost function Gets(s: State, ops: seq<Op>, k: Key): nat
    decreases |ops|
  {
    if ops == [] then 0
    else (if ops[0] == Get(k) && CanGet(s.cache, k) then 1 else 0) + Gets(Step(s, ops[0]), ops[1..], k)
  }

  ghost function Leaves(s: State, ops: seq<Op>, k: Key): nat
    decreases |ops|
  {
    if ops == [] then 0
    else (if ops[0] == Leave(k) && CanLeave(s.cache, k) then 1 else 0) + Leaves(Step(s, ops[0]), ops[1..], k)
  }

  ghost function Drops(s: State, ops: seq<Op>, k: Key): nat
    decreases |ops|
  {
    if ops == [] then 0
    else (if ops[0] == Drop(k) && CanDrop(s.cache, k) then 1 else 0) + Drops(Step(s, ops[0]), ops[1..], k)
  }

  lemma FoundAt(c: Cache, k: Key, i: nat)
    requires Sound(c) && i < |c| && c[i].key == k
    ensures Find(c, k) == i
  {
    hide BufOk;
  }

  lemma InPlaceCounts(c: Cache, i: nat, b: Buf, k: Key)
    requires Sound(c) && i < |c| && b.key == c[i].key && BufOk(b)
    ensures CountsOf(c[i := b], k) == if k == b.key then Counts(b.refCount, b.leaving) else CountsOf(c, k)
  {
    SoundUpdate(c, i, b);
    var c' := c[i := b];
    hide Sound, BufOk;
    var j := Find(c, k);
    if j < |c| {
      FoundAt(c', k, j);
      if k == b.key { FoundAt(c, k, i); }
    }
  }

  lemma MovedCounts(c: Cache, i: nat, b: Buf, k: Key)
    requires Sound(c) && i < |c| && b.key == c[i].key && Sound([b] + c[..i] + c[i + 1..])
    ensures CountsOf([b] + c[..i] + c[i + 1..], k) ==
            if k == b.key then Counts(b.refCount, b.leaving) else CountsOf(c, k)
  {
    hide Sound;
    var c' := [b] + c[..i] + c[i + 1..];
    var x := Find(c', k);
    if x < |c'| {
      MovedIndex(c, i, b, x);
      if x > 0 { FoundAt(c, k, if x <= i then x - 1 else x); }
    }
    if k == b.key {
      FoundAt(c', k, 0);
    } else if Find(c, k) < |c| {
      var j := Find(c, k);
      MovedIndex(c, i, b, if j < i then j + 1 else j);
      FoundAt(c', k, if j < i then j + 1 else j);
    }
  }

  /** Getting a buffer adds one reference to its block and takes none from another. */
  lemma GotCounts(c: Cache, k: Key, k': Key)
    requires Sound(c)
    ensures Got(c, k).Some? <==> CanGet(c, k)
    ensures Got(c, k).Some? ==>
      var n := CountsOf(c, k');
      CountsOf(Got(c, k).value, k') == if k' == k then Counts(n.held + 1, n.leaving) else n
  {
    GotSound(c, k);
    var i := Find(c, k);
    if i < |c| {
      assert BufOk(c[i]);
      InPlaceCounts(c, i, c[i].(refCount := c[i].refCount + 1), k');
    } else if |c| < MAX_SIZE {
      PushedCounts(c, k, k');
    } else if LastFree(c) < |c| {
      ReplacedCounts(c, LastFree(c), k, k');
    }
  }

  lemma PushedCounts(c: Cache, k: Key, k': Key)
    requires Find(c, k) == |c| && Sound(c) && Sound([Empty(k)] + c)
    ensures CountsOf([Empty(k)] + c, k') == if k' == k then Counts(1, 0) else CountsOf(c, k')
  {
    hide Sound;
    var c' := [Empty(k)] + c;
    assert forall x :: 0 < x < |c'| ==> c'[x] == c[x - 1];
    if k' == k {
      FoundAt(c', k, 0);
    } else if Find(c, k') < |c| {
      FoundAt(c', k', Find(c, k') + 1);
    }
  }

  lemma ReplacedCounts(c: Cache, j: nat, k: Key, k': Key)
    requires Find(c, k) == |c| && Sound(c) && j < |c| && c[j].refCount == 0 && Sound(c[j := Empty(k)])
    ensures CountsOf(c[j := Empty(k)], k') == if k' == k then Counts(1, 0) else CountsOf(c, k')
  {
    assert BufOk(c[j]);
    hide Sound, BufOk;
    var c' := c[j := Empty(k)];
    if k' == k {
      FoundAt(c', k, j);
    } else if k' == c[j].key {
      FoundAt(c, k', j);
      if Find(c', k') < |c'| { FoundAt(c, k', Find(c', k')); }
    } else if Find(c, k') < |c| {
      FoundAt(c', k', Find(c, k'));
    }
  }

  lemma StepSound(s: State, op: Op)
    requires Sound(s.cache)
    ensures Sound(Step(s, op).cache)
  {
    var i := Find(s.cache, op.key);
    if op.Get? {
      GotSound(s.cache, op.key);
    } else if i < |s.cache| {
      assert BufOk(s.cache[i]);
      hide Sound, Find;
      if op.Drop? && s.cache[i].leaving > 0 {
        DroppedSound(s, i);
      } else if op.Leave? && s.cache[i].locked {
        LeftSound(s, i);
      } else if !op.Drop? && !op.Leave? {
        hide Got, Left, Dropped;
        assert Step(s, op).cache == s.cache[i := Step(s, op).cache[i]];
        SoundUpdate(s.cache, i, Step(s, op).cache[i]);
      }
    }
  }

  ghost function After(s: State, op: Op, k: Key): Counts
    requires Sound(s.cache)
  {
    var n := CountsOf(s.cache, k);
    if op == Get(k) && CanGet(s.cache, k) then Counts(n.held + 1, n.leaving)
    else if op == Leave(k) && CanLeave(s.cache, k) then Counts(n.held, n.leaving + 1)
    else if op == Drop(k) && CanDrop(s.cache, k) then
      (DropFacts(s.cache, k); Counts(n.held - 1, n.leaving - 1))
    else n
  }

  lemma DropFacts(c: Cache, k: Key)
    requires Sound(c) && CanDrop(c, k)
    ensures CountsOf(c, k).held > 0 && CountsOf(c, k).leaving > 0
  {
    var i :| 0 <= i < |c| && c[i].key == k && c[i].leaving > 0;
    assert BufOk(c[i]);
    FoundAt(c, k, i);
  }

  /** Steps on a buffer that stays where it is. */
  lemma StepInPlace(s: State, op: Op)
    requires Sound(s.cache) && Find(s.cache, op.key) < |s.cache| && !op.Get? && !op.Drop?
    ensures var c, i := s.cache, Find(s.cache, op.key);
      exists b ::
        && Step(s, op).cache == c[i := b] && b.key == op.key && BufOk(b) && b.refCount == c[i].refCount
        && b.leaving == c[i].leaving + (if op.Leave? && c[i].locked then 1 else 0)
  {
    var c, i := s.cache, Find(s.cache, op.key);
    assert BufOk(c[i]) && c[i].key == op.key;
    hide Sound, Find;
    var b := Step(s, op).cache[i];
    assert Step(s, op).cache == c[i := b];
  }

  lemma StayCounts(s: State, op: Op, k: Key)
    requires Sound(s.cache) && Find(s.cache, op.key) < |s.cache| && !op.Get? && !op.Drop?
    ensures CountsOf(Step(s, op).cache, k) == After(s, op, k)
  {
    var c, i := s.cache, Find(s.cache, op.key);
    hide Sound, Got, Entered, Modified, Written, Left, Dropped, BufOk;
    FoundIs(c, op.key);
    StepInPlace(s, op);
    hide Step, CanLeave;
    var b: Buf :|
      && Step(s, op).cache == c[i := b] && b.key == op.key && BufOk(b) && b.refCount == c[i].refCount
      && b.leaving == c[i].leaving + (if op.Leave? && c[i].locked then 1 else 0);
    InPlaceCounts(c, i, b, k);
  }

  lemma DropCounts(s: State, op: Op, k: Key)
    requires Sound(s.cache) && Find(s.cache, op.key) < |s.cache| && op.Drop?
    ensures CountsOf(Step(s, op).cache, k) == After(s, op, k)
  {
    var i := Find(s.cache, op.key);
    FoundIs(s.cache, op.key);
    hide Sound, Dropped, BufOk, CanDrop;
    if s.cache[i].leaving > 0 { DroppedCounts(s, i, k); }
  }

  lemma StepCounts(s: State, op: Op, k: Key)
    requires Sound(s.cache)
    ensures CountsOf(Step(s, op).cache, k) == After(s, op, k)
  {
    hide Sound, Got, Entered, Modified, Written, Left, Dropped, BufOk;
    if op.Get? {
      hide CanGet, CountsOf;
      GotCounts(s.cache, op.key, k);
    } else if Find(s.cache, op.key) < |s.cache| {
      hide After, Step, CountsOf;
      if op.Drop? { DropCounts(s, op, k); } else { StayCounts(s, op, k); }
    }
  }

  lemma FoundIs(c: Cache, k: Key)
    requires Sound(c) && Find(c, k) < |c|
    ensures CanLeave(c, k) <==> c[Find(c, k)].locked
    ensures CanDrop(c, k) <==> c[Find(c, k)].leaving > 0
  {
    forall j: nat | j < |c| && c[j].key == k ensures j == Find(c, k) { FoundAt(c, k, j); }
  }

  lemma DroppedCounts(s: State, i: nat, k: Key)
    requires Sound(s.cache) && i < |s.cache| && s.cache[i].leaving > 0
    ensures s.cache[i].refCount > 0
    ensures CountsOf(Dropped(s, i).cache, k) ==
            if k == s.cache[i].key then Counts(s.cache[i].refCount - 1, s.cache[i].leaving - 1)
            else CountsOf(s.cache, k)
  {
    DroppedSound(s, i);
    assert BufOk(s.cache[i]);
    var b := s.cache[i].(refCount := s.cache[i].refCount - 1, leaving := s.cache[i].leaving - 1);
    hide Sound, CountsOf;
    if b.refCount == 0 {
      MovedCounts(s.cache, i, b, k);
    } else {
      InPlaceCounts(s.cache, i, b, k);
    }
  }

  /**
   * Over every run a block has as many references as were taken and not given up, whatever other
   * clients did to it and to other blocks, and whether or not its buffer was recycled in between.
   */
  lemma {:induction false} RunCounts(s: State, ops: seq<Op>, k: Key)
    requires Sound(s.cache)
    ensures var n, n' := CountsOf(s.cache, k), CountsOf(Run(s, ops).cache, k);
      && n'.held == n.held + Gets(s, ops, k) - Drops(s, ops, k)
      && n'.leaving == n.leaving + Leaves(s, ops, k) - Drops(s, ops, k)
    decreases |ops|
  {
    if ops != [] {
      StepSound(s, ops[0]);
      StepCounts(s, ops[0], k);
      hide Sound, Step, CountsOf, CanGet, CanLeave, CanDrop;
      RunCounts(Step(s, ops[0]), ops[1..], k);
    }
  }

  /** A script that reads block k, changes block k', and reads block k again. */
  function StaleScript(k: Key, k': Key, data: seq<int>): seq<Op> {
    [Get(k), Enter(k), Leave(k), Drop(k)] + [Get(k'), Enter(k'), Modify(k', data), Leave(k'), Drop(k')] +
    [Get(k), Enter(k)]
  }

  /** Two different blocks that share a byte can be made to disagree about it. */
  lemma Stale(d: Disk, k: Key, k': Key) returns (data: seq<int>)
    requires k != k' && Overlap(k, k')
    ensures !Transparent(Run(Fresh(d), StaleScript(k, k', data)))
  {
    var dev: nat, a: nat :| Covers(k, dev, a) && Covers(k', dev, a);
    hide Start;
    var p := a - Start(k');
    data := Slice(d, k')[p := Slice(d, k')[p] + 1];
    var s9 := StaleEnd(d, k, k', data);
    assert s9.truth(dev, a) == d(dev, a) + 1;
    var x := a - Start(k);
    assert Slice(d, k)[x] == d(dev, a) && Slice(s9.truth, k)[x] == s9.truth(dev, a);
  }

  lemma StaleEnd(d: Disk, k: Key, k': Key, data: seq<int>) returns (s9: State)
    requires k != k' && |data| == k'.size
    ensures s9 == Run(Fresh(d), StaleScript(k, k', data))
    ensures s9.truth == Store(d, k', data) && |s9.cache| == 2
    ensures s9.cache[1].key == k && s9.cache[1].locked && s9.cache[1].data == Slice(d, k)
  {
    var s3 := StaleRead(d, k);
    var s7 := StaleWrite(s3, k, k', data);
    var s8 := Step(s7, Get(k));
    s9 := Step(s8, Enter(k));
    hide Run, Step;
    var o1 := [Get(k), Enter(k), Leave(k), Drop(k)];
    var o2 := [Get(k'), Enter(k'), Modify(k', data), Leave(k'), Drop(k')];
    var o3 := [Get(k)] + [Enter(k)];
    RunEnd(s9);
    RunStep(s8, Enter(k), []);
    assert [Enter(k)] + [] == [Enter(k)];
    RunStep(s7, Get(k), [Enter(k)]);
    RunConcat(s3, o2, o3);
    RunConcat(Fresh(d), o1, o2 + o3);
    assert o1 + (o2 + o3) == StaleScript(k, k', data);
  }

  lemma RunStep(s: State, op: Op, rest: seq<Op>)
    ensures Run(s, [op] + rest) == Run(Step(s, op), rest)
  {
    assert ([op] + rest)[1..] == rest;
  }

  lemma RunEnd(s: State)
    ensures Run(s, []) == s
  {
  }

  lemma {:induction false} RunConcat(s: State, a: seq<Op>, b: seq<Op>)
    ensures Run(s, a + b) == Run(Run(s, a), b)
    decreases |a|
  {
    if a == [] {
      assert a + b == b;
    } else {
      assert (a + b)[0] == a[0] && (a + b)[1..] == a[1..] + b;
      RunConcat(Step(s, a[0]), a[1..], b);
    }
  }

  lemma StaleRead(d: Disk, k: Key) returns (s4: State)
    ensures s4 == Run(Fresh(d), [Get(k), Enter(k), Leave(k), Drop(k)])
    ensures s4.cache == [Buf(k, true, false, 0, 0, false, Slice(d, k))] && s4.disk == d && s4.truth == d
  {
    var s1 := Step(Fresh(d), Get(k));
    var s2 := Step(s1, Enter(k));
    var s3 := Step(s2, Leave(k));
    s4 := Step(s3, Drop(k));
    assert s1.cache == [Empty(k)] && s2.cache == [Buf(k, true, false, 1, 0, true, Slice(d, k))];
    assert s3.cache == [Buf(k, true, false, 1, 1, false, Slice(d, k))];
    assert s4.cache == [Buf(k, true, false, 0, 0, false, Slice(d, k))] && s4.disk == d && s4.truth == d;
    hide Run, Step;
    RunFour(Fresh(d), Get(k), Enter(k), Leave(k), Drop(k));
  }

  lemma RunFour(s: State, a: Op, b: Op, c: Op, d: Op)
    ensures Run(s, [a, b, c, d]) == Step(Step(Step(Step(s, a), b), c), d)
  {
    hide Run, Step;
    var s1, s2, s3 := Step(s, a), Step(Step(s, a), b), Step(Step(Step(s, a), b), c);
    RunStep(s, a, [b, c, d]);
    RunStep(s1, b, [c, d]);
    RunStep(s2, c, [d]);
    RunStep(s3, d, []);
    RunEnd(Step(s3, d));
    assert [a] + [b, c, d] == [a, b, c, d] && [b] + [c, d] == [b, c, d] && [c] + [d] == [c, d] && [d] + [] == [d];
  }

  lemma StaleWrite(s: State, k: Key, k': Key, data: seq<int>) returns (s5: State)
    requires |s.cache| == 1 && s.cache[0].key == k != k' && s.disk == s.truth && |data| == k'.size
    ensures s5 == Run(s, [Get(k'), Enter(k'), Modify(k', data), Leave(k'), Drop(k')])
    ensures |s5.cache| == 2 && s5.cache[1] == s.cache[0] && s5.cache[0].key == k'
    ensures s5.truth == Store(s.truth, k', data)
  {
    var s1 := Step(s, Get(k'));
    assert s1.cache == [Empty(k'), s.cache[0]];
    var s4 := StaleChange(s1, k', data);
    s5 := Step(s4, Drop(k'));
    hide Run, Step;
    var o := [Enter(k'), Modify(k', data), Leave(k'), Drop(k')];
    RunFour(s1, o[0], o[1], o[2], o[3]);
    RunStep(s, Get(k'), o);
    assert [Get(k')] + o == [Get(k'), Enter(k'), Modify(k', data), Leave(k'), Drop(k')];
  }

  lemma StaleChange(s: State, k: Key, data: seq<int>) returns (s': State)
    requires |s.cache| == 2 && s.cache[0] == Empty(k) && |data| == k.size
    ensures s' == Step(Step(Step(s, Enter(k)), Modify(k, data)), Leave(k))
    ensures s'.truth == Store(s.truth, k, data)
    ensures s'.cache == [Buf(k, true, false, 1, 1, false, data), s.cache[1]]
  {
    var s2 := Step(s, Enter(k));
    assert s2.cache[0].key == k && s2.cache[0].locked && s2.cache[1] == s.cache[1] && s2.truth == s.truth;
    var s3 := Step(s2, Modify(k, data));
    assert s3.cache == [Buf(k, true, true, 1, 0, true, data), s.cache[1]];
    s' := Step(s3, Leave(k));
  }

  /** The cache is invisible to its clients exactly when no two blocks they ask for share bytes. */
  lemma TransparentIff(keys: iset<Key>)
    ensures (forall d: Disk, ops: seq<Op> :: OpsIn(ops, keys) ==> Transparent(Run(Fresh(d), ops))) <==> NoOverlap(keys)
  {
    if NoOverlap(keys) {
      forall d: Disk, ops: seq<Op> | OpsIn(ops, keys) ensures Transparent(Run(Fresh(d), ops)) {
        RunCoherent(Fresh(d), ops, keys);
      }
    } else {
      var k, k' :| k in keys && k' in keys && k != k' && Overlap(k, k');
      var d: Disk := (dev: nat, a: nat) => 0;
      var data := Stale(d, k, k');
      assert OpsIn(StaleScript(k, k', data), keys);
    }
  }

  // ---- Which buffer is recycled -------------------------------------------------------------------------------

  ghost predicate Later(s: State, k: Key, k': Key) {
    k in s.stamp && k' in s.stamp && s.stamp[k] > s.stamp[k']
  }

  /** Unreferenced buffers stand in the list in the order of their last release, the latest first. */
  ghost predicate ByRelease(s: State) {
    && (forall k :: k in s.stamp ==> s.stamp[k] < s.clock)
    && (forall i :: 0 <= i < |s.cache| && s.cache[i].refCount == 0 ==> s.cache[i].key in s.stamp)
    && (forall i, j :: 0 <= i < j < |s.cache| && s.cache[i].refCount == 0 && s.cache[j].refCount == 0 ==>
          Later(s, s.cache[i].key, s.cache[j].key))
  }

  /** Changing a buffer in place: it keeps its key if it is unreferenced. */
  lemma InPlaceOrder(s: State, i: nat, b: Buf)
    requires ByRelease(s) && i < |s.cache| && (b.refCount == 0 ==> b.key == s.cache[i].key && s.cache[i].refCount == 0)
    ensures ByRelease(s.(cache := s.cache[i := b]))
  {
    var s' := s.(cache := s.cache[i := b]);
    forall x, y | 0 <= x < y < |s'.cache| && s'.cache[x].refCount == 0 && s'.cache[y].refCount == 0
      ensures Later(s', s'.cache[x].key, s'.cache[y].key)
    {
      assert Later(s, s.cache[x].key, s.cache[y].key);
    }
  }

  lemma GotOrder(s: State, k: Key)
    requires ByRelease(s) && Got(s.cache, k).Some?
    ensures ByRelease(s.(cache := Got(s.cache, k).value))
  {
    var c := s.cache;
    var i := Find(c, k);
    if i < |c| {
      InPlaceOrder(s, i, c[i].(refCount := c[i].refCount + 1));
    } else if |c| < MAX_SIZE {
      var s' := s.(cache := [Empty(k)] + c);
      assert forall x :: 0 < x < |s'.cache| ==> s'.cache[x] == c[x - 1];
      forall x, y | 0 <= x < y < |s'.cache| && s'.cache[x].refCount == 0 && s'.cache[y].refCount == 0
        ensures Later(s', s'.cache[x].key, s'.cache[y].key)
      {
        assert Later(s, c[x - 1].key, c[y - 1].key);
      }
    } else {
      InPlaceOrder(s, LastFree(c), Empty(k));
    }
  }

  lemma DroppedOrder(s: State, i: nat)
    requires Sound(s.cache) && ByRelease(s) && i < |s.cache| && s.cache[i].refCount > 0 && s.cache[i].leaving > 0
    ensures ByRelease(Dropped(s, i))
  {
    var b := s.cache[i].(refCount := s.cache[i].refCount - 1, leaving := s.cache[i].leaving - 1);
    hide ByRelease;
    if b.refCount == 0 {
      FrontOrder(s, i, b, Dropped(s, i));
    } else {
      InPlaceOrder(s, i, b);
    }
  }

  lemma FrontOrder(s: State, i: nat, b: Buf, s': State)
    requires ByRelease(s) && i < |s.cache| && b.key == s.cache[i].key && b.refCount == 0
    requires forall x, y :: 0 <= x < y < |s.cache| ==> s.cache[x].key != s.cache[y].key
    requires s'.cache == [b] + s.cache[..i] + s.cache[i + 1..] && s'.stamp == s.stamp[b.key := s.clock]
    requires s'.clock == s.clock + 1
    ensures ByRelease(s')
  {
    var c := s.cache;
    forall x | 0 < x < |s'.cache|
      ensures s'.cache[x].key != b.key && (s'.cache[x].refCount == 0 ==> s'.cache[x].key in s.stamp)
    {
      MovedIndex(c, i, b, x);
      assert c[if x <= i then x - 1 else x].key != c[i].key;
    }
    forall x, y | 0 <= x < y < |s'.cache| && s'.cache[x].refCount == 0 && s'.cache[y].refCount == 0
      ensures Later(s', s'.cache[x].key, s'.cache[y].key)
    {
      MovedIndex(c, i, b, x);
      MovedIndex(c, i, b, y);
      assert x > 0 ==> Later(s, c[if x <= i then x - 1 else x].key, c[if y <= i then y - 1 else y].key);
    }
  }

  lemma StepOrder(s: State, op: Op)
    requires Sound(s.cache) && ByRelease(s)
    ensures ByRelease(Step(s, op))
  {
    var i := Find(s.cache, op.key);
    hide Find, Sound, ByRelease, Got, Dropped;
    match op
    case Get(k) => if Got(s.cache, k).Some? { GotOrder(s, k); }
    case Enter(_) => if i < |s.cache| { InPlaceOrder(s, i, Entered(s, i).cache[i]); }
    case Modify(k, data) =>
      if i < |s.cache| {
        InPlaceOrder(s, i, Modified(s, i, data).cache[i]);
        OrderSame(s.(cache := Modified(s, i, data).cache), Modified(s, i, data));
      }
    case Write(_) =>
      if i < |s.cache| {
        InPlaceOrder(s, i, Written(s, i).cache[i]);
        OrderSame(s.(cache := Written(s, i).cache), Written(s, i));
      }
    case Leave(_) =>
      if i < |s.cache| {
        InPlaceOrder(s, i, Left(s, i).cache[i]);
        OrderSame(s.(cache := s.cache[i := Left(s, i).cache[i]]), Left(s, i));
      }
    case Drop(_) => if i < |s.cache| && s.cache[i].refCount > 0 && s.cache[i].leaving > 0 { DroppedOrder(s, i); }
  }

  lemma OrderSame(s: State, s': State)
    ensures s'.cache == s.cache && s'.stamp == s.stamp && s'.clock == s.clock && ByRelease(s) ==> ByRelease(s')
  {
    if s'.cache == s.cache && s'.stamp == s.stamp && s'.clock == s.clock && ByRelease(s) {
      assert forall k, k' :: Later(s, k, k') ==> Later(s', k, k');
    }
  }

  /** A recycled buffer is the one that was released longest ago of all that nobody references. */
  lemma Recycled(s: State, k: Key)
    requires Sound(s.cache) && ByRelease(s) && Find(s.cache, k) == |s.cache| == MAX_SIZE
    ensures Got(s.cache, k).None? <==> forall i :: 0 <= i < |s.cache| ==> s.cache[i].refCount > 0
    ensures Got(s.cache, k).Some? ==>
      var j := LastFree(s.cache);
      && j < |s.cache| && Got(s.cache, k).value == s.cache[j := Empty(k)] && s.cache[j].refCount == 0
      && forall i :: 0 <= i < |s.cache| && i != j && s.cache[i].refCount == 0 ==>
           Later(s, s.cache[i].key, s.cache[j].key)
  {
  }

  // ---- The cache, in place -----------------------------------------------------------------------------------------

  class Buffers {
    var cache: Cache
    var disk: Disk
    ghost var truth: Disk
    ghost var stamp: map<Key, nat>
    ghost var clock: nat

    ghost function Now(): State
      reads this
    {
      State(cache, disk, truth, stamp, clock)
    }

    ghost predicate Valid()
      reads this
    {
      Sound(cache) && ByRelease(Now())
    }

    constructor (d: Disk)
      ensures Valid() && Now() == Fresh(d)
    {
      cache, disk, truth, stamp, clock := [], d, d, map[], 0;
    }

    /** Scan the list for the block, remembering the last unreferenced buffer on the way. */
    method Scan(k: Key) returns (i: nat, unused: nat)
      ensures i == Find(cache, k) && (i == |cache| ==> unused == LastFree(cache))
    {
      i, unused := 0, |cache|;
      while i < |cache| && cache[i].key != k
        invariant i <= |cache| && (forall j :: 0 <= j < i ==> cache[j].key != k)
        invariant unused == |cache| ==> forall j :: 0 <= j < i ==> cache[j].refCount != 0
        invariant unused < |cache| ==> unused < i && cache[unused].refCount == 0 && forall j :: unused < j < i ==>
          cache[j].refCount != 0
        invariant unused <= |cache|
      {
        if cache[i].refCount == 0 {
          unused := i;
        }
        i := i + 1;
      }
    }

    method GetBuf(k: Key) returns (ok: bool)
      requires Valid()
      modifies this
      ensures Valid() && ok == Got(old(cache), k).Some? && Now() == Step(old(Now()), Get(k))
    {
      GotSound(cache, k);
      StepOrder(Now(), Get(k));
      hide Sound, ByRelease;
      var i, unused := Scan(k);
      if i < |cache| {
        cache := cache[i := cache[i].(refCount := cache[i].refCount + 1)];
      } else if |cache| < MAX_SIZE {
        cache := [Empty(k)] + cache;
      } else if unused < |cache| {
        cache := cache[unused := Empty(k)];
      } else {
        return false;
      }
      ok := true;
    }

    /** Lock a referenced buffer and fill it if need be; no result while another client holds it. */
    method EnterBuf(k: Key) returns (r: Option<seq<int>>)
      requires Valid()
      modifies this`cache
      ensures Valid() && Now() == Step(old(Now()), Enter(k))
      ensures r.Some? <==> Referenced(old(cache), k) && !HeldBy(old(cache), k)
      ensures r.Some? ==>
        exists i :: 0 <= i < |cache| && cache[i].key == k && cache[i].locked && cache[i].data == r.value
    {
      var i, _ := Scan(k);
      EnterSound(Now(), k);
      StepOrder(Now(), Enter(k));
      hide Sound, ByRelease, LastFree;
      r := None;
      if i < |cache| && cache[i].refCount > cache[i].leaving && !cache[i].locked {
        var b := cache[i];
        if !b.valid {
          b := b.(data := Slice(disk, k), valid := true);
        }
        cache := cache[i := b.(locked := true)];
        assert cache[i].key == k;
        r := Some(b.data);
      }
    }

    /** Get a block's buffer, locked and filled; no result if no buffer is free or another client holds it. */
    method Read(k: Key) returns (r: Option<seq<int>>)
      requires Valid()
      modifies this
      ensures Valid() && Now() == Step(Step(old(Now()), Get(k)), Enter(k))
      ensures r.Some? <==> Got(old(cache), k).Some? && !HeldBy(old(cache), k)
      ensures r.Some? ==>
        exists i :: 0 <= i < |cache| && cache[i].key == k && cache[i].locked && cache[i].data == r.value
    {
      GotMeans(Now(), k);
      hide Sound, ByRelease, Step, Got, Referenced, HeldBy;
      var ok := GetBuf(k);
      r := EnterBuf(k);
    }

    /** The holder of a buffer changes its contents and marks it dirty. */
    method ModifyBuf(k: Key, data: seq<int>)
      requires Valid() && |data| == k.size && exists i :: 0 <= i < |cache| && cache[i].key == k && cache[i].locked
      modifies this
      ensures Valid() && Now() == Step(old(Now()), Modify(k, data)) && truth == Store(old(truth), k, data)
    {
      var i, _ := Scan(k);
      HeldIsFound(cache, k);
      assert BufOk(cache[i]);
      StepOrder(Now(), Modify(k, data));
      SoundUpdate(cache, i, cache[i].(data := data, dirty := true));
      hide Sound, ByRelease;
      cache := cache[i := cache[i].(data := data, dirty := true)];
      truth := Store(truth, k, data);
    }

    /** Write a buffer to the disk, and the driver clears the mark; a buffer that is clean makes the request panic. */
    method WriteBuf(k: Key) returns (ok: bool)
      requires Valid() && exists i :: 0 <= i < |cache| && cache[i].key == k && cache[i].locked
      modifies this
      ensures Valid() && Now() == Step(old(Now()), Write(k))
      ensures ok <==> exists i :: 0 <= i < |old(cache)| && old(cache)[i].key == k && old(cache)[i].dirty
      ensures ok ==> forall i :: 0 <= i < |cache| && cache[i].key == k ==>
        !cache[i].dirty && Slice(disk, k) == cache[i].data
    {
      var i, _ := Scan(k);
      HeldIsFound(cache, k);
      assert BufOk(cache[i]);
      ok := cache[i].dirty;
      if ok {
        StepOrder(Now(), Write(k));
        SoundUpdate(cache, i, cache[i].(dirty := false, valid := true));
        StoreHere(disk, k, cache[i].data);
        hide Sound, ByRelease;
        disk := Store(disk, k, cache[i].data);
        cache := cache[i := cache[i].(dirty := false, valid := true)];
      }
    }

    method WriteBack(i: nat)
      requires i < |cache|
      modifies this`cache, this`disk
      ensures Now() == Written(old(Now()), i) && |cache| == |old(cache)|
      ensures cache[i].key == old(cache)[i].key && cache[i].refCount == old(cache)[i].refCount
    {
      var b := cache[i];
      if b.dirty {
        disk := Store(disk, b.key, b.data);
        cache := cache[i := b.(dirty := false, valid := true)];
      }
    }

    /** The first half of a release: write the buffer if it is dirty and unlock it. */
    method LeaveBuf(k: Key) returns (ok: bool)
      requires Valid()
      modifies this`cache, this`disk
      ensures Valid() && Now() == Step(old(Now()), Leave(k))
      ensures ok <==> HeldBy(old(cache), k)
      ensures ok ==> exists i :: 0 <= i < |cache| && cache[i].key == k && cache[i].leaving > 0
    {
      var i, _ := Scan(k);
      ok := i < |cache| && cache[i].locked;
      if ok {
        assert BufOk(cache[i]);
        LeftSound(Now(), i);
        StepOrder(Now(), Leave(k));
        assert Step(Now(), Leave(k)) == Left(Now(), i);
        hide Sound, ByRelease, Find, LastFree, Store, Step, Written;
        WriteBack(i);
        cache := cache[i := cache[i].(locked := false, leaving := cache[i].leaving + 1)];
        assert Now() == Left(old(Now()), i);
        assert cache[i].key == k && cache[i].leaving > 0;
      }
    }

    /** The second half, under the lock of the cache: drop the reference. */
    method DropBuf(k: Key)
      requires Valid() && exists i :: 0 <= i < |cache| && cache[i].key == k && cache[i].leaving > 0
      modifies this`cache, this`stamp, this`clock
      ensures Valid() && Now() == Step(old(Now()), Drop(k))
    {
      var i, _ := Scan(k);
      LeavingIsFound(cache, k);
      DroppedSound(Now(), i);
      StepOrder(Now(), Drop(k));
      assert Step(Now(), Drop(k)) == Dropped(Now(), i);
      hide Sound, ByRelease, Find, LastFree, Store, Step;
      var b := cache[i].(refCount := cache[i].refCount - 1, leaving := cache[i].leaving - 1);
      if b.refCount == 0 {
        cache := [b] + cache[..i] + cache[i + 1..];
        stamp, clock := stamp[b.key := clock], clock + 1;
      } else {
        cache := cache[i := b];
      }
      assert Now() == Dropped(old(Now()), i);
    }

    /** Write the buffer if it is dirty, unlock it, and drop the reference. */
    method ReleaseBuf(k: Key) returns (ok: bool)
      requires Valid()
      modifies this
      ensures Valid() && (ok <==> HeldBy(old(cache), k))
      ensures Now() == if ok then Step(Step(old(Now()), Leave(k)), Drop(k)) else old(Now())
    {
      ok := LeaveBuf(k);
      hide Sound, ByRelease;
      if ok {
        hide Step;
        DropBuf(k);
      }
    }
  }

  lemma LeavingIsFound(c: Cache, k: Key)
    requires Sound(c) && exists i :: 0 <= i < |c| && c[i].key == k && c[i].leaving > 0
    ensures Find(c, k) < |c| && c[Find(c, k)].leaving > 0
  {
    hide BufOk;
  }

  /** The buffer of the block is in the cache and someone references it who has not unlocked it yet. */
  predicate Referenced(c: Cache, k: Key) {
    var i := Find(c, k); i < |c| && c[i].refCount > c[i].leaving
  }

  /** Some client holds the buffer of the block locked. */
  predicate HeldBy(c: Cache, k: Key) {
    var i := Find(c, k); i < |c| && c[i].refCount > 0 && c[i].locked
  }

  /** A buffer that could be had is referenced afterwards, and held only if it was held before. */
  lemma GotMeans(s: State, k: Key)
    requires Sound(s.cache)
    ensures var c := Step(s, Get(k)).cache;
      if Got(s.cache, k).Some? then Referenced(c, k) && (HeldBy(c, k) <==> HeldBy(s.cache, k))
      else !Referenced(c, k)
  {
    var c, i := s.cache, Find(s.cache, k);
    if i < |c| {
      assert BufOk(c[i]);
      FindIs(Got(c, k).value, k, i);
    } else if |c| < MAX_SIZE {
      FindIs(Got(c, k).value, k, 0);
    } else if LastFree(c) < |c| {
      FindIs(Got(c, k).value, k, LastFree(c));
    }
  }

  lemma FindIs(c: Cache, k: Key, i: nat)
    requires i < |c| && c[i].key == k && forall j :: 0 <= j < i ==> c[j].key != k
    ensures Find(c, k) == i
  {
  }

  lemma HeldIsFound(c: Cache, k: Key)
    requires Sound(c) && exists i :: 0 <= i < |c| && c[i].key == k && c[i].locked
    ensures Find(c, k) < |c|
    ensures forall i :: 0 <= i < |c| && c[i].key == k ==> i == Find(c, k)
  {
    hide BufOk;
  }

  lemma EnterSound(s: State, k: Key)
    requires Sound(s.cache)
    ensures Sound(Step(s, Enter(k)).cache)
  {
    var i := Find(s.cache, k);
    if i < |s.cache| && s.cache[i].refCount > s.cache[i].leaving && !s.cache[i].locked {
      assert BufOk(s.cache[i]);
      SoundUpdate(s.cache, i, Entered(s, i).cache[i]);
    }
  }
}
