/**
 * Copy-on-write virtual memory.
 *
 * The page tables of all address spaces are one map from keys (address space, virtual page
 * number) to entries, and several entries may name the same page frame.  The results are that
 * reference counts equal mappings, exactly which keys see a store, and that every run of
 * operations on legal addresses does to the memory seen through the page tables what it does
 * to a memory in which nothing is shared.
 */
module Vm {
  import opened Arith
  import opened PrivateMemory

  /** The two bits the copy-on-write protocol uses, and the other permission bits. */
  datatype Flags = Flags(write: bool, cow: bool, other: set<nat>)
  datatype Entry = Entry(page: nat, flags: Flags)
  type PageTable = map<Key, Entry>

  ghost function Mappings(pt: PageTable, p: nat): set<Key> {
    set k | k in pt && pt[k].page == p
  }

  ghost predicate Backed(pt: PageTable, mem: seq<Frame>) {
    && (forall k: Key :: k in pt ==> pt[k].page < |mem|)
    && (forall p :: 0 <= p < |mem| ==> |mem[p]| == PAGE_SIZE)
  }

  /** The memory seen through the page tables. */
  ghost function Seen(pt: PageTable, mem: seq<Frame>): (m: Memory)
    requires Backed(pt, mem)
    ensures Whole(m) && m.Keys == pt.Keys
    ensures forall k: Key :: k in pt ==>
      m[k] == Cell(mem[pt[k].page], pt[k].flags.write || pt[k].flags.cow, pt[k].flags.other)
  {
    map k: Key | k in pt :: Cell(mem[pt[k].page], pt[k].flags.write || pt[k].flags.cow, pt[k].flags.other)
  }

  // ---- Reference counts ---------------------------------------------------------------------

  /** Reference counts of mapped, free and held pages are exact; `held` pages carry one reference more. */
  ghost predicate Counted(pt: PageTable, refs: seq<nat>, free: set<nat>, held: set<nat>) {
    && (forall k: Key :: k in pt ==> pt[k].page < |refs| && pt[k].page !in free)
    && (forall p: nat :: p in held ==> p < |refs| && p !in free)
    && (forall p: nat :: p < |refs| && (p in free || p in held || Mappings(pt, p) != {}) ==>
          refs[p] == |Mappings(pt, p)| + if p in held then 1 else 0)
  }

  /** A writable entry is not copy-on-write and is the only one of its page. */
  ghost predicate Exclusive(pt: PageTable) {
    forall k: Key :: k in pt && pt[k].flags.write ==> !pt[k].flags.cow && Mappings(pt, pt[k].page) == {k}
  }

  lemma SingleElement<T>(s: set<T>, x: T)
    requires x in s
    ensures |s| == 1 <==> s == {x}
    ensures |s| > 0
  {
    if |s| == 1 { assert |s - {x}| == 0; }
  }

  lemma UnmapCounts(pt: PageTable, k: Key, p: nat)
    requires k in pt
    ensures Mappings(pt - {k}, p) == Mappings(pt, p) - {k}
    ensures |Mappings(pt - {k}, p)| == |Mappings(pt, p)| - if pt[k].page == p then 1 else 0
  {
    assert Mappings(pt - {k}, p) == Mappings(pt, p) - {k};
    assert k in Mappings(pt, p) <==> pt[k].page == p;
  }

  lemma MapCounts(pt: PageTable, k: Key, e: Entry, p: nat)
    requires k !in pt
    ensures |Mappings(pt[k := e], p)| == |Mappings(pt, p)| + if e.page == p then 1 else 0
  {
    if e.page == p {
      assert Mappings(pt[k := e], p) == Mappings(pt, p) + {k};
    } else {
      assert Mappings(pt[k := e], p) == Mappings(pt, p);
    }
  }

  /** The count of one page, whatever its kind. */
  lemma CountOf(pt: PageTable, refs: seq<nat>, free: set<nat>, held: set<nat>, k: Key)
    requires Counted(pt, refs, free, held) && k in pt
    ensures var p := pt[k].page;
      && p < |refs| && p !in free && k in Mappings(pt, p)
      && refs[p] == |Mappings(pt, p)| + (if p in held then 1 else 0) && refs[p] > 0
      && (refs[p] == 1 <==> Mappings(pt, p) == {k} && p !in held)
  {
    assert k in Mappings(pt, pt[k].page);
    SingleElement(Mappings(pt, pt[k].page), k);
  }

  lemma UnmapCounted(pt: PageTable, refs: seq<nat>, free: set<nat>, held: set<nat>, k: Key)
    requires Counted(pt, refs, free, held) && k in pt && pt[k].page < |refs| && refs[pt[k].page] > 0
    ensures var p := pt[k].page; var refs' := refs[p := refs[p] - 1];
      Counted(pt - {k}, refs', if refs'[p] == 0 then free + {p} else free, held)
  {
    var p, pt' := pt[k].page, pt - {k};
    CountOf(pt, refs, free, held, k);
    var refs' := refs[p := refs[p] - 1];
    var free' := if refs'[p] == 0 then free + {p} else free;
    forall k': Key | k' in pt' ensures pt'[k'].page < |refs'| && pt'[k'].page !in free' {
      if pt'[k'].page == p { assert k' in Mappings(pt, p); }
    }
    forall q: nat | q < |refs'| && (q in free' || q in held || Mappings(pt', q) != {})
      ensures refs'[q] == |Mappings(pt', q)| + if q in held then 1 else 0
    {
      UnmapCounts(pt, k, q);
    }
  }

  lemma HoldCounted(pt: PageTable, refs: seq<nat>, free: set<nat>, p: nat)
    requires Counted(pt, refs, free, {}) && p < |refs| && p !in free && refs[p] == |Mappings(pt, p)|
    ensures Counted(pt, refs[p := refs[p] + 1], free, {p})
  {
  }

  lemma MapCounted(pt: PageTable, refs: seq<nat>, free: set<nat>, k: Key, e: Entry)
    requires Counted(pt, refs, free, {e.page}) && k !in pt
    ensures Counted(pt[k := e], refs, free, {})
  {
    var pt' := pt[k := e];
    forall q: nat | q < |refs| && (q in free || Mappings(pt', q) != {}) ensures refs[q] == |Mappings(pt', q)| {
      MapCounts(pt, k, e, q);
      if q != e.page { assert Mappings(pt', q) == Mappings(pt, q); }
    }
  }

  /** A free page has no mapping, and one may be taken out. */
  lemma TakeCounted(pt: PageTable, refs: seq<nat>, free: set<nat>, p: nat)
    requires Counted(pt, refs, free, {}) && p in free && p < |refs|
    ensures Mappings(pt, p) == {} && refs[p] == 0
    ensures Counted(pt, refs, free - {p}, {})
  {
    assert forall k: Key :: k in pt ==> pt[k].page != p;
  }

  // ---- Replacing one entry --------------------------------------------------------------------

  lemma RemapMappings(pt: PageTable, k: Key, e: Entry, q: nat)
    ensures Mappings(pt[k := e], q) == if q == e.page then Mappings(pt, q) + {k} else Mappings(pt, q) - {k}
  {
  }

  lemma RemapExclusive(pt: PageTable, k: Key, e: Entry)
    requires Exclusive(pt)
    requires e.flags.write ==> !e.flags.cow && Mappings(pt, e.page) <= {k}
    requires forall k': Key :: k' in Mappings(pt, e.page) && k' != k ==> !pt[k'].flags.write
    ensures Exclusive(pt[k := e])
  {
    var pt' := pt[k := e];
    forall k': Key | k' in pt' && pt'[k'].flags.write
      ensures !pt'[k'].flags.cow && Mappings(pt', pt'[k'].page) == {k'}
    {
      RemapMappings(pt, k, e, pt'[k'].page);
      assert k' in Mappings(pt', pt'[k'].page);
      if k' != k { assert k' in Mappings(pt, pt[k'].page); }
    }
  }

  lemma UnmapExclusive(pt: PageTable, k: Key)
    requires Exclusive(pt)
    ensures Exclusive(pt - {k})
  {
    forall k': Key | k' in pt && k' != k && pt[k'].flags.write ensures Mappings(pt - {k}, pt[k'].page) == {k'} {
      assert Mappings(pt - {k}, pt[k'].page) == Mappings(pt, pt[k'].page) - {k};
    }
  }

  lemma UnmappedStore(pt: PageTable, mem: seq<Frame>, p: nat, f: Frame)
    requires Backed(pt, mem) && p < |mem| && Mappings(pt, p) == {} && |f| == PAGE_SIZE
    ensures Backed(pt, mem[p := f]) && Seen(pt, mem[p := f]) == Seen(pt, mem)
  {
    assert forall k: Key :: k in pt && pt[k].page == p ==> k in Mappings(pt, p);
  }

  /** A writable entry for a page that only k may map already, with the bytes k sees. */
  lemma PrivateEntry(pt: PageTable, mem: seq<Frame>, k: Key, e: Entry)
    requires Exclusive(pt) && Backed(pt, mem) && k in pt && pt[k].flags.cow && Mappings(pt, e.page) <= {k}
    requires e.flags == pt[k].flags.(write := true, cow := false)
    requires e.page < |mem| && mem[e.page] == mem[pt[k].page]
    ensures Exclusive(pt[k := e]) && Mappings(pt[k := e], e.page) == {k}
    ensures Backed(pt[k := e], mem) && Seen(pt[k := e], mem) == Seen(pt, mem)
  {
    RemapExclusive(pt, k, e);
    RemapMappings(pt, k, e, e.page);
    hide Mappings, Exclusive;
  }

  // ---- Who sees a store --------------------------------------------------------------------------

  /** The keys that see a store through k: k alone if its page is copied first, else all that map the page. */
  ghost function Reach(pt: PageTable, k: Key): (s: set<Key>)
    requires k in pt
    ensures k in s
  {
    if pt[k].flags.cow then {k} else Mappings(pt, pt[k].page)
  }

  /** Another space maps the page, and a store would not copy it first. */
  ghost predicate Leaky(pt: PageTable, k: Key) {
    k in pt && exists k': Key :: k' in Reach(pt, k) && k'.0 != k.0
  }

  /** Leaky, in the terms of a page-table entry: the bit is off and some other space maps the page. */
  lemma LeakyMeans(pt: PageTable, k: Key)
    requires k in pt
    ensures Leaky(pt, k) <==> !pt[k].flags.cow && exists k': Key :: k' in pt && k'.0 != k.0 && pt[k'].page == pt[k].page
  {
    if !pt[k].flags.cow && exists k': Key :: k' in pt && k'.0 != k.0 && pt[k'].page == pt[k].page {
      var k': Key :| k' in pt && k'.0 != k.0 && pt[k'].page == pt[k].page;
      assert k' in Reach(pt, k);
    }
  }

  /** A copy-on-write key of the range [va, va + n) of space a. */
  ghost predicate Split(pt: PageTable, a: nat, va: nat, n: nat, k: Key) {
    k in pt && k.0 == a && Touches(va, n, k.1) && pt[k].flags.cow
  }

  /** Only copy-on-write keys of the range changed; no other key sees what they see, and none sees more than before. */
  ghost predicate Evolves(pt: PageTable, pt': PageTable, a: nat, va: nat, n: nat) {
    && pt'.Keys == pt.Keys
    && (forall k: Key :: k in pt && pt'[k] != pt[k] ==> Split(pt, a, va, n, k))
    && (forall k: Key :: k in pt ==> Reach(pt', k) <= Reach(pt, k))
    && (forall k: Key, k': Key :: k in pt && k' in Reach(pt', k) && Split(pt, a, va, n, k') ==> k' == k)
  }

  /** Who is in reach of a page that has not been touched: all that were, but for the keys split off. */
  lemma ReachNow(pt: PageTable, pt': PageTable, a: nat, va: nat, n: nat, k: Key, k': Key)
    requires Evolves(pt, pt', a, va, n) && k in pt && !Split(pt, a, va, n, k)
    ensures k' in Reach(pt', k) <==> k' in Reach(pt, k) && !Split(pt, a, va, n, k')
  {
    hide Split;
  }

  lemma EvolvesSelf(pt: PageTable, a: nat, va: nat)
    ensures Evolves(pt, pt, a, va, 0)
  {
  }

  /** The entry becomes writable and names a page that nothing else maps. */
  lemma PrivateReach(pt: PageTable, k: Key, e: Entry, k': Key)
    requires k in pt && k' in pt && pt[k].flags.cow && !e.flags.cow && Mappings(pt, e.page) <= {k}
    ensures var pt' := pt[k := e];
      Reach(pt', k') <= Reach(pt, k') && (k in Reach(pt', k') ==> k' == k)
  {
    RemapMappings(pt, k, e, pt[k'].page);
    RemapMappings(pt, k, e, e.page);
    assert pt[k'].page == e.page ==> k' in Mappings(pt, e.page);
  }

  lemma PrivateEvolves(pt: PageTable, k: Key, e: Entry, va: nat, n: nat)
    requires k in pt && pt[k].flags.cow && !e.flags.cow && Mappings(pt, e.page) <= {k} && Touches(va, n, k.1)
    requires va % PAGE_SIZE + n <= PAGE_SIZE
    ensures Evolves(pt, pt[k := e], k.0, va, n)
  {
    forall v: nat ensures Touches(va, n, v) <==> v == k.1 {}
    hide Touches;
    var pt' := pt[k := e];
    forall k': Key | k' in pt
      ensures Reach(pt', k') <= Reach(pt, k') && (k in Reach(pt', k') ==> k' == k)
    {
      PrivateReach(pt, k, e, k');
    }
  }

  lemma EvolvesTrans(p: PageTable, q: PageTable, r: PageTable, a: nat, va: nat, n: nat, c: nat)
    requires Evolves(p, q, a, va, n) && Evolves(q, r, a, va + n, c)
    ensures Evolves(p, r, a, va, n + c)
  {
    forall v: nat ensures Touches(va, n + c, v) <==> Touches(va, n, v) || Touches(va + n, c, v) {}
    hide Touches, Reach;
    forall k: Key ensures Split(p, a, va, n + c, k) <==> Split(p, a, va, n, k) || Split(p, a, va + n, c, k) {}
    forall k: Key | Split(p, a, va + n, c, k) && !Split(p, a, va, n, k) ensures Split(q, a, va + n, c, k) {
      assert q[k] == p[k];
    }
    forall k: Key | k in p && r[k] != p[k] ensures Split(p, a, va, n + c, k) {
      if q[k] == p[k] { assert Split(q, a, va + n, c, k); }
    }
    hide Split;
    forall k: Key, k': Key | k in p && k' in Reach(r, k) && Split(p, a, va, n + c, k') ensures k' == k {
      assert k in q && k' in Reach(q, k);
      if !Split(p, a, va, n, k') { assert Split(q, a, va + n, c, k'); }
    }
  }

  // ---- The progress of a copy to user space ----------------------------------------------------------

  /** Every page touched is seen by its own key only. */
  ghost predicate Permitted(pt: PageTable, a: nat, va: nat, n: nat) {
    forall v: nat :: Touches(va, n, v) && (a, v) in pt ==> Reach(pt, (a, v)) == {(a, v)}
  }

  /** A key of another space that no page touched reaches. */
  ghost predicate OutOfReach(pt: PageTable, a: nat, va: nat, n: nat, k: Key) {
    k.0 != a && forall v: nat :: Touches(va, n, v) && (a, v) in pt ==> k !in Reach(pt, (a, v))
  }

  ghost predicate Unseen(pt: PageTable, m: Memory, m': Memory, a: nat, va: nat, n: nat) {
    forall k: Key :: k in m && k in m' && OutOfReach(pt, a, va, n, k) ==> m'[k] == m[k]
  }

  /** Page v after the first n bytes of the data have been laid over it. */
  ghost function Overlay(f: Frame, v: nat, va: nat, data: seq<Byte>, n: nat): (r: Frame)
    requires n <= |data|
    ensures |r| == |f|
  {
    seq(|f|, i requires 0 <= i < |f| => if va <= v * PAGE_SIZE + i < va + n then data[v * PAGE_SIZE + i - va] else f[i])
  }

  /** Key k sees what is written to page v: it is in reach and has not been split off by a page before. */
  ghost predicate Sees(pt: PageTable, a: nat, va: nat, n: nat, v: nat, k: Key) {
    Touches(va, n, v) && (a, v) in pt && k in Reach(pt, (a, v)) && !(k.1 < v && Split(pt, a, va, n, k))
  }

  /** What key k, which saw f, sees after the writes to the pages below v: one layer for each page it sees. */
  ghost function Layers(pt: PageTable, f: Frame, a: nat, va: nat, data: seq<Byte>, n: nat, v: nat, k: Key): (r: Frame)
    requires n <= |data|
    ensures |r| == |f|
    decreases v
  {
    if v == 0 then f
    else
      var g := Layers(pt, f, a, va, data, n, v - 1, k);
      if Sees(pt, a, va, n, v - 1, k) then Overlay(g, v - 1, va, data, n) else g
  }

  /** A key that sees one page of the range at most, such as a second mapping of a read-only page, sees its data. */
  lemma {:induction false} OneLayer(pt: PageTable, f: Frame, a: nat, va: nat, data: seq<Byte>, n: nat, v: nat, end: nat,
                                    k: Key)
    requires n <= |data| && forall w: nat :: w != v ==> !Sees(pt, a, va, n, w, k)
    ensures Layers(pt, f, a, va, data, n, end, k) ==
      if v < end && Sees(pt, a, va, n, v, k) then Overlay(f, v, va, data, n) else f
    decreases end
  {
    hide Sees, Overlay;
    if end > 0 { OneLayer(pt, f, a, va, data, n, v, end - 1, k); }
  }

  /** What every key, of this space or another, sees after n bytes of the data have been written. */
  ghost predicate Exact(pt: PageTable, m: Memory, m': Memory, a: nat, va: nat, data: seq<Byte>, n: nat) {
    && n <= |data| && m'.Keys == m.Keys
    && forall k: Key :: k in m ==>
         m'[k] == m[k].(bytes := Layers(pt, m[k].bytes, a, va, data, n, (va + n) / PAGE_SIZE + 1, k))
  }

  /** The other spaces in reach of a page see the data on it. */
  ghost predicate Landed(pt: PageTable, m: Memory, m': Memory, a: nat, va: nat, data: seq<Byte>, n: nat)
    requires n <= |data|
  {
    forall v: nat, k: Key ::
      Touches(va, n, v) && (a, v) in pt && k in Reach(pt, (a, v)) && k.0 != a && k in m && k in m' ==>
        m'[k].bytes == Overlay(m[k].bytes, v, va, data, n)
  }

  /** Some byte of the data falls into page v and differs from what is there. */
  ghost predicate Differs(f: Frame, v: nat, va: nat, data: seq<Byte>)
    requires |f| == PAGE_SIZE
  {
    exists j :: 0 <= j < |data| && (va + j) / PAGE_SIZE == v && f[(va + j) % PAGE_SIZE] != data[j]
  }

  ghost predicate Apart(pt: PageTable, a: nat, va: nat, n: nat) {
    forall v: nat, w: nat ::
      Touches(va, n, v) && Touches(va, n, w) && v != w && (a, v) in pt && (a, w) in pt ==>
        pt[(a, v)].page != pt[(a, w)].page
  }

  /** The data differ from what every page touched holds, and no page frame is touched twice. */
  ghost predicate Telling(pt: PageTable, m: Memory, a: nat, va: nat, data: seq<Byte>)
    requires Whole(m)
  {
    && Apart(pt, a, va, |data|)
    && forall v: nat :: Touches(va, |data|, v) && (a, v) in m ==> Differs(m[(a, v)].bytes, v, va, data)
  }

  /** What is known after n bytes of the data have been written. */
  ghost predicate Progress(pt: PageTable, m: Memory, pt': PageTable, m': Memory,
                           a: nat, va: nat, data: seq<Byte>, n: nat)
    requires Whole(m)
  {
    && n <= |data| && m'.Keys == m.Keys
    && Evolves(pt, pt', a, va, n)
    && (Permitted(pt, a, va, n) ==> WriteBytes(m, a, va, data[..n]) == (m', Ok))
    && Unseen(pt, m, m', a, va, n) && Exact(pt, m, m', a, va, data, n)
    && (Apart(pt, a, va, |data|) ==> Landed(pt, m, m', a, va, data, n))
  }

  lemma ProgressNone(pt: PageTable, m: Memory, a: nat, va: nat, data: seq<Byte>)
    requires Whole(m)
    ensures Progress(pt, m, pt, m, a, va, data, 0)
  {
    EvolvesSelf(pt, a, va);
    forall k: Key | k in m
      ensures m[k].bytes == Layers(pt, m[k].bytes, a, va, data, 0, va / PAGE_SIZE + 1, k)
    {
      LayersNone(pt, m[k].bytes, a, va, data, va / PAGE_SIZE + 1, k);
    }
  }

  lemma {:induction false} LayersNone(pt: PageTable, f: Frame, a: nat, va: nat, data: seq<Byte>, v: nat, k: Key)
    ensures Layers(pt, f, a, va, data, 0, v, k) == f
    decreases v
  {
    if v > 0 { LayersNone(pt, f, a, va, data, v - 1, k); }
  }

  /** The c bytes after the first n of `total` are those that fall into one page. */
  ghost predicate Chunk(va: nat, n: nat, c: nat, total: nat) {
    && (n == 0 || (va + n) % PAGE_SIZE == 0)
    && 0 < c <= PAGE_SIZE - (va + n) % PAGE_SIZE && n + c <= total
    && (n + c == total || (va + n + c) % PAGE_SIZE == 0)
  }

  lemma TouchesMore(va: nat, n: nat, c: nat, total: nat, v: nat)
    requires Chunk(va, n, c, total)
    ensures Touches(va, n + c, v) <==> Touches(va, n, v) || v == (va + n) / PAGE_SIZE
    ensures Touches(va, n + c, v) ==> Touches(va, total, v)
    ensures !Touches(va, n, (va + n) / PAGE_SIZE)
  {
  }

  lemma ChunkOverlay(f: Frame, va: nat, data: seq<Byte>, n: nat, c: nat)
    requires |f| == PAGE_SIZE && Chunk(va, n, c, |data|)
    ensures Splice(f, (va + n) % PAGE_SIZE, data[n..n + c]) == Overlay(f, (va + n) / PAGE_SIZE, va, data, n + c)
  {
    var v, off := (va + n) / PAGE_SIZE, (va + n) % PAGE_SIZE;
    var r, g := Splice(f, off, data[n..n + c]), Overlay(f, v, va, data, n + c);
    assert v * PAGE_SIZE + off == va + n;
    assert forall i :: 0 <= i < PAGE_SIZE ==> r[i] == g[i];
  }

  lemma OverlayKept(f: Frame, v: nat, va: nat, data: seq<Byte>, n: nat, c: nat)
    requires |f| == PAGE_SIZE && Chunk(va, n, c, |data|) && Touches(va, n, v)
    ensures Overlay(f, v, va, data, n + c) == Overlay(f, v, va, data, n)
  {
  }

  lemma OverlayDiffers(f: Frame, v: nat, va: nat, data: seq<Byte>, n: nat)
    requires |f| == PAGE_SIZE && n <= |data| && Differs(f, v, va, data) && Touches(va, n, v)
    requires n == |data| || (va + n) % PAGE_SIZE == 0
    ensures Overlay(f, v, va, data, n) != f
  {
    var j :| 0 <= j < |data| && (va + j) / PAGE_SIZE == v && f[(va + j) % PAGE_SIZE] != data[j];
    var g, i := Overlay(f, v, va, data, n), (va + j) % PAGE_SIZE;
    assert j < n && v * PAGE_SIZE + i == va + j;
    assert g[i] == data[j];
  }

  /** The next chunk adds nothing to the layers of the pages before it. */
  lemma {:induction false} LayersKept(pt: PageTable, f: Frame, a: nat, va: nat, data: seq<Byte>, n: nat, c: nat, v: nat,
                                      k: Key)
    requires |f| == PAGE_SIZE && Chunk(va, n, c, |data|) && v <= (va + n) / PAGE_SIZE
    ensures Layers(pt, f, a, va, data, n + c, v, k) == Layers(pt, f, a, va, data, n, v, k)
    decreases v
  {
    if v > 0 {
      LayersKept(pt, f, a, va, data, n, c, v - 1, k);
      SeesKept(pt, a, va, n, c, |data|, v - 1, k);
      hide Sees, Chunk, Overlay;
      if Sees(pt, a, va, n, v - 1, k) {
        SeesTouches(pt, a, va, n, v - 1, k);
        OverlayKept(Layers(pt, f, a, va, data, n, v - 1, k), v - 1, va, data, n, c);
      }
    }
  }

  lemma SeesTouches(pt: PageTable, a: nat, va: nat, n: nat, v: nat, k: Key)
    requires Sees(pt, a, va, n, v, k)
    ensures Touches(va, n, v)
  {
  }

  lemma SeesKept(pt: PageTable, a: nat, va: nat, n: nat, c: nat, total: nat, v: nat, k: Key)
    requires Chunk(va, n, c, total) && v < (va + n) / PAGE_SIZE
    ensures Sees(pt, a, va, n + c, v, k) <==> Sees(pt, a, va, n, v, k)
  {
    TouchesMore(va, n, c, total, v);
    TouchesMore(va, n, c, total, k.1);
    hide Touches, Chunk, Reach;
  }

  /** Who sees the next chunk. */
  lemma SeesNext(pt: PageTable, pt': PageTable, a: nat, va: nat, n: nat, c: nat, total: nat, k: Key)
    requires Chunk(va, n, c, total) && Evolves(pt, pt', a, va, n) && (a, (va + n) / PAGE_SIZE) in pt
    ensures Sees(pt, a, va, n + c, (va + n) / PAGE_SIZE, k) <==> k in Reach(pt', (a, (va + n) / PAGE_SIZE))
  {
    var page := (va + n) / PAGE_SIZE;
    TouchesMore(va, n, c, total, page);
    TouchesMore(va, n, c, total, k.1);
    if Touches(va, n, k.1) { TouchesBelow(va, n, k.1); }
    hide Touches, Chunk, Reach, Evolves;
    ReachNow(pt, pt', a, va, n, (a, page), k);
  }

  lemma TouchesBelow(va: nat, n: nat, v: nat)
    requires Touches(va, n, v) && (va + n) % PAGE_SIZE == 0
    ensures v < (va + n) / PAGE_SIZE
  {
  }

  /** The memory after the next chunk. */
  ghost function Next(pt: PageTable, m: Memory, a: nat, va: nat, data: seq<Byte>, n: nat, c: nat): (r: Memory)
    requires Whole(m) && Chunk(va, n, c, |data|) && (a, (va + n) / PAGE_SIZE) in pt
    ensures Whole(r) && r.Keys == m.Keys
    ensures forall k: Key :: k in m && k !in Reach(pt, (a, (va + n) / PAGE_SIZE)) ==> r[k] == m[k]
    ensures forall k: Key :: k in m && k in Reach(pt, (a, (va + n) / PAGE_SIZE)) ==>
      r[k].bytes == Splice(m[k].bytes, (va + n) % PAGE_SIZE, data[n..n + c])
  {
    Stored(m, Reach(pt, (a, (va + n) / PAGE_SIZE)), (va + n) % PAGE_SIZE, data[n..n + c])
  }

  lemma StepUnseen(pt: PageTable, m: Memory, pt': PageTable, m': Memory,
                   a: nat, va: nat, data: seq<Byte>, n: nat, c: nat)
    requires Whole(m) && Whole(m') && Progress(pt, m, pt', m', a, va, data, n) && Chunk(va, n, c, |data|)
    requires (a, (va + n) / PAGE_SIZE) in pt
    ensures Unseen(pt, m, Next(pt', m', a, va, data, n, c), a, va, n + c)
  {
    hide WriteBytes, Apart, Landed, Touches, Splice, Permitted, Chunk, Next;
    var key := (a, (va + n) / PAGE_SIZE);
    var r := Next(pt', m', a, va, data, n, c);
    forall k: Key | k in m && k in r && OutOfReach(pt, a, va, n + c, k) ensures r[k] == m[k] {
      forall v: nat { TouchesMore(va, n, c, |data|, v); }
      assert OutOfReach(pt, a, va, n, k);
      assert k !in Reach(pt, key);
    }
  }

  /** After the next chunk the last layer is that of its page. */
  lemma LayersNext(pt: PageTable, f: Frame, a: nat, va: nat, data: seq<Byte>, n: nat, c: nat, k: Key)
    requires |f| == PAGE_SIZE && Chunk(va, n, c, |data|)
    ensures var page := (va + n) / PAGE_SIZE; var g := Layers(pt, f, a, va, data, n, page + 1, k);
      Layers(pt, f, a, va, data, n + c, (va + n + c) / PAGE_SIZE + 1, k) ==
        if Sees(pt, a, va, n + c, page, k) then Splice(g, (va + n) % PAGE_SIZE, data[n..n + c]) else g
  {
    var page, end := (va + n) / PAGE_SIZE, (va + n + c) / PAGE_SIZE;
    TouchesMore(va, n, c, |data|, page);
    assert !Sees(pt, a, va, n, page, k);
    assert end == page || (end == page + 1 && !Touches(va, n + c, end));
    assert end == page + 1 ==> !Sees(pt, a, va, n + c, end, k);
    LayersKept(pt, f, a, va, data, n, c, page, k);
    ChunkOverlay(Layers(pt, f, a, va, data, n, page, k), va, data, n, c);
    hide Sees, Overlay, Splice;
  }

  lemma {:induction false} StepExact(pt: PageTable, m: Memory, pt': PageTable, m': Memory,
                                     a: nat, va: nat, data: seq<Byte>, n: nat, c: nat)
    requires Whole(m) && Whole(m') && Progress(pt, m, pt', m', a, va, data, n) && Chunk(va, n, c, |data|)
    requires (a, (va + n) / PAGE_SIZE) in pt
    ensures Exact(pt, m, Next(pt', m', a, va, data, n, c), a, va, data, n + c)
  {
    hide WriteBytes, Apart, Landed, Touches, Permitted, Unseen, Layers, Sees, Splice, Reach;
    var r := Next(pt', m', a, va, data, n, c);
    forall k: Key | k in m
      ensures r[k] == m[k].(bytes := Layers(pt, m[k].bytes, a, va, data, n + c, (va + n + c) / PAGE_SIZE + 1, k))
    {
      SeesNext(pt, pt', a, va, n, c, |data|, k);
      LayersNext(pt, m[k].bytes, a, va, data, n, c, k);
    }
  }

  /** No key of another space is reached from two pages that have different frames. */
  lemma ReachApart(pt: PageTable, a: nat, va: nat, n: nat, v: nat, w: nat, k: Key)
    requires Apart(pt, a, va, n) && Touches(va, n, v) && Touches(va, n, w) && v != w
    requires (a, v) in pt && (a, w) in pt && k.0 != a && k in Reach(pt, (a, v))
    ensures k !in Reach(pt, (a, w))
  {
  }

  lemma StepLanded(pt: PageTable, mem: seq<Frame>, pt': PageTable, m': Memory,
                   a: nat, va: nat, data: seq<Byte>, n: nat, c: nat, v: nat, k: Key)
    requires Backed(pt, mem) && Whole(m') && Progress(pt, Seen(pt, mem), pt', m', a, va, data, n)
    requires Chunk(va, n, c, |data|) && (a, (va + n) / PAGE_SIZE) in pt && Apart(pt, a, va, |data|)
    requires Touches(va, n + c, v) && (a, v) in pt && k in Reach(pt, (a, v)) && k.0 != a && k in pt
    ensures Next(pt', m', a, va, data, n, c)[k].bytes == Overlay(Seen(pt, mem)[k].bytes, v, va, data, n + c)
  {
    hide WriteBytes, Permitted, Chunk, Next, Splice, Overlay, Touches;
    var m, page := Seen(pt, mem), (va + n) / PAGE_SIZE;
    TouchesMore(va, n, c, |data|, v);
    TouchesMore(va, n, c, |data|, page);
    if v == page {
      assert OutOfReach(pt, a, va, n, k) by {
        forall w: nat | Touches(va, n, w) && (a, w) in pt ensures k !in Reach(pt, (a, w)) {
          TouchesMore(va, n, c, |data|, w);
          ReachApart(pt, a, va, |data|, v, w, k);
        }
      }
      ChunkOverlay(m[k].bytes, va, data, n, c);
      assert k in Reach(pt', (a, v));
    } else {
      ReachApart(pt, a, va, |data|, v, page, k);
      assert k !in Reach(pt', (a, page));
      OverlayKept(m[k].bytes, v, va, data, n, c);
    }
  }

  lemma PermittedLess(pt: PageTable, a: nat, va: nat, n: nat, c: nat, total: nat)
    requires Chunk(va, n, c, total) && (a, (va + n) / PAGE_SIZE) in pt && Permitted(pt, a, va, n + c)
    ensures Permitted(pt, a, va, n)
    ensures var k := (a, (va + n) / PAGE_SIZE); Reach(pt, k) == {k}
  {
    TouchesMore(va, n, c, total, (va + n) / PAGE_SIZE);
    forall v: nat | Touches(va, n, v) && (a, v) in pt ensures Reach(pt, (a, v)) == {(a, v)} {
      TouchesMore(va, n, c, total, v);
    }
  }

  lemma {:induction false} StepWritten(pt: PageTable, m: Memory, pt': PageTable, m': Memory,
                    a: nat, va: nat, data: seq<Byte>, n: nat, c: nat)
    requires Whole(m) && Whole(m') && Progress(pt, m, pt', m', a, va, data, n) && Chunk(va, n, c, |data|)
    requires pt.Keys == m.Keys && (a, (va + n) / PAGE_SIZE) in pt && Permitted(pt, a, va, n + c)
    ensures WriteBytes(m, a, va, data[..n + c]) == (Next(pt', m', a, va, data, n, c), Ok)
  {
    hide WriteBytes, Unseen, Apart, Landed, Touches, Splice, Stored;
    var key := (a, (va + n) / PAGE_SIZE);
    PermittedLess(pt, a, va, n, c, |data|);
    assert Reach(pt', key) == {key};
    hide Reach, Chunk, Permitted, Evolves;
    WriteChunk(m', a, va + n, data[n..n + c]);
    WriteAppend(m, a, va, data[..n], data[n..n + c]);
    assert data[..n] + data[n..n + c] == data[..n + c];
  }

  lemma {:induction false} ProgressStep(pt: PageTable, mem: seq<Frame>, pt': PageTable, m': Memory, pt2: PageTable,
                     a: nat, va: nat, data: seq<Byte>, n: nat, c: nat)
    requires Backed(pt, mem) && Whole(m') && Progress(pt, Seen(pt, mem), pt', m', a, va, data, n)
    requires Chunk(va, n, c, |data|) && (a, (va + n) / PAGE_SIZE) in pt && Evolves(pt', pt2, a, va + n, c)
    ensures Progress(pt, Seen(pt, mem), pt2, Next(pt', m', a, va, data, n, c), a, va, data, n + c)
  {
    var m, r := Seen(pt, mem), Next(pt', m', a, va, data, n, c);
    EvolvesTrans(pt, pt', pt2, a, va, n, c);
    StepUnseen(pt, m, pt', m', a, va, data, n, c);
    StepExact(pt, m, pt', m', a, va, data, n, c);
    if Permitted(pt, a, va, n + c) { StepWritten(pt, m, pt', m', a, va, data, n, c); }
    if Apart(pt, a, va, |data|) {
      forall v: nat, k: Key | Touches(va, n + c, v) && (a, v) in pt && k in Reach(pt, (a, v)) && k.0 != a && k in m
        ensures r[k].bytes == Overlay(m[k].bytes, v, va, data, n + c)
      {
        StepLanded(pt, mem, pt', m', a, va, data, n, c, v, k);
      }
    }
    hide Overlay, Apart;
    hide WriteBytes, Unseen, Touches, Splice, Next, Permitted, Chunk, Evolves, Seen;
  }

  lemma {:induction false} ChunkFits(pt: PageTable, m: Memory, pt': PageTable, m': Memory,
                                     a: nat, va: nat, data: seq<Byte>, n: nat, c: nat)
    requires Whole(m) && Progress(pt, m, pt', m', a, va, data, n) && Chunk(va, n, c, |data|)
    ensures pt'.Keys == pt.Keys && 0 < c && (va + n) % PAGE_SIZE + c <= PAGE_SIZE
    ensures var k := (a, (va + n) / PAGE_SIZE); k in pt ==> pt'[k] == pt[k]
  {
    TouchesMore(va, n, c, |data|, (va + n) / PAGE_SIZE);
    hide Touches, Landed, Unseen, Permitted, WriteBytes, Reach, Apart;
  }

  lemma NextIs(pt: PageTable, m: Memory, a: nat, va: nat, data: seq<Byte>, n: nat, chunk: seq<Byte>)
    requires Whole(m) && Chunk(va, n, |chunk|, |data|) && chunk == data[n..n + |chunk|]
    requires (a, (va + n) / PAGE_SIZE) in pt
    ensures Next(pt, m, a, va, data, n, |chunk|) ==
      Stored(m, Reach(pt, (a, (va + n) / PAGE_SIZE)), (va + n) % PAGE_SIZE, chunk)
  {
    hide Reach, Stored;
  }

  lemma {:induction false} StepDone(pt: PageTable, mem: seq<Frame>, pt': PageTable, m': Memory, pt2: PageTable,
                                    m2: Memory, a: nat, va: nat, data: seq<Byte>, n: nat, chunk: seq<Byte>)
    requires Backed(pt, mem) && Whole(m') && Progress(pt, Seen(pt, mem), pt', m', a, va, data, n)
    requires Chunk(va, n, |chunk|, |data|) && chunk == data[n..n + |chunk|] && (a, (va + n) / PAGE_SIZE) in pt
    requires Evolves(pt', pt2, a, va + n, |chunk|) && (a, (va + n) / PAGE_SIZE) in pt'
    requires m2 == Stored(m', Reach(pt', (a, (va + n) / PAGE_SIZE)), (va + n) % PAGE_SIZE, chunk)
    ensures Progress(pt, Seen(pt, mem), pt2, m2, a, va, data, n + |chunk|)
  {
    hide Progress, Next, Stored, Reach, Evolves, Chunk, Seen;
    NextIs(pt', m', a, va, data, n, chunk);
    ProgressStep(pt, mem, pt', m', pt2, a, va, data, n, |chunk|);
  }

  /** No page touched is leaky. */
  ghost predicate Tight(pt: PageTable, a: nat, va: nat, n: nat) {
    forall v: nat :: Touches(va, n, v) ==> !Leaky(pt, (a, v))
  }

  /** The other spaces see what they saw. */
  ghost predicate Isolated(m: Memory, m': Memory, a: nat) {
    forall k: Key :: k in m && k in m' && k.0 != a ==> m'[k] == m[k]
  }

  lemma LeakShows(pt: PageTable, mem: seq<Frame>, pt': PageTable, m': Memory,
                  a: nat, va: nat, data: seq<Byte>, n: nat, v: nat)
    requires Backed(pt, mem) && Progress(pt, Seen(pt, mem), pt', m', a, va, data, n)
    requires n == |data| || (va + n) % PAGE_SIZE == 0
    requires Telling(pt, Seen(pt, mem), a, va, data) && Touches(va, n, v) && Leaky(pt, (a, v))
    ensures !Isolated(Seen(pt, mem), m', a)
  {
    hide WriteBytes, Permitted, Evolves, Overlay, Differs;
    var m := Seen(pt, mem);
    var k: Key :| k in Reach(pt, (a, v)) && k.0 != a;
    assert m[k].bytes == m[(a, v)].bytes;
    OverlayDiffers(m[k].bytes, v, va, data, n);
  }

  lemma IsolatedIff(pt: PageTable, mem: seq<Frame>, pt': PageTable, m': Memory,
                    a: nat, va: nat, data: seq<Byte>, n: nat)
    requires Backed(pt, mem) && Progress(pt, Seen(pt, mem), pt', m', a, va, data, n)
    requires n == |data| || n == 0 || (va + n) % PAGE_SIZE == 0
    ensures Tight(pt, a, va, n) ==> Isolated(Seen(pt, mem), m', a)
    ensures Telling(pt, Seen(pt, mem), a, va, data) ==> (Isolated(Seen(pt, mem), m', a) <==> Tight(pt, a, va, n))
  {
    hide WriteBytes, Telling, Permitted, Evolves, Landed, Apart;
    var m := Seen(pt, mem);
    if Tight(pt, a, va, n) {
      forall k: Key | k in m && k.0 != a ensures m'[k] == m[k] {
        forall v: nat | Touches(va, n, v) && (a, v) in pt ensures k !in Reach(pt, (a, v)) {
          assert !Leaky(pt, (a, v));
        }
        assert OutOfReach(pt, a, va, n, k);
      }
    } else if Telling(pt, m, a, va, data) {
      var v: nat :| Touches(va, n, v) && Leaky(pt, (a, v));
      LeakShows(pt, mem, pt', m', a, va, data, n, v);
    }
  }

  /** One store is invisible to the other spaces if and only if the page is not leaky or nothing changes. */
  lemma StoreIsolatedIff(pt: PageTable, mem: seq<Frame>, k: Key, off: nat, data: seq<Byte>)
    requires Backed(pt, mem) && k in pt && off + |data| <= PAGE_SIZE
    ensures Isolated(Seen(pt, mem), Stored(Seen(pt, mem), Reach(pt, k), off, data), k.0)
       <==> !Leaky(pt, k) || data == mem[pt[k].page][off..off + |data|]
  {
    var m, f := Seen(pt, mem), mem[pt[k].page];
    var g := Splice(f, off, data);
    assert g == f <==> data == f[off..off + |data|] by {
      assert g[off..off + |data|] == data;
      if data == f[off..off + |data|] {
        assert forall i :: off <= i < off + |data| ==> f[i] == data[i - off];
      }
    }
    hide Splice;
    if Leaky(pt, k) {
      var k': Key :| k' in Reach(pt, k) && k'.0 != k.0;
      assert m[k'].bytes == f;
      if g == f {
        forall x: Key | x in Reach(pt, k) && x in m ensures m[x].bytes == f {}
      }
    }
  }

  /** What a copy that stopped after n bytes has done. */
  ghost predicate CopyResult(pt: PageTable, m: Memory, m': Memory, a: nat, va: nat, data: seq<Byte>, n: nat, s: Status)
    requires Whole(m)
  {
    && (s == Ok <==> n == |data|) && Exact(pt, m, m', a, va, data, n)
    && (Permitted(pt, a, va, n) ==> WriteBytes(m, a, va, data[..n]) == (m', Ok))
    && (Permitted(pt, a, va, n) && s != OutOfMemory ==> WriteBytes(m, a, va, data) == (m', s))
    && (Apart(pt, a, va, |data|) ==> Landed(pt, m, m', a, va, data, n))
    && (Tight(pt, a, va, n) ==> Isolated(m, m', a))
    && (Telling(pt, m, a, va, data) ==> (Isolated(m, m', a) <==> Tight(pt, a, va, n)))
  }

  lemma {:induction false} Finish(pt: PageTable, mem: seq<Frame>, pt': PageTable, m': Memory,
                                  a: nat, va: nat, data: seq<Byte>, n: nat, s: Status)
    requires Backed(pt, mem) && Progress(pt, Seen(pt, mem), pt', m', a, va, data, n)
    requires n == |data| || n == 0 || (va + n) % PAGE_SIZE == 0
    requires s == Ok <==> n == |data|
    requires s == Fault ==> (a, (va + n) / PAGE_SIZE) !in pt
    ensures CopyResult(pt, Seen(pt, mem), m', a, va, data, n, s) && Evolves(pt, pt', a, va, n)
  {
    hide Evolves, Unseen, Telling, Apart, Landed, Tight, Isolated, Seen, Permitted, WriteBytes;
    IsolatedIff(pt, mem, pt', m', a, va, data, n);
    var m := Seen(pt, mem);
    assert data == data[..|data|];
    if Permitted(pt, a, va, n) && s == Fault {
      assert data[..n] + data[n..] == data;
      WriteAppend(m, a, va, data[..n], data[n..]);
      WriteFaults(m', a, va + n, data[n..]);
    }
  }

  lemma WriteFaults(m: Memory, a: nat, va: nat, data: seq<Byte>)
    requires Whole(m) && data != [] && (a, va / PAGE_SIZE) !in m
    ensures WriteBytes(m, a, va, data) == (m, Fault)
  {
  }

  /** The store of the code, once the page is settled. */
  lemma StoreSeen(pt: PageTable, mem: seq<Frame>, k: Key, off: nat, data: seq<Byte>)
    requires Backed(pt, mem) && k in pt && off + |data| <= PAGE_SIZE
    ensures var mem' := mem[pt[k].page := Splice(mem[pt[k].page], off, data)];
      Backed(pt, mem') && Seen(pt, mem') == Stored(Seen(pt, mem), Mappings(pt, pt[k].page), off, data)
  {
  }

  lemma ChunkEvolves(pt: PageTable, pt': PageTable, k: Key, va: nat, n: nat)
    requires k in pt && k in pt' && k.1 == va / PAGE_SIZE && 0 < n <= PAGE_SIZE - va % PAGE_SIZE
    requires if pt[k].flags.cow
      then pt' == pt[k := pt'[k]] && !pt'[k].flags.cow && Mappings(pt, pt'[k].page) <= {k}
      else pt' == pt
    ensures Evolves(pt, pt', k.0, va, n)
  {
    if pt[k].flags.cow {
      PrivateEvolves(pt, k, pt'[k], va, n);
    } else {
      forall v: nat ensures Touches(va, n, v) <==> v == k.1 {}
      assert forall x: Key :: !Split(pt, k.0, va, n, x);
    }
  }

  /** Copy-on-write cannot be broken: the page is shared and none is free. */
  ghost predicate Stuck(pt: PageTable, free: set<nat>, k: Key) {
    k in pt && pt[k].flags.cow && Mappings(pt, pt[k].page) != {k} && free == {}
  }

  lemma StuckMeans(pt: PageTable, free: set<nat>, k: Key)
    ensures Stuck(pt, free, k) ==> k in pt && pt[k].flags.cow && free == {}
  {
  }

  // ---- Clones and ranges ---------------------------------------------------------------------------------

  /** The entry both spaces have after a clone. */
  function Shared(e: Entry): Entry {
    if e.flags.write then Entry(e.page, e.flags.(write := false, cow := true)) else e
  }

  /** A copy-on-write entry for the page of a writable one; any other entry unchanged. */
  ghost predicate CloneOf(e: Entry, e': Entry) {
    && e'.page == e.page && e'.flags.other == e.flags.other
    && !e'.flags.write && (e'.flags.cow <==> e.flags.write || e.flags.cow)
  }

  /** The entries of the range are shared by both spaces, and no entry outside it changed. */
  ghost predicate Cloned(pt: PageTable, pt': PageTable, src: nat, dst: nat, first: nat, last: nat) {
    && (forall k: Key :: k in pt' <==> k in pt || (k.0 == dst && first <= k.1 < last && (src, k.1) in pt))
    && (forall v: nat :: first <= v < last && (src, v) in pt ==>
          pt'[(dst, v)] == pt'[(src, v)] && CloneOf(pt[(src, v)], pt'[(src, v)]))
    && (forall k: Key :: k in pt && !((k.0 == src || k.0 == dst) && first <= k.1 < last) ==> pt'[k] == pt[k])
  }

  lemma ClonedNone(pt: PageTable, src: nat, dst: nat, first: nat)
    ensures forall last: nat :: last <= first ==> Cloned(pt, pt, src, dst, first, last)
  {
  }

  lemma ClonedStep(pt: PageTable, mid: PageTable, pt': PageTable, src: nat, dst: nat, first: nat, v: nat)
    requires Cloned(pt, mid, src, dst, first, v) && src != dst && first <= v && (src, v) in mid
    requires pt' == mid[(src, v) := Shared(mid[(src, v)])][(dst, v) := Shared(mid[(src, v)])]
    ensures Cloned(pt, pt', src, dst, first, v + 1)
  {
    assert mid[(src, v)] == pt[(src, v)];
  }

  /** Taking the write permission away for a clone keeps writable entries alone on their pages. */
  lemma SharedExclusive(pt: PageTable, k: Key)
    requires Exclusive(pt) && k in pt
    ensures Exclusive(pt[k := Shared(pt[k])])
  {
    var e := Shared(pt[k]);
    assert k in Mappings(pt, pt[k].page);
    RemapExclusive(pt, k, e);
  }

  lemma SharedAgain(pt: PageTable, k: Key, k': Key)
    requires Exclusive(pt) && k in pt && !pt[k].flags.write && k' != k
    ensures Exclusive(pt[k' := pt[k]])
  {
    assert k in Mappings(pt, pt[k].page);
    RemapExclusive(pt, k', pt[k]);
  }

  lemma CloneSeen(pt: PageTable, mem: seq<Frame>, pt': PageTable, src: nat, dst: nat, v: nat)
    requires Backed(pt, mem) && src != dst && (src, v) in pt
    requires pt' == pt[(src, v) := Shared(pt[(src, v)])][(dst, v) := Shared(pt[(src, v)])]
    ensures Backed(pt', mem) && Seen(pt', mem) == Seen(pt, mem)[(dst, v) := Seen(pt, mem)[(src, v)]]
  {
  }

  /** Exactly the pages that had a mapping in pt and have none in pt' were given back. */
  ghost predicate Releases(pt: PageTable, free: set<nat>, pt': PageTable, free': set<nat>) {
    forall p: nat :: p in free' <==> p in free || (Mappings(pt, p) != {} && Mappings(pt', p) == {})
  }

  lemma ReleasesNone(pt: PageTable, free: set<nat>)
    ensures Releases(pt, free, pt, free)
  {
  }

  lemma FreeUnmapped(pt: PageTable, refs: seq<nat>, free: set<nat>, q: nat)
    requires Counted(pt, refs, free, {}) && q in free
    ensures Mappings(pt, q) == {}
  {
    assert forall k: Key :: k in Mappings(pt, q) ==> k in pt && pt[k].page == q;
  }

  lemma ReleasesOne(pt: PageTable, refs: seq<nat>, free: set<nat>, k: Key)
    requires Counted(pt, refs, free, {}) && k in pt
    ensures var p := pt[k].page;
      Releases(pt, free, pt - {k}, free + if Mappings(pt, p) == {k} then {p} else {})
  {
    var p := pt[k].page;
    CountOf(pt, refs, free, {}, k);
    hide Mappings, Counted;
    var free' := free + if Mappings(pt, p) == {k} then {p} else {};
    forall q: nat ensures q in free' <==> q in free || (Mappings(pt, q) != {} && Mappings(pt - {k}, q) == {}) {
      UnmapCounts(pt, k, q);
      if q in free { FreeUnmapped(pt, refs, free, q); }
    }
  }

  lemma ReleasesTrans(p: PageTable, f: set<nat>, q: PageTable, g: set<nat>, r: PageTable, h: set<nat>)
    requires Releases(p, f, q, g) && Releases(q, g, r, h)
    requires forall k: Key :: k in q ==> k in p && p[k] == q[k]
    requires forall k: Key :: k in r ==> k in q && q[k] == r[k]
    ensures Releases(p, f, r, h)
  {
    forall x: nat ensures Mappings(r, x) <= Mappings(q, x) <= Mappings(p, x) {}
  }

  lemma UnmapSeen(pt: PageTable, mem: seq<Frame>, k: Key)
    requires Backed(pt, mem)
    ensures Backed(pt - {k}, mem) && Seen(pt - {k}, mem) == Seen(pt, mem) - {k}
  {
  }

  lemma MapZeroedSeen(pt: PageTable, mem: seq<Frame>, k: Key, e: Entry)
    requires Backed(pt, mem) && e.page < |mem| && Mappings(pt, e.page) == {}
    ensures var mem' := mem[e.page := Zeros(PAGE_SIZE)];
      Backed(pt[k := e], mem') &&
      Seen(pt[k := e], mem') ==
        Seen(pt, mem)[k := Cell(Zeros(PAGE_SIZE), e.flags.write || e.flags.cow, e.flags.other)]
  {
    assert forall k': Key :: k' in pt && pt[k'].page == e.page ==> k' in Mappings(pt, e.page);
  }

  /** A cell the process may write to is seen by its own key only. */
  lemma WritablePermitted(pt: PageTable, mem: seq<Frame>, a: nat, va: nat, n: nat)
    requires Backed(pt, mem) && Exclusive(pt) && Writable(Seen(pt, mem), a, va, n)
    ensures forall c: nat :: c <= n ==> Permitted(pt, a, va, c)
  {
  }

  lemma WritableBounds(m: Memory, a: nat, va: nat, n: nat)
    requires Writable(m, a, va, n)
    ensures va < VIRT_KERNEL_BASE && va + n < ADDRESS_LIMIT
  {
  }

  /** On writable cells a copy is a write to private memory. */
  lemma {:induction false} CopyEffect(pt: PageTable, mem: seq<Frame>, m': Memory,
                                      a: nat, va: nat, data: seq<Byte>, n: nat, s: Status)
    requires Backed(pt, mem) && Exclusive(pt) && Writable(Seen(pt, mem), a, va, |data|)
    requires CopyResult(pt, Seen(pt, mem), m', a, va, data, n, s)
    ensures s != OutOfMemory ==> m' == WriteBytes(Seen(pt, mem), a, va, data).0
  {
    hide Exclusive, Seen, Permitted, Writable, Landed, Tight, Isolated, Telling, WriteBytes;
    WritablePermitted(pt, mem, a, va, |data|);
  }

  /** Space a maps none of the pages. */
  ghost predicate Bare(pt: PageTable, a: nat, first: nat, last: nat) {
    forall v: nat :: first <= v < last ==> (a, v) !in pt
  }

  lemma BareNext(pt: PageTable, e: Entry, a: nat, v: nat, last: nat)
    requires v < last
    ensures Bare(pt, a, v, last) ==> (a, v) !in pt && Bare(pt[(a, v) := e], a, v + 1, last)
  {
  }

  /** The range given back covers the pages mapped so far. */
  lemma RollbackRange(va: nat, v: nat)
    requires va % PAGE_SIZE == 0 && v >= va / PAGE_SIZE
    ensures EndPage(va, (v - va / PAGE_SIZE) * PAGE_SIZE) == v
  {
  }

  /** The number of free pages the operation may ask for. */
  function Demand(op: Op): nat {
    match op
    case Write(_, _, _) => 1
    case Wipe(_, _, _) => 1
    case WriteFault(_, _) => 1
    case Map(_, va, n, _, _, _) => if EndPage(va, n) > FirstPage(va) then EndPage(va, n) - FirstPage(va) else 0
    case Unmap(_, _, _) => 0
    case Clone(_, _, _, _) => 0
  }

  class VmSystem {
    /** Pages the page allocator has; see PageAlloc.PageAllocator.AllocOne and FreeOne. */
    var free: set<nat>
    var refs: seq<nat>
    var mem: seq<Frame>
    var pt: PageTable

    constructor (pages: set<nat>, count: nat)
      requires forall p :: p in pages ==> p < count
      ensures Valid() && free == pages && pt == map[] && |refs| == count
    {
      free := pages;
      refs := seq(count, i => 0);
      mem := seq(count, i => Zeros(PAGE_SIZE));
      pt := map[];
    }

    ghost predicate Sound(held: set<nat>)
      reads this
    {
      && |refs| == |mem|
      && (forall p :: p in free ==> p < |refs|)
      && Backed(pt, mem)
      && Counted(pt, refs, free, held)
    }

    ghost predicate Valid()
      reads this
    {
      Sound({}) && Exclusive(pt)
    }

    /** The memory the spaces see. */
    ghost function View(): (m: Memory)
      requires Backed(pt, mem)
      reads this
      ensures Whole(m) && m.Keys == pt.Keys
    {
      Seen(pt, mem)
    }

    /** Allocate one page and fill it with zeros. */
    method AllocZeroed() returns (r: Option<nat>)
      requires Sound({})
      modifies this`free, this`mem
      ensures Sound({})
      ensures r.None? <==> old(free) == {}
      ensures r.None? ==> free == old(free) && mem == old(mem)
      ensures r.Some? ==> var p := r.value;
        && p in old(free) && free == old(free) - {p}
        && refs[p] == 0 && Mappings(pt, p) == {}
        && mem == old(mem)[p := Zeros(PAGE_SIZE)]
      ensures View() == old(View())
    {
      hide Counted, Mappings, Seen;
      if free == {} {
        return None;
      }
      var p :| p in free;
      TakeCounted(pt, refs, free, p);
      UnmappedStore(pt, mem, p, Zeros(PAGE_SIZE));
      free := free - {p};
      mem := mem[p := Zeros(PAGE_SIZE)];
      return Some(p);
    }

    /**
     * Unmap a page.  It goes back to the page allocator exactly when this was its last
     * reference: no other entry maps it and the caller does not hold it.
     */
    method PageRemove(k: Key, ghost held: set<nat>)
      requires Sound(held)
      modifies this`refs, this`pt, this`free
      ensures Sound(held) && pt == old(pt) - {k}
      ensures k !in old(pt) ==> free == old(free)
      ensures k in old(pt) ==> var p := old(pt[k].page);
        free == old(free) + if Mappings(old(pt), p) == {k} && p !in held then {p} else {}
    {
      hide Counted, Mappings, Seen;
      if k !in pt {
        return;
      }
      CountOf(pt, refs, free, held, k);
      UnmapCounted(pt, refs, free, held, k);
      var p := pt[k].page;
      refs := refs[p := refs[p] - 1];
      if refs[p] == 0 {
        free := free + {p};
      }
      pt := pt - {k};
    }

    method PageInsert(k: Key, page: nat, flags: Flags)
      requires Sound({}) && page < |refs| && page !in free
      requires refs[page] == |Mappings(pt, page)|
      modifies this`refs, this`pt, this`free
      ensures Sound({}) && pt == old(pt)[k := Entry(page, flags)]
      ensures k !in old(pt) || old(pt[k].page) == page ==> free == old(free)
      ensures k in old(pt) && old(pt[k].page) != page ==> var p := old(pt[k].page);
        free == old(free) + if Mappings(old(pt), p) == {k} then {p} else {}
    {
      hide Counted, Mappings, Seen;
      HoldCounted(pt, refs, free, page);
      refs := refs[page := refs[page] + 1];
      PageRemove(k, {page});
      MapCounted(pt, refs, free, k, Entry(page, flags));
      assert (old(pt) - {k})[k := Entry(page, flags)] == old(pt)[k := Entry(page, flags)];
      pt := pt[k := Entry(page, flags)];
    }

    /** Make the entry writable and point it at a page with the same bytes that nothing else maps. */
    method Privatize(k: Key, page: nat)
      requires Valid() && k in pt && pt[k].flags.cow && page < |refs| && page !in free && Mappings(pt, page) <= {k}
      requires refs[page] == |Mappings(pt, page)| && mem[page] == mem[pt[k].page]
      requires pt[k].page == page || Mappings(pt, pt[k].page) != {k}
      modifies this`refs, this`pt, this`free
      ensures Valid() && free == old(free)
      ensures pt == old(pt)[k := Entry(page, old(pt[k].flags).(write := true, cow := false))]
      ensures Mappings(pt, page) == {k}
      ensures View() == old(View())
    {
      hide Counted, Mappings, Exclusive, Seen;
      var flags := pt[k].flags.(write := true, cow := false);
      PrivateEntry(pt, mem, k, Entry(page, flags));
      PageInsert(k, page, flags);
    }

    /** Give the entry a private, writable page; what is seen does not change. */
    method PageCow(k: Key) returns (s: Status)
      requires Valid() && k in pt && pt[k].flags.cow
      modifies this
      ensures Valid()
      ensures s == if Stuck(old(pt), old(free), k) then OutOfMemory else Ok
      ensures s == Ok ==>
        && k in pt && pt == old(pt)[k := Entry(pt[k].page, old(pt[k].flags).(write := true, cow := false))]
        && Mappings(pt, pt[k].page) == {k} && Mappings(old(pt), pt[k].page) <= {k}
        && free <= old(free)
      ensures s != Ok ==> pt == old(pt) && mem == old(mem) && free == old(free)
      ensures View() == old(View())
    {
      hide Counted, Mappings, Exclusive, Seen;
      var page := pt[k].page;
      CountOf(pt, refs, free, {}, k);
      if refs[page] == 1 {
        Privatize(k, page);
        return Ok;
      }
      var r := AllocZeroed();
      if r.None? {
        return OutOfMemory;
      }
      UnmappedStore(pt, mem, r.value, mem[page]);
      mem := mem[r.value := mem[page]];
      Privatize(k, r.value);
      return Ok;
    }

    /** Find the page to write to, breaking copy-on-write first. */
    method LookupCow(a: nat, va: nat) returns (s: Status, page: nat)
      requires Valid()
      modifies this
      ensures Valid()
      ensures var k := (a, va / PAGE_SIZE);
        s == if k !in old(pt) then Fault else if Stuck(old(pt), old(free), k) then OutOfMemory else Ok
      ensures s == Ok ==> var k := (a, va / PAGE_SIZE);
        && k in pt && page == pt[k].page && Mappings(pt, page) == Reach(old(pt), k) && free <= old(free)
        && (if old(pt)[k].flags.cow
            then pt == old(pt)[k := pt[k]] && !pt[k].flags.cow && Mappings(old(pt), page) <= {k}
            else pt == old(pt))
      ensures s != Ok ==> pt == old(pt) && mem == old(mem) && free == old(free)
      ensures View() == old(View())
    {
      hide Counted, Mappings, Exclusive, Seen;
      var k := (a, va / PAGE_SIZE);
      page := 0;
      if k !in pt {
        return Fault, 0;
      }
      if pt[k].flags.cow {
        s := PageCow(k);
        if s != Ok {
          return s, 0;
        }
      }
      return Ok, pt[k].page;
    }

    /** Write within one page: exactly the keys in reach see the data. */
    method StoreChunk(a: nat, va: nat, data: seq<Byte>) returns (s: Status)
      requires Valid() && data != [] && va % PAGE_SIZE + |data| <= PAGE_SIZE
      modifies this
      ensures Valid() && free <= old(free)
      ensures var k := (a, va / PAGE_SIZE);
        s == if k !in old(pt) then Fault else if Stuck(old(pt), old(free), k) then OutOfMemory else Ok
      ensures s != Ok ==> pt == old(pt) && mem == old(mem) && free == old(free)
      ensures s == Ok ==> Evolves(old(pt), pt, a, va, |data|)
      ensures s == Ok ==>
        View() == Stored(old(View()), Reach(old(pt), (a, va / PAGE_SIZE)), va % PAGE_SIZE, data)
    {
      hide Counted, Mappings, Exclusive, Seen, Stored, Splice, Reach, Evolves, Stuck;
      var page;
      s, page := LookupCow(a, va);
      if s == Ok {
        ghost var k := (a, va / PAGE_SIZE);
        ChunkEvolves(old(pt), pt, k, va, |data|);
        StoreSeen(pt, mem, k, va % PAGE_SIZE, data);
        mem := mem[page := Splice(mem[page], va % PAGE_SIZE, data)];
      }
    }

    /** One round of the loops below: the next chunk is stored. */
    method CopyStep(a: nat, cur: nat, chunk: seq<Byte>, ghost pt0: PageTable, ghost mem0: seq<Frame>,
                    ghost va: nat, ghost data: seq<Byte>, ghost n: nat)
      returns (s: Status)
      requires Valid() && Backed(pt0, mem0) && Chunk(va, n, |chunk|, |data|)
      requires cur == va + n && chunk == data[n..n + |chunk|]
      requires Progress(pt0, Seen(pt0, mem0), pt, View(), a, va, data, n)
      modifies this
      ensures Valid() && free <= old(free)
      ensures s == Ok ==> Progress(pt0, Seen(pt0, mem0), pt, View(), a, va, data, n + |chunk|)
      ensures s != Ok ==> pt == old(pt) && mem == old(mem) && free == old(free)
      ensures s == Fault ==> (a, cur / PAGE_SIZE) !in pt0
      ensures s == OutOfMemory ==> var k := (a, cur / PAGE_SIZE); Stuck(pt, free, k) && k in pt0 && pt0[k].flags.cow
    {
      hide Counted, Mappings, Exclusive, Seen, Reach, Stored, Progress, Evolves, Chunk, Stuck;
      ghost var was, m := pt, View();
      ChunkFits(pt0, Seen(pt0, mem0), pt, m, a, va, data, n, |chunk|);
      s := StoreChunk(a, cur, chunk);
      StuckMeans(pt, free, (a, cur / PAGE_SIZE));
      if s == Ok {
        StepDone(pt0, mem0, was, m, pt, View(), a, va, data, n, chunk);
      }
    }

    /**
     * Copy bytes to user space.  Where every page touched is seen by its own key only, the copy
     * writes the space's own memory byte by byte up to the first unmapped address.  The other
     * spaces see what they saw if no page touched is leaky; and when the data differ from what
     * is there, only then.
     */
    method CopyOut(a: nat, va: nat, data: seq<Byte>) returns (s: Status, ghost done: nat)
      requires Valid() && va < VIRT_KERNEL_BASE && va + |data| < ADDRESS_LIMIT
      modifies this
      ensures Valid() && free <= old(free)
      ensures CopyResult(old(pt), old(View()), View(), a, va, data, done, s)
      ensures s == Fault ==> (a, (va + done) / PAGE_SIZE) !in old(pt)
      ensures s == OutOfMemory ==> var k := (a, (va + done) / PAGE_SIZE);
        Stuck(pt, free, k) && k in old(pt) && old(pt)[k].flags.cow
      ensures Evolves(old(pt), pt, a, va, done)
    {
      hide Counted, Mappings, Exclusive, Seen, Progress, CopyResult, Evolves, Stuck, Backed;
      var cur, rest := va, data;
      done := 0;
      ProgressNone(pt, View(), a, va, data);
      while rest != []
        invariant done <= |data| && cur == va + done && rest == data[done..]
        invariant done == 0 || rest == [] || cur % PAGE_SIZE == 0
        invariant Valid() && free <= old(free)
        invariant Progress(old(pt), old(View()), pt, View(), a, va, data, done)
        decreases |rest|
      {
        var ncopy := if PAGE_SIZE - cur % PAGE_SIZE <= |rest| then PAGE_SIZE - cur % PAGE_SIZE else |rest|;
        s := CopyStep(a, cur, rest[..ncopy], old(pt), old(mem), va, data, done);
        if s != Ok {
          Finish(old(pt), old(mem), pt, View(), a, va, data, done, s);
          return;
        }
        done := done + ncopy;
        cur := cur + ncopy;
        rest := rest[ncopy..];
      }
      Finish(old(pt), old(mem), pt, View(), a, va, data, done, Ok);
      return Ok, done;
    }

    /** Fill user memory with zeros: the same for data that are zeros. */
    method Clear(a: nat, va: nat, n: nat) returns (s: Status, ghost done: nat)
      requires Valid() && va < VIRT_KERNEL_BASE && va + n < ADDRESS_LIMIT
      modifies this
      ensures Valid() && free <= old(free)
      ensures CopyResult(old(pt), old(View()), View(), a, va, Zeros(n), done, s)
      ensures s == Fault ==> (a, (va + done) / PAGE_SIZE) !in old(pt)
      ensures s == OutOfMemory ==> var k := (a, (va + done) / PAGE_SIZE);
        Stuck(pt, free, k) && k in old(pt) && old(pt)[k].flags.cow
      ensures Evolves(old(pt), pt, a, va, done)
    {
      hide Counted, Mappings, Exclusive, Seen, Progress, CopyResult, Evolves, Stuck, Zeros, Backed;
      var cur: nat, left: nat := va, n;
      done := 0;
      ProgressNone(pt, View(), a, va, Zeros(n));
      while left != 0
        invariant done + left == n && cur == va + done
        invariant done == 0 || left == 0 || cur % PAGE_SIZE == 0
        invariant Valid() && free <= old(free)
        invariant Progress(old(pt), old(View()), pt, View(), a, va, Zeros(n), done)
      {
        var ncopy := if PAGE_SIZE - cur % PAGE_SIZE <= left then PAGE_SIZE - cur % PAGE_SIZE else left;
        ZerosSlice(n, done, ncopy);
        s := CopyStep(a, cur, Zeros(ncopy), old(pt), old(mem), va, Zeros(n), done);
        if s != Ok {
          Finish(old(pt), old(mem), pt, View(), a, va, Zeros(n), done, s);
          return;
        }
        done := done + ncopy;
        cur := cur + ncopy;
        left := left - ncopy;
      }
      Finish(old(pt), old(mem), pt, View(), a, va, Zeros(n), done, Ok);
      return Ok, done;
    }

    /** Copy bytes from user space: what a byte-by-byte read of the space's memory gives. */
    method CopyIn(a: nat, va: nat, n: nat) returns (s: Status, data: seq<Byte>)
      requires Valid() && va < VIRT_KERNEL_BASE && va + n < ADDRESS_LIMIT
      ensures (data, s) == ReadBytes(View(), a, va, n)
    {
      hide Counted, Mappings, Exclusive, ReadBytes;
      var cur: nat, left: nat := va, n;
      data := [];
      assert [] + ReadBytes(View(), a, va, n).0 == ReadBytes(View(), a, va, n).0;
      while left != 0
        invariant left <= n && cur + left == va + n
        invariant ReadBytes(View(), a, va, n) ==
          (data + ReadBytes(View(), a, cur, left).0, ReadBytes(View(), a, cur, left).1)
      {
        var ncopy := if PAGE_SIZE - cur % PAGE_SIZE <= left then PAGE_SIZE - cur % PAGE_SIZE else left;
        var k := (a, cur / PAGE_SIZE);
        if k !in pt {
          ReadStops(View(), a, cur, left);
          assert data + [] == data;
          return Fault, data;
        }
        var frame := mem[pt[k].page];
        ReadChunk(View(), a, cur, left, ncopy);
        var chunk := frame[cur % PAGE_SIZE..cur % PAGE_SIZE + ncopy];
        ghost var rest := ReadBytes(View(), a, cur + ncopy, left - ncopy).0;
        assert data + (chunk + rest) == (data + chunk) + rest;
        data := data + chunk;
        cur := cur + ncopy;
        left := left - ncopy;
      }
      ReadStops(View(), a, cur, left);
      assert data + [] == data;
      return Ok, data;
    }

    /** A write fault on a copy-on-write page makes it writable and changes nothing that is seen. */
    method HandleFault(a: nat, va: nat) returns (s: Status)
      requires Valid()
      modifies this
      ensures Valid() && View() == old(View())
      ensures var k := (a, va / PAGE_SIZE);
        s == if va < PAGE_SIZE || va >= VIRT_KERNEL_BASE || k !in old(pt) || !old(pt)[k].flags.cow then Fault
             else if Stuck(old(pt), old(free), k) then OutOfMemory
             else Ok
      ensures var k := (a, va / PAGE_SIZE);
        s == Ok ==> k in pt && pt[k].flags.write && Mappings(pt, pt[k].page) == {k}
      ensures s != Ok ==> pt == old(pt) && mem == old(mem) && free == old(free)
    {
      hide Counted, Mappings, Exclusive, Seen;
      var k := (a, va / PAGE_SIZE);
      if va < PAGE_SIZE || va >= VIRT_KERNEL_BASE || k !in pt || !pt[k].flags.cow {
        return Fault;
      }
      s := PageCow(k);
    }

    /** PageRemove as the user range operations call it. */
    method RemoveKey(k: Key)
      requires Valid()
      modifies this`refs, this`pt, this`free
      ensures Valid() && pt == old(pt) - {k} && View() == old(View()) - {k}
      ensures Releases(old(pt), old(free), pt, free)
      ensures |free| <= |old(free)| + 1
    {
      hide Counted, Mappings, Exclusive, Seen, Releases;
      UnmapExclusive(pt, k);
      UnmapSeen(pt, mem, k);
      if k in pt {
        ReleasesOne(pt, refs, free, k);
      } else {
        assert pt - {k} == pt;
        ReleasesNone(pt, free);
      }
      PageRemove(k, {});
    }

    /** Unmap every page of a range; exactly the pages left without a mapping become free. */
    method UserFree(a: nat, va: nat, n: nat)
      requires Valid() && va % PAGE_SIZE == 0
      modifies this`refs, this`pt, this`free
      ensures Valid()
      ensures View() == Unmapped(old(View()), a, FirstPage(va), EndPage(va, n))
      ensures forall k: Key :: k in pt ==> k in old(pt) && pt[k] == old(pt)[k]
      ensures Releases(old(pt), old(free), pt, free)
      ensures FirstPage(va) <= EndPage(va, n) ==> |free| <= |old(free)| + (EndPage(va, n) - FirstPage(va))
    {
      hide Counted, Exclusive, Mappings, Releases, Seen;
      var v, end := FirstPage(va), EndPage(va, n);
      ghost var first := v;
      ReleasesNone(pt, free);
      while v < end
        invariant first <= v && (v <= end || v == first)
        invariant Valid() && View() == Unmapped(old(View()), a, first, v)
        invariant forall k: Key :: k in pt ==> k in old(pt) && pt[k] == old(pt)[k]
        invariant Releases(old(pt), old(free), pt, free)
        invariant |free| <= |old(free)| + (v - first)
      {
        ghost var mid, was := pt, free;
        RemoveKey((a, v));
        ReleasesTrans(old(pt), old(free), mid, was, pt, free);
        v := v + 1;
      }
    }

    method MapZeroed(k: Key, flags: Flags) returns (ok: bool)
      requires Valid() && !(flags.write && flags.cow)
      modifies this
      ensures Valid()
      ensures ok <==> old(free) != {}
      ensures !ok ==> pt == old(pt) && mem == old(mem) && free == old(free)
      ensures ok ==>
        && k in pt && pt == old(pt)[k := Entry(pt[k].page, flags)]
        && View() == old(View())[k := Cell(Zeros(PAGE_SIZE), flags.write || flags.cow, flags.other)]
        && |free| >= |old(free)| - 1 && (k !in old(pt) ==> |free| == |old(free)| - 1)
    {
      hide Counted, Mappings, Exclusive, Seen;
      var r := AllocZeroed();
      if r.None? {
        return false;
      }
      var e := Entry(r.value, flags);
      RemapExclusive(pt, k, e);
      MapZeroedSeen(old(pt), old(mem), k, e);
      PageInsert(k, r.value, flags);
      SubsetSize(old(free) - {r.value}, free);
      return true;
    }

    /**
     * Map zeroed pages over a range.  When memory runs out, the pages mapped so far are
     * unmapped again; over a range that was not mapped it runs out exactly when fewer pages
     * are free than the range has.
     */
    method UserAlloc(a: nat, va: nat, n: nat, flags: Flags) returns (s: Status, ghost done: nat)
      requires Valid() && va % PAGE_SIZE == 0 && !(flags.write && flags.cow)
      modifies this
      ensures Valid() && s != Fault
      ensures s == Ok ==>
        View() == Mapped(old(View()), a, FirstPage(va), EndPage(va, n), flags.write || flags.cow, flags.other)
      ensures s == Ok ==> forall v: nat :: FirstPage(va) <= v < EndPage(va, n) ==>
        (a, v) in pt && pt[(a, v)].flags == flags
      ensures s == OutOfMemory ==> done < EndPage(va, n) && View() == Unmapped(old(View()), a, FirstPage(va), done)
      ensures s == OutOfMemory ==>
        && |old(free)| < EndPage(va, n) - FirstPage(va) && |free| < EndPage(va, n) - FirstPage(va)
      ensures Bare(old(pt), a, FirstPage(va), EndPage(va, n)) ==>
        (s == OutOfMemory <==> FirstPage(va) + |old(free)| < EndPage(va, n))
    {
      hide Counted, Exclusive, Mappings, Seen, Bare, Mapped, Backed;
      MappedNone(View(), a, FirstPage(va), flags.write || flags.cow, flags.other);
      var v, end := FirstPage(va), EndPage(va, n);
      ghost var first := v;
      while v < end
        invariant first <= v && (v <= end || v == first) && Valid()
        invariant View() == Mapped(old(View()), a, first, v, flags.write || flags.cow, flags.other)
        invariant forall u: nat :: first <= u < v ==> (a, u) in pt && pt[(a, u)].flags == flags
        invariant |free| >= |old(free)| - (v - first)
        invariant Bare(old(pt), a, first, end) ==> Bare(pt, a, v, end) && |free| == |old(free)| - (v - first)
      {
        ghost var was := pt;
        MappedNext(old(View()), a, first, v, flags.write || flags.cow, flags.other);
        var ok := MapZeroed((a, v), flags);
        if !ok {
          RollbackRange(va, v);
          UnmapMapped(old(View()), a, first, v, flags.write || flags.cow, flags.other);
          UserFree(a, va, (v - va / PAGE_SIZE) * PAGE_SIZE);
          return OutOfMemory, v;
        }
        BareNext(was, pt[(a, v)], a, v, end);
        v := v + 1;
      }
      return Ok, v;
    }

    /** Map one page of src into dst as well, copy-on-write if it was writable. */
    method ClonePage(src: nat, dst: nat, v: nat)
      requires Valid() && src != dst && (src, v) in pt
      modifies this`refs, this`pt, this`free
      ensures Valid() && pt == old(pt)[(src, v) := Shared(old(pt)[(src, v)])][(dst, v) := Shared(old(pt)[(src, v)])]
    {
      hide Counted, Mappings, Exclusive, Seen;
      var e := Shared(pt[(src, v)]);
      CountOf(pt, refs, free, {}, (src, v));
      SharedExclusive(pt, (src, v));
      if pt[(src, v)].flags.write {
        PageInsert((src, v), e.page, e.flags);
      }
      assert pt == old(pt)[(src, v) := e];
      CountOf(pt, refs, free, {}, (src, v));
      SharedAgain(pt, (src, v), (dst, v));
      PageInsert((dst, v), e.page, e.flags);
    }

    /** One round of the loop of UserClone. */
    method CloneNext(src: nat, dst: nat, v: nat, ghost pt0: PageTable, ghost m0: Memory, ghost first: nat)
      requires Valid() && src != dst && (src, v) in pt && first <= v && Whole(m0)
      requires Cloned(pt0, pt, src, dst, first, v) && (View(), Ok) == Copied(m0, src, dst, first, v)
      modifies this`refs, this`pt, this`free
      ensures Valid()
      ensures Cloned(pt0, pt, src, dst, first, v + 1) && (View(), Ok) == Copied(m0, src, dst, first, v + 1)
    {
      hide Counted, Exclusive, Cloned, Mappings, Seen, Copied;
      ghost var mid := pt;
      CopiedNext(m0, src, dst, first, v);
      ClonePage(src, dst, v);
      CloneSeen(mid, mem, pt, src, dst, v);
      ClonedStep(pt0, mid, pt, src, dst, first, v);
    }

    /**
     * Clone a range of one address space into another.  It fails on the first page the source
     * does not map.  The source sees what it saw; the pages cloned are seen in the target.
     */
    method UserClone(src: nat, dst: nat, va: nat, n: nat) returns (s: Status)
      requires Valid() && src != dst && va % PAGE_SIZE == 0
      modifies this`refs, this`pt, this`free
      ensures Valid() && (View(), s) == Copied(old(View()), src, dst, FirstPage(va), EndPage(va, n))
      ensures s == if MapsAll(old(View()), src, FirstPage(va), EndPage(va, n)) then Ok else Fault
      ensures s == Ok ==> Cloned(old(pt), pt, src, dst, FirstPage(va), EndPage(va, n))
    {
      hide Counted, Exclusive, Cloned, Mappings, Seen, Copied, MapsAll;
      var v, end := FirstPage(va), EndPage(va, n);
      ghost var first := v;
      ClonedNone(pt, src, dst, first);
      CopiedNone(View(), src, dst, first);
      CopiedKeeps(View(), src, dst, first, end);
      while v < end
        invariant first <= v && (v <= end || v == first)
        invariant Valid() && (View(), Ok) == Copied(old(View()), src, dst, first, v)
        invariant Cloned(old(pt), pt, src, dst, first, v)
      {
        if (src, v) !in pt {
          CopiedStops(old(View()), src, dst, first, v, end);
          return Fault;
        }
        CloneNext(src, dst, v, old(pt), old(View()), first);
        v := v + 1;
      }
      return Ok;
    }

    /**
     * One operation does to what is seen what it does to private memory, unless memory runs
     * out: then fewer pages are free than the operation may ask for.
     */
    method Perform(op: Op) returns (s: Status)
      requires Valid() && Legal(View(), op)
      modifies this
      ensures Valid()
      ensures s != OutOfMemory ==> View() == Effect(old(View()), op)
      ensures s == OutOfMemory ==> |free| < Demand(op)
    {
      hide Counted, Exclusive, Mappings, Seen, CopyResult, Permitted, Writable, WriteBytes, Mapped, Unmapped, Copied,
        Evolves;
      ghost var done;
      match op
      case Write(a, va, data) =>
        WritableBounds(View(), a, va, |data|);
        s, done := CopyOut(a, va, data);
        CopyEffect(old(pt), old(mem), View(), a, va, data, done, s);
      case Wipe(a, va, n) =>
        WritableBounds(View(), a, va, n);
        s, done := Clear(a, va, n);
        CopyEffect(old(pt), old(mem), View(), a, va, Zeros(n), done, s);
      case WriteFault(a, va) =>
        s := HandleFault(a, va);
      case Map(a, va, n, write, cow, other) =>
        s, done := UserAlloc(a, va, n, Flags(write, cow, other));
      case Unmap(a, va, n) =>
        UserFree(a, va, n);
        s := Ok;
      case Clone(dst, src, va, n) =>
        s := UserClone(src, dst, va, n);
    }

    /**
     * Every run of writes, clears, faults, maps, unmaps and clones of any number of spaces has
     * the effect it has on private memory.  It stops early only when an operation asks for
     * more pages than are free.
     */
    method RunOps(ops: seq<Op>) returns (stopped: bool)
      requires Valid() && LegalRun(View(), ops)
      modifies this
      ensures Valid()
      ensures !stopped ==> View() == RunAll(old(View()), ops)
      ensures stopped ==> exists op :: op in ops && |free| < Demand(op)
      decreases |ops|
    {
      hide Counted, Exclusive, Mappings, Seen, Legal, Effect, Demand;
      if ops == [] {
        return false;
      }
      var s := Perform(ops[0]);
      if s == OutOfMemory {
        assert ops[0] in ops;
        return true;
      }
      stopped := RunOps(ops[1..]);
      assert forall op :: op in ops[1..] ==> op in ops;
    }

    /**
     * Fork isolation: after a clone into an empty address space, any run of both spaces and
     * others leaves each with the memory it would have had alone, the child starting from the
     * parent's memory at the time of the clone.
     */
    method ForkThenRun(src: nat, dst: nat, va: nat, n: nat, ops: seq<Op>) returns (s: Status, stopped: bool)
      requires Valid() && src != dst && va % PAGE_SIZE == 0 && forall v: nat :: (dst, v) !in pt
      requires LegalRun(Effect(View(), Clone(dst, src, va, n)), ops) && forall op :: op in ops ==> !op.Clone?
      modifies this
      ensures Valid()
      ensures s == if MapsAll(old(View()), src, FirstPage(va), EndPage(va, n)) then Ok else Fault
      ensures s == Ok && !stopped ==>
        && Only(View(), src) == RunAll(Only(old(View()), src), Own(ops, src))
        && Only(View(), dst) == RunAll(Child(old(View()), src, dst, FirstPage(va), EndPage(va, n)), Own(ops, dst))
      ensures stopped ==> s == Ok && exists op :: op in ops && |free| < Demand(op)
    {
      hide Counted, Exclusive, Mappings, Seen, LegalRun, RunAll, Own, Only, Child, Demand, Copied;
      stopped := false;
      s := UserClone(src, dst, va, n);
      if s == Ok {
        ForkIsolated(old(View()), src, dst, va, n, ops);
        stopped := RunOps(ops);
      }
    }
  }

  /** A read-only page that spaces 0 and 1 both map at page 1. */
  method MapAndClone() returns (vm: VmSystem)
    ensures fresh(vm) && vm.Valid()
    ensures var pt := vm.pt;
      pt.Keys == {(0, 1), (1, 1)} && pt[(0, 1)] == pt[(1, 1)] && !pt[(0, 1)].flags.cow && !pt[(0, 1)].flags.write
    ensures vm.View()[(1, 1)].bytes == Zeros(PAGE_SIZE)
  {
    hide Counted, Exclusive, Mappings, Seen;
    vm := new VmSystem({0, 1}, 2);
    var s;
    ghost var done, none := 0, vm.View();
    s, done := vm.UserAlloc(0, PAGE_SIZE, 1, Flags(false, false, {}));
    assert s == Ok;
    assert vm.View() == Mapped(none, 0, 1, 2, false, {}) == map[(0, 1) := Cell(Zeros(PAGE_SIZE), false, {})];
    ghost var one, pt := vm.View(), vm.pt;
    s := vm.UserClone(0, 1, PAGE_SIZE, 1);
    assert vm.View() == Copied(one, 0, 1, 1, 2).0 == one[(1, 1) := one[(0, 1)]];
    assert CloneOf(pt[(0, 1)], vm.pt[(1, 1)]);
  }

  /**
   * A run in which the copy leaks: a read-only page, mapped, cloned and written to by the
   * kernel on behalf of the parent.  The child reads zero before and seven after.
   */
  method Leak() returns (before: seq<Byte>, after: seq<Byte>)
    ensures before == [0] && after == [7]
  {
    hide Counted, Exclusive, Seen, Evolves, CopyResult;
    var vm := MapAndClone();
    var s;
    ghost var done, pt, m := 0, vm.pt, vm.View();
    s, before := vm.CopyIn(1, PAGE_SIZE, 1);
    assert before == [0];
    s, done := vm.CopyOut(0, PAGE_SIZE, [7]);
    assert s != Ok ==> (PAGE_SIZE + done) / PAGE_SIZE != 1;
    LeakedByte(pt, m, vm.View(), done, s);
    s, after := vm.CopyIn(1, PAGE_SIZE, 1);
  }

  lemma LeakedByte(pt: PageTable, m: Memory, m': Memory, n: nat, s: Status)
    requires pt.Keys == m.Keys == {(0, 1), (1, 1)} && Whole(m)
    requires pt[(0, 1)].page == pt[(1, 1)].page && !pt[(0, 1)].flags.cow
    requires CopyResult(pt, m, m', 0, PAGE_SIZE, [7], n, s) && (s != Ok ==> (PAGE_SIZE + n) / PAGE_SIZE != 1)
    ensures m'.Keys == m.Keys && |m'[(1, 1)].bytes| == PAGE_SIZE && m'[(1, 1)].bytes[0] == 7
  {
    hide Tight, Isolated, Telling, Permitted, WriteBytes;
    assert n == 1;
    assert Touches(PAGE_SIZE, 1, 1) && (1, 1) in Reach(pt, (0, 1));
    assert Apart(pt, 0, PAGE_SIZE, 1);
    assert m'[(1, 1)].bytes == Overlay(m[(1, 1)].bytes, 1, PAGE_SIZE, [7], 1);
  }
}
