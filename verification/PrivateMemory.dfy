/**
 * The memory the address spaces appear to have: every space owns the bytes of every page it
 * maps, and nothing is shared.  It is what the copy-on-write system is compared with, and it
 * says when a process may write to a page at all.
 */
module PrivateMemory {
  import opened Arith

  const VIRT_KERNEL_BASE: nat := 0x8000_0000
  const ADDRESS_LIMIT: nat := 0x1_0000_0000

  type Byte = x: int | 0 <= x < 256
  type Frame = seq<Byte>

  /** An address space and a virtual page number. */
  type Key = (nat, nat)
  datatype Cell = Cell(bytes: Frame, writable: bool, other: set<nat>)
  type Memory = map<Key, Cell>

  /** Success, EFAULT, or no page was left. */
  datatype Status = Ok | Fault | OutOfMemory

  function Zeros(n: nat): (s: seq<Byte>)
    ensures |s| == n && forall i :: 0 <= i < n ==> s[i] == 0
  {
    if n == 0 then [] else [0] + Zeros(n - 1)
  }

  lemma ZerosSlice(n: nat, i: nat, k: nat)
    requires i + k <= n
    ensures Zeros(n)[i..i + k] == Zeros(k)
  {
  }

  ghost predicate Whole(m: Memory) {
    forall k: Key :: k in m ==> |m[k].bytes| == PAGE_SIZE
  }

  // ---- Reading and writing ---------------------------------------------------------------

  ghost function SetByte(m: Memory, k: Key, off: nat, b: Byte): (r: Memory)
    requires Whole(m) && k in m && off < PAGE_SIZE
    ensures Whole(r) && r.Keys == m.Keys
  {
    m[k := m[k].(bytes := m[k].bytes[off := b])]
  }

  /** Write bytes one at a time, stopping at the first unmapped address. */
  ghost function WriteBytes(m: Memory, a: nat, va: nat, data: seq<Byte>): (r: (Memory, Status))
    requires Whole(m)
    ensures Whole(r.0) && r.0.Keys == m.Keys && r.1 != OutOfMemory
    decreases |data|
  {
    if data == [] then (m, Ok)
    else if (a, va / PAGE_SIZE) !in m then (m, Fault)
    else WriteBytes(SetByte(m, (a, va / PAGE_SIZE), va % PAGE_SIZE, data[0]), a, va + 1, data[1..])
  }

  /** A write stays in its space and changes no permission. */
  lemma {:induction false} WriteKeeps(m: Memory, a: nat, va: nat, data: seq<Byte>)
    requires Whole(m)
    ensures var r := WriteBytes(m, a, va, data).0;
      forall k: Key :: k in m ==>
        r[k].writable == m[k].writable && r[k].other == m[k].other && (k.0 != a ==> r[k] == m[k])
    decreases |data|
  {
    if data != [] && (a, va / PAGE_SIZE) in m {
      WriteKeeps(SetByte(m, (a, va / PAGE_SIZE), va % PAGE_SIZE, data[0]), a, va + 1, data[1..]);
    }
  }

  /** Read bytes one at a time, stopping at the first unmapped address. */
  ghost function ReadBytes(m: Memory, a: nat, va: nat, n: nat): (r: (seq<Byte>, Status))
    requires Whole(m)
    decreases n
  {
    if n == 0 then ([], Ok)
    else if (a, va / PAGE_SIZE) !in m then ([], Fault)
    else
      var rest := ReadBytes(m, a, va + 1, n - 1);
      ([m[(a, va / PAGE_SIZE)].bytes[va % PAGE_SIZE]] + rest.0, rest.1)
  }

  /** Where a read ends. */
  lemma ReadStops(m: Memory, a: nat, va: nat, n: nat)
    requires Whole(m) && (n == 0 || (a, va / PAGE_SIZE) !in m)
    ensures ReadBytes(m, a, va, n) == ([], if n == 0 then Ok else Fault)
  {
  }

  lemma {:induction false} WriteAppend(m: Memory, a: nat, va: nat, d: seq<Byte>, e: seq<Byte>)
    requires Whole(m) && WriteBytes(m, a, va, d).1 == Ok
    ensures WriteBytes(m, a, va, d + e) == WriteBytes(WriteBytes(m, a, va, d).0, a, va + |d|, e)
    decreases |d|
  {
    hide SetByte, Whole;
    if d == [] {
      assert d + e == e;
    } else {
      assert (d + e)[1..] == d[1..] + e && (d + e)[0] == d[0];
      var one := SetByte(m, (a, va / PAGE_SIZE), va % PAGE_SIZE, d[0]);
      WriteAppend(one, a, va + 1, d[1..], e);
      assert WriteBytes(m, a, va, d) == WriteBytes(one, a, va + 1, d[1..]);
      assert WriteBytes(m, a, va, d + e) == WriteBytes(one, a, va + 1, d[1..] + e);
    }
  }

  function Splice(f: Frame, off: nat, data: seq<Byte>): (r: Frame)
    requires off + |data| <= |f|
    ensures |r| == |f|
    ensures forall i :: 0 <= i < |f| ==> r[i] == if off <= i < off + |data| then data[i - off] else f[i]
  {
    f[..off] + data + f[off + |data|..]
  }

  /** A stretch of one page replaced, as seen by each of the keys. */
  ghost function Stored(m: Memory, keys: set<Key>, off: nat, data: seq<Byte>): (r: Memory)
    requires Whole(m) && off + |data| <= PAGE_SIZE
    ensures Whole(r) && r.Keys == m.Keys
  {
    map k: Key | k in m :: if k in keys then m[k].(bytes := Splice(m[k].bytes, off, data)) else m[k]
  }

  lemma {:induction false} StoreFirst(m: Memory, k: Key, off: nat, data: seq<Byte>)
    requires Whole(m) && k in m && data != [] && off + |data| <= PAGE_SIZE
    ensures Stored(SetByte(m, k, off, data[0]), {k}, off + 1, data[1..]) == Stored(m, {k}, off, data)
  {
    var one := SetByte(m, k, off, data[0]);
    assert Splice(one[k].bytes, off + 1, data[1..]) == Splice(m[k].bytes, off, data);
  }

  /** Writing within one page at once is writing its bytes one at a time. */
  lemma {:induction false} WriteChunk(m: Memory, a: nat, va: nat, data: seq<Byte>)
    requires Whole(m) && (a, va / PAGE_SIZE) in m && va % PAGE_SIZE + |data| <= PAGE_SIZE
    ensures WriteBytes(m, a, va, data) == (Stored(m, {(a, va / PAGE_SIZE)}, va % PAGE_SIZE, data), Ok)
    decreases |data|
  {
    var k, off := (a, va / PAGE_SIZE), va % PAGE_SIZE;
    if data == [] {
      assert Splice(m[k].bytes, off, data) == m[k].bytes;
      assert Stored(m, {k}, off, data) == m;
    } else {
      StoreFirst(m, k, off, data);
      var one := SetByte(m, k, off, data[0]);
      hide SetByte, Stored;
      if |data| == 1 {
        assert WriteBytes(one, a, va + 1, data[1..]) == (one, Ok);
        StoreNothing(one, k, off + 1);
      } else {
        assert (va + 1) / PAGE_SIZE == k.1 && (va + 1) % PAGE_SIZE == off + 1;
        WriteChunk(one, a, va + 1, data[1..]);
      }
    }
  }

  lemma StoreNothing(m: Memory, k: Key, off: nat)
    requires Whole(m) && k in m && off <= PAGE_SIZE
    ensures Stored(m, {k}, off, []) == m
  {
    assert Splice(m[k].bytes, off, []) == m[k].bytes;
  }

  lemma FirstOut(f: Frame, i: nat, j: nat, rest: seq<Byte>)
    requires i < j <= |f|
    ensures [f[i]] + (f[i + 1..j] + rest) == f[i..j] + rest
  {
    assert [f[i]] + f[i + 1..j] == f[i..j];
  }

  lemma {:induction false} ReadChunk(m: Memory, a: nat, va: nat, k: nat, n: nat)
    requires Whole(m) && (a, va / PAGE_SIZE) in m && n <= k && va % PAGE_SIZE + n <= PAGE_SIZE
    ensures var off := va % PAGE_SIZE; var rest := ReadBytes(m, a, va + n, k - n);
      ReadBytes(m, a, va, k) == (m[(a, va / PAGE_SIZE)].bytes[off..off + n] + rest.0, rest.1)
    decreases n
  {
    var f, off := m[(a, va / PAGE_SIZE)].bytes, va % PAGE_SIZE;
    var rest := ReadBytes(m, a, va + n, k - n);
    if n == 0 {
      assert f[off..off] + rest.0 == rest.0;
    } else if n == 1 {
      assert f[off..off + 1] == [f[off]];
    } else {
      assert (va + 1) / PAGE_SIZE == va / PAGE_SIZE && (va + 1) % PAGE_SIZE == off + 1;
      ReadChunk(m, a, va + 1, k - 1, n - 1);
      FirstOut(f, off, off + n, rest.0);
    }
  }

  // ---- Ranges of pages ---------------------------------------------------------------------

  function FirstPage(va: nat): nat {
    va / PAGE_SIZE
  }

  function EndPage(va: nat, n: nat): nat {
    (va + n + PAGE_SIZE - 1) / PAGE_SIZE
  }

  /** The pages from first up to, not including, last become zeroed pages of space a. */
  ghost function Mapped(m: Memory, a: nat, first: nat, last: nat, writable: bool, other: set<nat>): (r: Memory)
    requires Whole(m)
    ensures Whole(r)
    decreases last
  {
    if last <= first then m
    else Mapped(m, a, first, last - 1, writable, other)[(a, last - 1) := Cell(Zeros(PAGE_SIZE), writable, other)]
  }

  lemma MappedNone(m: Memory, a: nat, first: nat, writable: bool, other: set<nat>)
    requires Whole(m)
    ensures Mapped(m, a, first, first, writable, other) == m
  {
  }

  lemma {:induction false} MappedNext(m: Memory, a: nat, first: nat, last: nat, writable: bool, other: set<nat>)
    requires Whole(m) && first <= last
    ensures Mapped(m, a, first, last + 1, writable, other) ==
      Mapped(m, a, first, last, writable, other)[(a, last) := Cell(Zeros(PAGE_SIZE), writable, other)]
  {
  }

  lemma {:induction false} MappedCells(m: Memory, a: nat, first: nat, last: nat, writable: bool, other: set<nat>)
    requires Whole(m)
    ensures var r := Mapped(m, a, first, last, writable, other);
      && (forall k: Key :: k in r <==> k in m || (k.0 == a && first <= k.1 < last))
      && (forall k: Key :: k in r ==>
            r[k] == if k.0 == a && first <= k.1 < last then Cell(Zeros(PAGE_SIZE), writable, other) else m[k])
    decreases last
  {
    if last > first { MappedCells(m, a, first, last - 1, writable, other); }
  }

  ghost function Unmapped(m: Memory, a: nat, first: nat, last: nat): (r: Memory)
    requires Whole(m)
    ensures Whole(r)
    decreases last
  {
    if last <= first then m else Unmapped(m, a, first, last - 1) - {(a, last - 1)}
  }

  lemma {:induction false} UnmappedCells(m: Memory, a: nat, first: nat, last: nat)
    requires Whole(m)
    ensures var r := Unmapped(m, a, first, last);
      && (forall k: Key :: k in r <==> k in m && !(k.0 == a && first <= k.1 < last))
      && (forall k: Key :: k in r ==> r[k] == m[k])
    decreases last
  {
    if last > first { UnmappedCells(m, a, first, last - 1); }
  }

  /** Taking a range away leaves nothing of what was mapped there. */
  lemma {:induction false} UnmapMapped(m: Memory, a: nat, first: nat, last: nat, writable: bool, other: set<nat>)
    requires Whole(m)
    ensures Unmapped(Mapped(m, a, first, last, writable, other), a, first, last) == Unmapped(m, a, first, last)
  {
    var r := Mapped(m, a, first, last, writable, other);
    MappedCells(m, a, first, last, writable, other);
    UnmappedCells(r, a, first, last);
    UnmappedCells(m, a, first, last);
    hide Mapped, Unmapped;
  }

  /** Space a maps all the pages. */
  ghost predicate MapsAll(m: Memory, a: nat, first: nat, last: nat) {
    forall v: nat :: first <= v < last ==> (a, v) in m
  }

  /** Copy page by page, up to the first page the source does not map. */
  ghost function Copied(m: Memory, src: nat, dst: nat, first: nat, last: nat): (r: (Memory, Status))
    requires Whole(m)
    ensures Whole(r.0) && r.1 != OutOfMemory
    decreases last
  {
    if last <= first then (m, Ok)
    else
      var p := Copied(m, src, dst, first, last - 1);
      if p.1 != Ok then p
      else if (src, last - 1) !in p.0 then (p.0, Fault)
      else (p.0[(dst, last - 1) := p.0[(src, last - 1)]], Ok)
  }

  lemma CopiedNone(m: Memory, src: nat, dst: nat, first: nat)
    requires Whole(m)
    ensures Copied(m, src, dst, first, first) == (m, Ok)
  {
  }

  lemma {:induction false} CopiedNext(m: Memory, src: nat, dst: nat, first: nat, last: nat)
    requires Whole(m) && first <= last && Copied(m, src, dst, first, last).1 == Ok
    requires (src, last) in Copied(m, src, dst, first, last).0
    ensures var p := Copied(m, src, dst, first, last).0;
      Copied(m, src, dst, first, last + 1) == (p[(dst, last) := p[(src, last)]], Ok)
  {
  }

  /** A copy touches its target only, and succeeds if and only if the source maps the whole range. */
  lemma {:induction false} CopiedKeeps(m: Memory, src: nat, dst: nat, first: nat, last: nat)
    requires Whole(m) && src != dst
    ensures var r := Copied(m, src, dst, first, last);
      && (r.1 == Ok <==> MapsAll(m, src, first, last))
      && (forall k: Key :: k.0 != dst ==> (k in r.0 <==> k in m) && (k in m ==> r.0[k] == m[k]))
    decreases last
  {
    if last > first {
      CopiedKeeps(m, src, dst, first, last - 1);
      var p := Copied(m, src, dst, first, last - 1);
      assert (src, last - 1) in p.0 <==> (src, last - 1) in m;
    }
  }

  /** Once a page is missing the copy gets no further. */
  lemma {:induction false} CopiedStops(m: Memory, src: nat, dst: nat, first: nat, v: nat, last: nat)
    requires Whole(m) && src != dst && first <= v < last
    requires Copied(m, src, dst, first, v).1 == Ok && (src, v) !in Copied(m, src, dst, first, v).0
    ensures Copied(m, src, dst, first, last) == (Copied(m, src, dst, first, v).0, Fault)
    decreases last
  {
    if last > v + 1 {
      CopiedStops(m, src, dst, first, v, last - 1);
    }
  }

  /** What the target of a successful copy holds. */
  lemma {:induction false} CopiedCell(m: Memory, src: nat, k: Key, first: nat, last: nat)
    requires Whole(m) && src != k.0 && Copied(m, src, k.0, first, last).1 == Ok
    ensures var r := Copied(m, src, k.0, first, last).0;
      if first <= k.1 < last then (src, k.1) in m && k in r && r[k] == m[(src, k.1)]
      else (k in r <==> k in m) && (k in m ==> r[k] == m[k])
    decreases last
  {
    if last > first {
      CopiedCell(m, src, k, first, last - 1);
      CopiedKeeps(m, src, k.0, first, last - 1);
    }
  }

  // ---- Runs of operations -------------------------------------------------------------------

  datatype Op =
    | Write(space: nat, va: nat, data: seq<Byte>)
    | Wipe(space: nat, va: nat, n: nat)
    | WriteFault(space: nat, va: nat)
    | Map(space: nat, va: nat, n: nat, write: bool, cow: bool, other: set<nat>)
    | Unmap(space: nat, va: nat, n: nat)
    | Clone(space: nat, src: nat, va: nat, n: nat)

  ghost function Effect(m: Memory, op: Op): (r: Memory)
    requires Whole(m)
    ensures Whole(r)
  {
    match op
    case Write(a, va, data) => WriteBytes(m, a, va, data).0
    case Wipe(a, va, n) => WriteBytes(m, a, va, Zeros(n)).0
    case WriteFault(_, _) => m
    case Map(a, va, n, write, cow, other) => Mapped(m, a, FirstPage(va), EndPage(va, n), write || cow, other)
    case Unmap(a, va, n) => Unmapped(m, a, FirstPage(va), EndPage(va, n))
    case Clone(dst, src, va, n) => Copied(m, src, dst, FirstPage(va), EndPage(va, n)).0
  }

  ghost function RunAll(m: Memory, ops: seq<Op>): (r: Memory)
    requires Whole(m)
    ensures Whole(r)
    decreases |ops|
  {
    if ops == [] then m else RunAll(Effect(m, ops[0]), ops[1..])
  }

  /** Virtual page v overlaps the addresses [va, va + n). */
  ghost predicate Touches(va: nat, n: nat, v: nat) {
    v * PAGE_SIZE < va + n && va < (v + 1) * PAGE_SIZE && n > 0
  }

  /** A range that starts at a page takes exactly the pages that hold one of its bytes. */
  lemma RangePages(va: nat, n: nat, v: nat)
    requires va % PAGE_SIZE == 0
    ensures FirstPage(va) <= v < EndPage(va, n) <==> exists b: nat :: va <= b < va + n && b / PAGE_SIZE == v
    ensures FirstPage(va) <= v < EndPage(va, n) <==> Touches(va, n, v)
  {
    if FirstPage(va) <= v < EndPage(va, n) { assert (v * PAGE_SIZE) / PAGE_SIZE == v; }
  }

  ghost predicate Writable(m: Memory, a: nat, va: nat, n: nat) {
    && va < VIRT_KERNEL_BASE && va + n < ADDRESS_LIMIT
    && forall v: nat :: Touches(va, n, v) && (a, v) in m ==> m[(a, v)].writable
  }

  /** The kernel writes only to pages the process may write to; ranges start at a page; spaces differ. */
  ghost predicate Legal(m: Memory, op: Op) {
    match op
    case Write(a, va, data) => Writable(m, a, va, |data|)
    case Wipe(a, va, n) => Writable(m, a, va, n)
    case WriteFault(_, _) => true
    case Map(_, va, n, write, cow, _) => va % PAGE_SIZE == 0 && !(write && cow)
    case Unmap(_, va, n) => va % PAGE_SIZE == 0
    case Clone(dst, src, va, n) => va % PAGE_SIZE == 0 && src != dst
  }

  ghost predicate LegalRun(m: Memory, ops: seq<Op>)
    requires Whole(m)
    decreases |ops|
  {
    ops == [] || (Legal(m, ops[0]) && LegalRun(Effect(m, ops[0]), ops[1..]))
  }

  lemma {:induction false} EffectKeeps(m: Memory, op: Op)
    requires Whole(m) && (op.Write? || op.Wipe? || op.WriteFault?)
    ensures var r := Effect(m, op);
      r.Keys == m.Keys && forall k: Key :: k in m ==>
        r[k].writable == m[k].writable && r[k].other == m[k].other && (k.0 != op.space ==> r[k] == m[k])
  {
    match op
    case Write(a, va, data) => WriteKeeps(m, a, va, data);
    case Wipe(a, va, n) => WriteKeeps(m, a, va, Zeros(n));
    case WriteFault(_, _) =>
  }

  /** Writes never change what is writable, so runs of writes can be judged before they start. */
  lemma {:induction false} LegalFromTheStart(m: Memory, ops: seq<Op>)
    requires Whole(m)
    requires forall op :: op in ops ==> (op.Write? || op.Wipe? || op.WriteFault?) && Legal(m, op)
    ensures LegalRun(m, ops)
    decreases |ops|
  {
    if ops != [] {
      assert ops[0] in ops;
      var m' := Effect(m, ops[0]);
      EffectKeeps(m, ops[0]);
      assert m'.Keys == m.Keys && forall k: Key :: k in m ==> m'[k].writable == m[k].writable;
      forall op | op in ops[1..] ensures Legal(m', op) {
        assert op in ops;
      }
      LegalFromTheStart(m', ops[1..]);
    }
  }

  // ---- Each space on its own ------------------------------------------------------------------

  ghost function Only(m: Memory, a: nat): (r: Memory)
    requires Whole(m)
    ensures Whole(r)
    ensures forall k: Key :: k in r <==> k in m && k.0 == a
    ensures forall k: Key :: k in r ==> r[k] == m[k]
  {
    map k: Key | k in m && k.0 == a :: m[k]
  }

  function Own(ops: seq<Op>, a: nat): seq<Op> {
    if ops == [] then []
    else if ops[0].space == a then [ops[0]] + Own(ops[1..], a)
    else Own(ops[1..], a)
  }

  lemma {:induction false} WriteOwn(m: Memory, a: nat, va: nat, data: seq<Byte>)
    requires Whole(m)
    ensures Only(WriteBytes(m, a, va, data).0, a) == WriteBytes(Only(m, a), a, va, data).0
    decreases |data|
  {
    var k := (a, va / PAGE_SIZE);
    if data != [] && k in m {
      var one := SetByte(m, k, va % PAGE_SIZE, data[0]);
      WriteOwn(one, a, va + 1, data[1..]);
      assert Only(one, a) == SetByte(Only(m, a), k, va % PAGE_SIZE, data[0]);
    }
  }

  lemma {:induction false} MapOwn(m: Memory, a: nat, first: nat, last: nat, writable: bool, other: set<nat>)
    requires Whole(m)
    ensures Only(Mapped(m, a, first, last, writable, other), a) == Mapped(Only(m, a), a, first, last, writable, other)
  {
    MappedCells(m, a, first, last, writable, other);
    MappedCells(Only(m, a), a, first, last, writable, other);
    hide Mapped;
  }

  lemma {:induction false} UnmapOwn(m: Memory, a: nat, first: nat, last: nat)
    requires Whole(m)
    ensures Only(Unmapped(m, a, first, last), a) == Unmapped(Only(m, a), a, first, last)
  {
    UnmappedCells(m, a, first, last);
    UnmappedCells(Only(m, a), a, first, last);
    hide Unmapped;
  }

  lemma {:induction false} EffectOwn(m: Memory, op: Op)
    requires Whole(m) && !op.Clone?
    ensures Only(Effect(m, op), op.space) == Effect(Only(m, op.space), op)
  {
    hide Only, Mapped, Unmapped, WriteBytes;
    match op
    case Write(a, va, data) => WriteOwn(m, a, va, data);
    case Wipe(a, va, n) => WriteOwn(m, a, va, Zeros(n));
    case WriteFault(_, _) =>
    case Map(a, va, n, write, cow, other) => MapOwn(m, a, FirstPage(va), EndPage(va, n), write || cow, other);
    case Unmap(a, va, n) => UnmapOwn(m, a, FirstPage(va), EndPage(va, n));
  }

  lemma {:induction false} EffectElsewhere(m: Memory, op: Op, a: nat)
    requires Whole(m) && op.space != a && (op.Clone? ==> op.src != op.space)
    ensures Only(Effect(m, op), a) == Only(m, a)
  {
    match op
    case Write(_, _, _) => EffectKeeps(m, op);
    case Wipe(_, _, _) => EffectKeeps(m, op);
    case WriteFault(_, _) =>
    case Map(b, va, n, write, cow, other) => MappedCells(m, b, FirstPage(va), EndPage(va, n), write || cow, other);
    case Unmap(b, va, n) => UnmappedCells(m, b, FirstPage(va), EndPage(va, n));
    case Clone(dst, src, va, n) => CopiedKeeps(m, src, dst, FirstPage(va), EndPage(va, n));
  }

  /** What a space that is not cloned into sees depends on its own operations only. */
  lemma {:induction false} NonInterference(m: Memory, ops: seq<Op>, a: nat)
    requires Whole(m)
    requires forall op :: op in ops && op.Clone? ==> op.space != a && op.src != op.space
    ensures Only(RunAll(m, ops), a) == RunAll(Only(m, a), Own(ops, a))
    decreases |ops|
  {
    if ops != [] {
      hide Only, Effect;
      assert ops[0] in ops && forall op :: op in ops[1..] ==> op in ops;
      NonInterference(Effect(m, ops[0]), ops[1..], a);
      if ops[0].space == a {
        EffectOwn(m, ops[0]);
        assert ([ops[0]] + Own(ops[1..], a))[1..] == Own(ops[1..], a);
      } else {
        EffectElsewhere(m, ops[0], a);
      }
    }
  }

  /** The memory a child starts with: the cells of its parent's range. */
  ghost function Child(m: Memory, src: nat, dst: nat, first: nat, last: nat): (r: Memory)
    requires Whole(m)
    ensures Whole(r)
    ensures forall k: Key :: k in r <==> k.0 == dst && first <= k.1 < last && (src, k.1) in m
    ensures forall k: Key :: k in r ==> r[k] == m[(src, k.1)]
    decreases last
  {
    if last <= first then map[]
    else
      var c := Child(m, src, dst, first, last - 1);
      if (src, last - 1) in m then c[(dst, last - 1) := m[(src, last - 1)]] else c
  }

  /**
   * Fork: when parent and child both run on, each sees what it would see alone, the child
   * starting from the parent's memory at the time of the clone.
   */
  lemma {:induction false} ForkIsolated(m: Memory, src: nat, dst: nat, va: nat, n: nat, ops: seq<Op>)
    requires Whole(m) && src != dst && forall v: nat :: (dst, v) !in m
    requires MapsAll(m, src, FirstPage(va), EndPage(va, n))
    requires forall op :: op in ops ==> !op.Clone?
    ensures var r := RunAll(Effect(m, Clone(dst, src, va, n)), ops);
      && Only(r, src) == RunAll(Only(m, src), Own(ops, src))
      && Only(r, dst) == RunAll(Child(m, src, dst, FirstPage(va), EndPage(va, n)), Own(ops, dst))
  {
    var m' := Effect(m, Clone(dst, src, va, n));
    ForkStart(m, src, dst, FirstPage(va), EndPage(va, n));
    hide Only, Effect, Copied, Child;
    NonInterference(m', ops, src);
    NonInterference(m', ops, dst);
  }

  lemma {:induction false} ForkStart(m: Memory, src: nat, dst: nat, first: nat, last: nat)
    requires Whole(m) && src != dst && forall v: nat :: (dst, v) !in m
    requires MapsAll(m, src, first, last)
    ensures var r := Copied(m, src, dst, first, last).0;
      Only(r, src) == Only(m, src) && Only(r, dst) == Child(m, src, dst, first, last)
  {
    hide Copied, Child;
    var r := Copied(m, src, dst, first, last).0;
    CopiedKeeps(m, src, dst, first, last);
    assert Only(r, src) == Only(m, src);
    forall k: Key | k.0 == dst
      ensures k in r <==> first <= k.1 < last
      ensures first <= k.1 < last ==> (src, k.1) in m && r[k] == m[(src, k.1)]
    {
      CopiedCell(m, src, k, first, last);
      assert k == (dst, k.1);
    }
  }
}
