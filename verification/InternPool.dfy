/** The interning pool: a fixed open-addressed table of pointers to blobs that live in chunks
    and are never moved, overwritten or freed. */
module InternPool {
  import opened Probing
  import Bits

  const BUCKETS: nat := 262144
  const CHUNK_SIZE: nat := 65536
  const UINT64_MAX: nat := 0xFFFF_FFFF_FFFF_FFFF

  type Byte = b: nat | b < 256
  type Bytes = seq<Byte>

  // ---- Hashing --------------------------------------------------------------------------------

  /** A left fold over the first `n` bytes. */
  function Fold<S>(step: (S, Byte) -> S, start: S, data: Bytes, n: nat): S
    requires n <= |data|
  {
    if n == 0 then start else step(Fold(step, start, data, n - 1), data[n - 1])
  }

  lemma FoldEight<S>(step: (S, Byte) -> S, start: S, data: Bytes, i: nat)
    requires i + 8 <= |data|
    ensures var h := Fold(step, start, data, i);
            var h4 := step(step(step(step(h, data[i]), data[i + 1]), data[i + 2]), data[i + 3]);
            Fold(step, start, data, i + 8)
            == step(step(step(step(h4, data[i + 4]), data[i + 5]), data[i + 6]), data[i + 7])
  {
    assert Fold(step, start, data, i + 2) == step(step(Fold(step, start, data, i), data[i]), data[i + 1]);
    assert Fold(step, start, data, i + 4) == step(step(Fold(step, start, data, i + 2), data[i + 2]), data[i + 3]);
    assert Fold(step, start, data, i + 6) == step(step(Fold(step, start, data, i + 4), data[i + 4]), data[i + 5]);
  }

  /** Eight steps at a time, then the rest one by one: the same fold. */
  method FoldUnrolled<S>(step: (S, Byte) -> S, start: S, data: Bytes) returns (h: S)
    ensures h == Fold(step, start, data, |data|)
  {
    h := start;
    var i := 0;
    var limit := |data| - |data| % 8;
    while i < limit
      invariant i <= limit && (limit - i) % 8 == 0 && h == Fold(step, start, data, i)
    {
      FoldEight(step, start, data, i);
      h := step(h, data[i]);
      h := step(h, data[i + 1]);
      h := step(h, data[i + 2]);
      h := step(h, data[i + 3]);
      h := step(h, data[i + 4]);
      h := step(h, data[i + 5]);
      h := step(h, data[i + 6]);
      h := step(h, data[i + 7]);
      i := i + 8;
    }
    while i < |data|
      invariant i <= |data| && h == Fold(step, start, data, i)
    {
      h := step(h, data[i]);
      i := i + 1;
    }
  }

  const BASIS: bv64 := 14695981039346656037

  function FnvStep(h: bv64, b: Byte): bv64 {
    (h ^ (b as bv64)) * 1099511628211
  }

  /** FNV-1a over 64 bits, one byte at a time. */
  function FnvWord(data: Bytes): bv64 {
    Fold(FnvStep, BASIS, data, |data|)
  }

  function Fnv64(data: Bytes): nat {
    FnvWord(data) as nat
  }

  /** The published values for the empty string, "a" and "foobar". */
  lemma FnvVectors()
    ensures FnvWord([]) == 0xcbf29ce484222325 && FnvWord([97]) == 0xaf63dc4c8601ec8c
    ensures FnvWord([102, 111, 111, 98, 97, 114]) == 0x85944171f73967e8
  {
    assert [] + [97] == [97] && [] + [102] == [102] && [102] + [111] == [102, 111];
    assert [102, 111] + [111] == [102, 111, 111] && [102, 111, 111] + [98] == [102, 111, 111, 98];
    assert [102, 111, 111, 98] + [97] == [102, 111, 111, 98, 97];
    assert [102, 111, 111, 98, 97] + [114] == [102, 111, 111, 98, 97, 114];
    FnvNext([], 97, BASIS, 0xaf63dc4c8601ec8c);
    FnvNext([], 102, BASIS, 0xaf63db4c8601ead9);
    FnvNext([102], 111, 0xaf63db4c8601ead9, 0x8985907b541d342);
    FnvNext([102, 111], 111, 0x8985907b541d342, 0xdcb27518fed9d577);
    FnvNext([102, 111, 111], 98, 0xdcb27518fed9d577, 0xdd120e790c2512af);
    FnvNext([102, 111, 111, 98], 97, 0xdd120e790c2512af, 0xcac165afa2fef40a);
    FnvNext([102, 111, 111, 98, 97], 114, 0xcac165afa2fef40a, 0x85944171f73967e8);
  }

  lemma FnvNext(data: Bytes, b: Byte, h: bv64, next: bv64)
    requires FnvWord(data) == h && FnvStep(h, b) == next
    ensures FnvWord(data + [b]) == next
  {
    FoldPrefix(FnvStep, BASIS, data, data + [b], |data|);
  }

  lemma {:induction false} FoldPrefix<S>(step: (S, Byte) -> S, start: S, a: Bytes, b: Bytes, n: nat)
    requires n <= |a| && a <= b
    ensures Fold(step, start, a, n) == Fold(step, start, b, n)
  {
    if n > 0 { FoldPrefix(step, start, a, b, n - 1); }
  }

  method Hash(data: Bytes) returns (h: nat)
    ensures h == Fnv64(data)
  {
    var folded := FoldUnrolled(FnvStep, BASIS, data);
    h := folded as nat;
  }

  /** Zero marks a free bucket, so a zero hash is stored as one. */
  function Tag(data: Bytes): nat {
    if Fnv64(data) == 0 then 1 else Fnv64(data)
  }

  // ---- Chunks -----------------------------------------------------------------------------------

  datatype Chunk = Chunk(base: nat, used: nat, cap: nat)

  function Align(size: nat): nat {
    (size + 7) / 8 * 8
  }

  /** `size` plus seven, with the low three bits masked off, in 64-bit arithmetic. */
  lemma AlignIsMask(size: nat)
    requires size <= UINT64_MAX - 7
    ensures Bits.BitAnd(size + 7, UINT64_MAX - 7) == Align(size)
  {
    assert Bits.Pow2(3) == 8;
    Bits.Pow2Words();
    Bits.MaskRun(size + 7, 3, 64);
  }

  method Aligned(size: nat) returns (aligned: nat)
    requires size <= UINT64_MAX - 7
    ensures aligned % 8 == 0 && size <= aligned < size + 8
  {
    AlignIsMask(size);
    aligned := Bits.BitAnd(size + 7, UINT64_MAX - 7);
  }

  ghost predicate Apart(p: nat, n: nat, q: nat, m: nat) {
    p + n <= q || q + m <= p
  }

  ghost predicate Laid(chunks: seq<Chunk>) {
    && (forall i :: 0 <= i < |chunks| ==> chunks[i].used <= chunks[i].cap)
    && (forall i, j :: 0 <= i < j < |chunks| ==> Apart(chunks[i].base, chunks[i].cap, chunks[j].base, chunks[j].cap))
  }

  /** The `n` bytes at `p` lie in the used part of some chunk. */
  ghost predicate InUse(chunks: seq<Chunk>, p: nat, n: nat) {
    exists i :: 0 <= i < |chunks| && chunks[i].base <= p && p + n <= chunks[i].base + chunks[i].used
  }

  /** The system allocator: all that is known of it is that it hands out memory apart from the
      memory handed out before. */
  method SystemAlloc(chunks: seq<Chunk>, size: nat) returns (base: nat)
    ensures forall i :: 0 <= i < |chunks| ==> Apart(base, size, chunks[i].base, chunks[i].cap)
  {
    base := 0;
    for n := 0 to |chunks|
      invariant forall i :: 0 <= i < n ==> chunks[i].base + chunks[i].cap <= base
    {
      if base < chunks[n].base + chunks[n].cap {
        base := chunks[n].base + chunks[n].cap;
      }
    }
  }

  /** What was in use stays in use, apart from the `n` bytes at `p`, which are in use now. */
  ghost predicate Gives(before: seq<Chunk>, after: seq<Chunk>, p: nat, n: nat) {
    && Laid(after) && InUse(after, p, n)
    && forall q: nat, k: nat :: InUse(before, q, k) ==> InUse(after, q, k) && Apart(p, n, q, k)
  }

  /** The last chunk had the room that the request takes, and no other chunk changed. */
  ghost predicate Bumped(before: seq<Chunk>, after: seq<Chunk>, size: nat) {
    var last := |before| - 1;
    && before != [] && |after| == |before| && after[..last] == before[..last]
    && before[last].used + size <= after[last].used <= after[last].cap
    && (after[last].used - before[last].used) % 8 == 0 && after[last].used < before[last].used + size + 8
  }

  /** The last chunk was too small, and there is a new one, of 64 KiB unless the request is larger. */
  ghost predicate Linked(before: seq<Chunk>, after: seq<Chunk>, size: nat) {
    var last := |before| - 1;
    && |after| == |before| + 1 && after[..|before|] == before
    && (before == [] || before[last].cap - before[last].used < after[|before|].used)
    && size <= after[|before|].used < size + 8 && after[|before|].used % 8 == 0
    && after[|before|].cap == if after[|before|].used > 65536 then after[|before|].used else 65536
  }

  lemma NewChunkApart(chunks: seq<Chunk>, c: Chunk, n: nat)
    requires Laid(chunks) && 0 < n <= c.used <= c.cap && c.used < n + 8 && c.used % 8 == 0
    requires c.cap == if c.used > 65536 then c.used else 65536
    requires chunks == [] || chunks[|chunks| - 1].cap - chunks[|chunks| - 1].used < c.used
    requires forall i :: 0 <= i < |chunks| ==> Apart(c.base, c.cap, chunks[i].base, chunks[i].cap)
    ensures Gives(chunks, chunks + [c], c.base, n) && Linked(chunks, chunks + [c], n)
  {
    var after := chunks + [c];
    assert after[|chunks|] == c;
    forall q: nat, k: nat | InUse(chunks, q, k) ensures InUse(after, q, k) && Apart(c.base, n, q, k) {
      var i :| 0 <= i < |chunks| && chunks[i].base <= q && q + k <= chunks[i].base + chunks[i].used;
      assert after[i] == chunks[i];
    }
  }

  lemma BumpApart(chunks: seq<Chunk>, aligned: nat, n: nat)
    requires Laid(chunks) && chunks != [] && 0 < n <= aligned < n + 8 && aligned % 8 == 0
    requires var c := chunks[|chunks| - 1]; aligned <= c.cap - c.used
    ensures var c := chunks[|chunks| - 1];
            var after := chunks[|chunks| - 1 := c.(used := c.used + aligned)];
            Gives(chunks, after, c.base + c.used, n) && Bumped(chunks, after, n)
  {
    var last := |chunks| - 1;
    var c := chunks[last];
    var after := chunks[last := c.(used := c.used + aligned)];
    assert after[last].base <= c.base + c.used;
    forall q: nat, k: nat | InUse(chunks, q, k) ensures InUse(after, q, k) && Apart(c.base + c.used, n, q, k) {
      var i :| 0 <= i < |chunks| && chunks[i].base <= q && q + k <= chunks[i].base + chunks[i].used;
      assert after[i].base <= q;
      assert i < last ==> Apart(chunks[i].base, chunks[i].cap, c.base, c.cap);
    }
  }

  /** A new chunk with the request at its start. */
  method Link(chunks: seq<Chunk>, aligned: nat, n: nat) returns (after: seq<Chunk>, p: nat)
    requires Laid(chunks) && 0 < n <= aligned < n + 8 && aligned % 8 == 0
    requires chunks == [] || chunks[|chunks| - 1].cap - chunks[|chunks| - 1].used < aligned
    ensures Gives(chunks, after, p, n) && Linked(chunks, after, n)
  {
    var cap := if CHUNK_SIZE < aligned then aligned else CHUNK_SIZE;
    p := SystemAlloc(chunks, cap);
    NewChunkApart(chunks, Chunk(p, aligned, cap), n);
    after := chunks + [Chunk(p, aligned, cap)];
  }

  /** The request behind what the last chunk holds. */
  method Bump(chunks: seq<Chunk>, aligned: nat, n: nat) returns (after: seq<Chunk>, p: nat)
    requires Laid(chunks) && chunks != [] && 0 < n <= aligned < n + 8 && aligned % 8 == 0
    requires var c := chunks[|chunks| - 1]; aligned <= c.cap - c.used
    ensures Gives(chunks, after, p, n) && Bumped(chunks, after, n)
  {
    BumpApart(chunks, aligned, n);
    var last := |chunks| - 1;
    p := chunks[last].base + chunks[last].used;
    after := chunks[last := chunks[last].(used := chunks[last].used + aligned)];
  }

  // ---- The pool ---------------------------------------------------------------------------------

  type Memory = nat -> Byte

  /** The bytes of the blob at `p`: a length word, then the content. */
  function Blob(lens: map<nat, nat>, mem: Memory, p: nat): Bytes {
    if p in lens then seq(lens[p], (i: nat) => mem(p + 8 + i)) else []
  }

  /** Copies `data` to `at`. */
  function Copy(mem: Memory, at: nat, data: Bytes): Memory {
    (a: nat) => if at <= a < at + |data| then data[a - at] else mem(a)
  }

  function View(lens: map<nat, nat>, mem: Memory): nat -> Bytes {
    (p: nat) => Blob(lens, mem, p)
  }

  /** A table keeps its meaning when the blobs it points at do. */
  lemma ViewChange<K(!new)>(t: Table, v: nat -> K, w: nat -> K, hash: K -> nat)
    requires Wf(t, v, hash) && forall i :: 0 <= i < |t| && t[i].Full? ==> v(t[i].key) == w(t[i].key)
    ensures Wf(t, w, hash) && Abs(t, w) == Abs(t, v)
  {
    var a, b := Abs(t, v), Abs(t, w);
    forall k | k in a ensures k in b && b[k] == a[k] {
      var i :| 0 <= i < |t| && t[i].Full? && v(t[i].key) == k;
      assert w(t[i].key) == k;
    }
    forall k | k in b ensures k in a {
      var i :| 0 <= i < |t| && t[i].Full? && w(t[i].key) == k;
      assert v(t[i].key) == k;
    }
  }

  /** Every entry points at a blob in use, and its value is its pointer. */
  ghost predicate Backed(t: Table, chunks: seq<Chunk>, lens: map<nat, nat>) {
    forall i :: 0 <= i < |t| && t[i].Full? ==>
      t[i].key in lens && InUse(chunks, t[i].key, 8 + lens[t[i].key]) && t[i].value == t[i].key
  }

  lemma SameBinding(m: map<Bytes, int>, k: Bytes, v: int)
    requires k in m && m[k] == v
    ensures m[k := v] == m
  {
  }

  datatype Found = At(idx: nat) | Free(idx: nat) | TableFull

  class Pool {
    const table: array<Cell>
    var chunks: seq<Chunk>
    var lens: map<nat, nat>
    var mem: Memory

    ghost predicate Valid()
      reads this, table
    {
      && table.Length == BUCKETS && Laid(chunks)
      && Wf(table[..], View(lens, mem), Tag) && Backed(table[..], chunks, lens)
    }

    /** Interned content to the pointer it was given. */
    ghost function Map(): map<Bytes, int>
      requires Valid()
      reads this, table
    {
      Abs(table[..], View(lens, mem))
    }

    constructor ()
      ensures Valid() && Map() == map[] && fresh(table)
    {
      table := new Cell[BUCKETS](_ => Empty);
      chunks, lens, mem := [], map[], (a: nat) => 0;
    }

    /** Space for a blob, clear of everything in use. */
    method Alloc(size: nat) returns (p: nat)
      requires Laid(chunks) && 0 < size <= UINT64_MAX - 7
      modifies this`chunks
      ensures Gives(old(chunks), chunks, p, size)
      ensures Bumped(old(chunks), chunks, size) || Linked(old(chunks), chunks, size)
    {
      var aligned := Aligned(size);
      var last := |chunks| - 1;
      if chunks == [] || aligned > chunks[last].cap - chunks[last].used {
        chunks, p := Link(chunks, aligned, size);
      } else {
        chunks, p := Bump(chunks, aligned, size);
      }
    }

    /** Probes at most as many buckets as the table has. */
    method Probe(data: Bytes) returns (r: Found)
      requires Valid()
      ensures r.At? ==> r.idx < BUCKETS && table[r.idx].Full? && Blob(lens, mem, table[r.idx].key) == data
      ensures r.At? ==> data in Map() && Map()[data] == table[r.idx].key
      ensures r.Free? ==> r.idx < BUCKETS && table[r.idx].Empty?
      ensures r.Free? ==> Probed(table[..], View(lens, mem), Tag(data) % BUCKETS, r.idx, data)
      ensures !r.At? ==> data !in Map()
      ensures r.TableFull? <==> data !in Map() && Load(table[..]) == BUCKETS
      ensures r.Free? ==> Load(table[..]) < BUCKETS
    {
      ghost var t, view := table[..], View(lens, mem);
      var h := Hash(data);
      var tag := if h == 0 then 1 else h;
      var idx: nat := tag % BUCKETS;
      ghost var start := idx;
      for probe := 0 to BUCKETS
        invariant idx < BUCKETS
        invariant probe < BUCKETS ==> Probed(t, view, start, idx, data)
        invariant probe < BUCKETS ==> probe == if idx >= start then idx - start else BUCKETS - start + idx
        invariant probe == BUCKETS ==> forall k :: 0 <= k < |t| ==> t[k].Full? && view(t[k].key) != data
      {
        assert t[idx] == table[idx];
        if table[idx].Empty? {
          AbsentAtEmpty(t, view, Tag, idx, data);
          FullLoad(t);
          return Free(idx);
        }
        if table[idx].hash == tag && Blob(lens, mem, table[idx].key) == data {
          return At(idx);
        }
        ghost var seen := idx;
        idx := Next(idx, BUCKETS);
        if idx == start {
          ProbeAround(t, view, start, seen, data);
        } else {
          ProbeStep(t, view, start, seen, data);
        }
      }
      FullLoad(t);
      r := TableFull;
    }

    /** The pointer of `data`, new or known.  It fails, which ends the program, exactly when the
        content is new and the table is full or the size overflows. */
    method Intern(data: Bytes) returns (p: nat, ok: bool)
      requires Valid()
      modifies this, table
      ensures Valid()
      ensures ok <==> data in old(Map()) || (|old(Map())| < 262144 && |data| <= UINT64_MAX - 15)
      ensures ok ==> Blob(lens, mem, p) == data
      ensures ok ==> Map() == old(Map())[data := p] && (data in old(Map()) ==> p == old(Map())[data])
      ensures !ok ==> Map() == old(Map())
    {
      var r := Probe(data);
      LoadIsSize(table[..], View(lens, mem));
      if r.At? {
        p, ok := table[r.idx].key, true;
        SameBinding(Map(), data, p);
      } else if r.TableFull? || |data| > UINT64_MAX - 15 {
        p, ok := 0, false;
      } else {
        p := Add(data, r.idx);
        ok := true;
      }
    }

    method Add(data: Bytes, idx: nat) returns (p: nat)
      requires Valid() && |data| <= UINT64_MAX - 15 && idx < BUCKETS && table[idx].Empty? && data !in Map()
      requires Probed(table[..], View(lens, mem), Tag(data) % BUCKETS, idx, data)
      modifies this, table
      ensures Valid() && Blob(lens, mem, p) == data && Map() == old(Map())[data := p]
    {
      ghost var t, before, lens0, mem0 := table[..], chunks, lens, mem;
      p := Alloc(8 + |data|);
      Added(t, idx, p, data, before, lens0, mem0, chunks);
      lens := lens[p := |data|];
      mem := Copy(mem, p + 8, data);
      table[idx] := Full(p, Tag(data), p);
      assert table[..] == t[idx := Full(p, Tag(data), p)];
    }

    /** A whole run: it succeeds exactly when the table can hold the different contents; two calls
        return the same pointer exactly when their contents are equal, and at the end every pointer
        still points at its content. */
    method InternAll(inputs: seq<Bytes>) returns (ptrs: seq<nat>, ok: bool)
      requires Valid()
      modifies this, table
      ensures Valid()
      ensures ok <==> Interns(old(Map()), inputs)
      ensures ok ==> PointersFor(this, inputs, ptrs)
    {
      ptrs, ok := [], true;
      ghost var start, m := Map(), Map();
      InternedNone(start, inputs);
      for n := 0 to |inputs|
        invariant Valid() && m == Map() && ok && Bound(m, inputs[..n], ptrs)
        invariant InternedSoFar(start, m, inputs, n)
      {
        var p, done := Intern(inputs[n]);
        if !done {
          ok := false;
          NoMore(start, m, inputs, n);
          return;
        }
        BindNext(m, inputs, n, ptrs, p);
        InternedNext(start, m, inputs, n, p);
        m := m[inputs[n] := p];
        ptrs := ptrs + [p];
      }
      assert inputs[..|inputs|] == inputs;
      HoldsAtMost(this);
      AllInterned(start, m, inputs);
      BoundMeansPointers(this, inputs, ptrs);
    }
  }

  /** How many different contents the table holds in the end, and which of them have a size. */
  ghost predicate Interns(m: map<Bytes, int>, inputs: seq<Bytes>) {
    && |m.Keys + Contents(inputs)| <= 262144
    && forall i :: 0 <= i < |inputs| && inputs[i] !in m ==> |inputs[i]| <= UINT64_MAX - 15
  }

  ghost function Contents(inputs: seq<Bytes>): set<Bytes> {
    set x | x in inputs
  }

  /** The keys are those at the start and the first `n` contents. */
  ghost predicate InternedSoFar(start: map<Bytes, int>, m: map<Bytes, int>, inputs: seq<Bytes>, n: nat) {
    && n <= |inputs| && m.Keys == start.Keys + Contents(inputs[..n])
    && forall i :: 0 <= i < n && inputs[i] !in start ==> |inputs[i]| <= UINT64_MAX - 15
  }

  lemma InternedNone(start: map<Bytes, int>, inputs: seq<Bytes>)
    ensures InternedSoFar(start, start, inputs, 0) && Bound(start, inputs[..0], [])
  {
    assert Contents(inputs[..0]) == {};
  }

  lemma InternedNext(start: map<Bytes, int>, m: map<Bytes, int>, inputs: seq<Bytes>, n: nat, p: nat)
    requires InternedSoFar(start, m, inputs, n) && n < |inputs|
    requires inputs[n] in m || |inputs[n]| <= UINT64_MAX - 15
    ensures InternedSoFar(start, m[inputs[n] := p], inputs, n + 1)
  {
    assert inputs[..n + 1] == inputs[..n] + [inputs[n]];
    forall i | 0 <= i < n + 1 && inputs[i] !in start ensures |inputs[i]| <= UINT64_MAX - 15 {
      if i == n && inputs[n] in m { assert inputs[n] in inputs[..n]; }
    }
  }

  lemma AllInterned(start: map<Bytes, int>, m: map<Bytes, int>, inputs: seq<Bytes>)
    requires InternedSoFar(start, m, inputs, |inputs|) && |m| <= 262144
    ensures Interns(start, inputs)
  {
    assert inputs[..|inputs|] == inputs;
    assert m.Keys == start.Keys + Contents(inputs);
  }

  lemma NoMore(start: map<Bytes, int>, m: map<Bytes, int>, inputs: seq<Bytes>, n: nat)
    requires InternedSoFar(start, m, inputs, n) && n < |inputs| && inputs[n] !in m
    requires |m| >= 262144 || |inputs[n]| > UINT64_MAX - 15
    ensures !Interns(start, inputs)
  {
    if |m| >= 262144 { OneMoreKey(m.Keys, start.Keys + Contents(inputs), inputs[n]); }
  }

  lemma OneMoreKey(known: set<Bytes>, all: set<Bytes>, x: Bytes)
    requires known <= all && x in all && x !in known
    ensures |known| < |all|
  {
    assert all == known + (all - known) && x in all - known;
  }

  /** The map binds every input to its pointer. */
  ghost predicate Bound(m: map<Bytes, int>, inputs: seq<Bytes>, ptrs: seq<nat>) {
    |ptrs| == |inputs| && forall i :: 0 <= i < |inputs| ==> inputs[i] in m && m[inputs[i]] == ptrs[i]
  }

  lemma BindNext(m: map<Bytes, int>, inputs: seq<Bytes>, n: nat, ptrs: seq<nat>, p: nat)
    requires n < |inputs| && Bound(m, inputs[..n], ptrs) && (inputs[n] in m ==> p == m[inputs[n]])
    ensures Bound(m[inputs[n] := p], inputs[..n + 1], ptrs + [p])
  {
  }

  /** Equal pointers exactly for equal contents, each still pointing at its content. */
  ghost predicate PointersFor(pool: Pool, inputs: seq<Bytes>, ptrs: seq<nat>)
    reads pool
  {
    && |ptrs| == |inputs|
    && (forall i, j :: 0 <= i < |inputs| && 0 <= j < |inputs| ==> (ptrs[i] == ptrs[j] <==> inputs[i] == inputs[j]))
    && (forall i :: 0 <= i < |inputs| ==> Blob(pool.lens, pool.mem, ptrs[i]) == inputs[i])
  }

  lemma BoundMeansPointers(pool: Pool, inputs: seq<Bytes>, ptrs: seq<nat>)
    requires pool.Valid() && Bound(pool.Map(), inputs, ptrs)
    ensures PointersFor(pool, inputs, ptrs)
  {
    forall i | 0 <= i < |inputs| ensures Blob(pool.lens, pool.mem, ptrs[i]) == inputs[i] {
      PointerHolds(pool, inputs[i]);
    }
  }

  lemma HoldsAtMost(pool: Pool)
    requires pool.Valid()
    ensures |pool.Map()| <= 262144
  {
    LoadIsSize(pool.table[..], View(pool.lens, pool.mem));
  }

  /** The pool after a new blob and its entry. */
  lemma Added(t: Table, idx: nat, p: nat, data: Bytes, chunks: seq<Chunk>, lens: map<nat, nat>, mem: Memory,
              newChunks: seq<Chunk>)
    requires Wf(t, View(lens, mem), Tag) && Backed(t, chunks, lens)
    requires idx < |t| && t[idx].Empty? && Probed(t, View(lens, mem), Tag(data) % |t|, idx, data)
    requires InUse(newChunks, p, 8 + |data|)
    requires forall q: nat, n: nat :: InUse(chunks, q, n) ==> InUse(newChunks, q, n) && Apart(p, 8 + |data|, q, n)
    ensures
      var u, lens', mem' := t[idx := Full(p, Tag(data), p)], lens[p := |data|], Copy(mem, p + 8, data);
      && Wf(u, View(lens', mem'), Tag) && Backed(u, newChunks, lens') && Blob(lens', mem', p) == data
      && Abs(u, View(lens', mem')) == Abs(t, View(lens, mem))[data := p]
  {
    var v, w := View(lens, mem), View(lens[p := |data|], Copy(mem, p + 8, data));
    assert forall i :: 0 <= i < |t| && t[i].Full? ==> InUse(chunks, t[i].key, 8 + lens[t[i].key]);
    BlobsKept(t, lens, mem, p, data);
    ViewChange(t, v, w, Tag);
    var c := Full(p, Tag(data), p);
    assert w(p) == data;
    InsertAt(t, w, Tag, idx, c);
    StillBacked(t, idx, c, chunks, lens, newChunks, |data|);
  }

  lemma StillBacked(t: Table, idx: nat, c: Cell, chunks: seq<Chunk>, lens: map<nat, nat>, newChunks: seq<Chunk>,
                    len: nat)
    requires idx < |t| && c.Full? && c.value == c.key && Backed(t, chunks, lens) && InUse(newChunks, c.key, 8 + len)
    requires forall q: nat, n: nat :: InUse(chunks, q, n) ==> InUse(newChunks, q, n) && Apart(c.key, 8 + len, q, n)
    ensures Backed(t[idx := c], newChunks, lens[c.key := len])
  {
  }

  /** Writing a new blob clear of the old ones changes none of them. */
  lemma BlobsKept(t: Table, lens: map<nat, nat>, mem: Memory, p: nat, data: Bytes)
    requires forall i :: 0 <= i < |t| && t[i].Full? ==>
               t[i].key in lens && Apart(p, 8 + |data|, t[i].key, 8 + lens[t[i].key])
    ensures var v, w := View(lens, mem), View(lens[p := |data|], Copy(mem, p + 8, data));
            w(p) == data && forall i :: 0 <= i < |t| && t[i].Full? ==> v(t[i].key) == w(t[i].key)
  {
    var newMem := Copy(mem, p + 8, data);
    assert Blob(lens[p := |data|], newMem, p) == data;
    forall i | 0 <= i < |t| && t[i].Full?
      ensures Blob(lens[p := |data|], newMem, t[i].key) == Blob(lens, mem, t[i].key)
    {
      assert t[i].key != p;
    }
  }

  /** A table is full exactly when its load is its size. */
  lemma {:induction false} FullLoad(t: Table)
    ensures Load(t) == |t| <==> forall k :: 0 <= k < |t| ==> t[k].Full?
  {
    if t != [] {
      var n := |t| - 1;
      FullLoad(t[..n]);
      if forall k :: 0 <= k < |t| ==> t[k].Full? {
        assert forall k :: 0 <= k < n ==> t[..n][k] == t[k];
      } else if t[n].Full? {
        var k :| 0 <= k < |t| && !t[k].Full?;
        assert t[..n][k] == t[k];
      }
    }
  }

  /** The blob at an interned pointer is its content ... */
  lemma PointerHolds(pool: Pool, a: Bytes)
    requires pool.Valid() && a in pool.Map()
    ensures pool.Map()[a] >= 0 && Blob(pool.lens, pool.mem, pool.Map()[a]) == a
  {
    var t, view := pool.table[..], View(pool.lens, pool.mem);
    var i :| 0 <= i < |t| && t[i].Full? && view(t[i].key) == a;
    assert t[i].value == t[i].key;
  }

  /** ... so distinct contents have distinct pointers. */
  lemma SamePointerIffSameContent(pool: Pool, a: Bytes, b: Bytes)
    requires pool.Valid() && a in pool.Map() && b in pool.Map()
    ensures pool.Map()[a] == pool.Map()[b] <==> a == b
  {
    PointerHolds(pool, a);
    PointerHolds(pool, b);
  }
}
