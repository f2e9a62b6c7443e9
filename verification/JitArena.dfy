/** The just-in-time runtime's arena: chunks are kept when a scope is popped and cut off at the
    next growth. */
module JitArena {
  import opened ArenaSpec
  import Bits

  datatype Chunk = Chunk(id: nat, size: nat)

  const CHUNK_SIZE: nat := 4 * 1024 * 1024

  function AlignUp(n: nat): nat {
    (n + 15) / 16 * 16
  }

  /** Sizes are nonnegative signed 64-bit integers. */
  const SIZE_LIMIT: nat := 0x8000_0000_0000_0000

  /** As computed, with the low four bits of a 64-bit sum masked off. */
  lemma AlignUpIsMask(n: nat)
    requires n < SIZE_LIMIT
    ensures Bits.BitAnd(n + 15, 2 * SIZE_LIMIT - 16) == AlignUp(n)
  {
    Bits.Pow2Words();
    Bits.LowCleared(n + 15, 4, 64);
  }

  /** The arena, its scope stack, and a record of the blocks it has handed out. */
  datatype State = State(chunks: seq<Chunk>, current: nat, offset: nat, scopes: seq<Position>, nextId: nat,
                         live: seq<Block>, marks: seq<nat>, serial: nat)

  /** The current position and the saved ones are inside the chunks. */
  ghost predicate Inside(chunks: seq<Chunk>, p: Position) {
    p == Position(0, 0) || (p.index < |chunks| && p.offset <= chunks[p.index].size)
  }

  /** Every live block lies inside the chunk that it was given, which is still there. */
  ghost predicate Placed(chunks: seq<Chunk>, live: seq<Block>) {
    forall b :: b in live ==> Holds(chunks, b)
  }

  predicate Holds(chunks: seq<Chunk>, b: Block) {
    b.index < |chunks| && chunks[b.index].id == b.chunk && b.start + b.size <= chunks[b.index].size
  }

  ghost predicate DistinctIds(chunks: seq<Chunk>, nextId: nat) {
    && (forall i :: 0 <= i < |chunks| ==> chunks[i].id < nextId)
    && (forall i, j :: 0 <= i < j < |chunks| ==> chunks[i].id != chunks[j].id)
  }

  ghost predicate Ok(s: State) {
    && Ordered(s.live, s.marks, s.scopes, Position(s.current, s.offset))
    && (s.current < |s.chunks| || (s.current == 0 && s.offset == 0))
    && Inside(s.chunks, Position(s.current, s.offset))
    && (forall p :: p in s.scopes ==> Inside(s.chunks, p))
    && DistinctIds(s.chunks, s.nextId) && Placed(s.chunks, s.live)
  }

  function AddBlock(s: State, b: Block): State {
    s.(live := s.live + [b], serial := s.serial + 1, current := b.index, offset := b.start + b.size)
  }

  lemma AddBlockAbs(s: State, b: Block, size: nat)
    requires b.serial == s.serial
    ensures Abs(AddBlock(s, b)) == Step(Abs(s), Alloc(size))
  {
    assert (s.live + [b])[..|s.live|] == s.live;
  }

  /** The bump pointer moves on in the current chunk. */
  function Bump(s: State, aligned: nat): State
    requires s.current < |s.chunks|
  {
    AddBlock(s, Block(s.serial, s.chunks[s.current].id, s.current, s.offset, aligned))
  }

  /** Chunks past the current one are cut off, and a new one becomes current. */
  function Grow(s: State, aligned: nat): State {
    var added := Chunk(s.nextId, if CHUNK_SIZE < aligned then aligned else CHUNK_SIZE);
    var index := if s.chunks == [] then 0 else s.current + 1;
    var kept := if s.current < |s.chunks| then s.chunks[..s.current + 1] else [];
    AddBlock(s.(chunks := kept + [added], nextId := s.nextId + 1), Block(s.serial, added.id, index, 0, aligned))
  }

  lemma BumpOk(s: State, aligned: nat, size: nat)
    requires Ok(s) && s.current < |s.chunks| && s.offset + aligned <= s.chunks[s.current].size
    ensures Ok(Bump(s, aligned)) && Abs(Bump(s, aligned)) == Step(Abs(s), Alloc(size))
  {
    var b := Block(s.serial, s.chunks[s.current].id, s.current, s.offset, aligned);
    AddBlockAbs(s, b, size);
    OrderedAlloc(s.live, s.marks, s.scopes, Position(s.current, s.offset), b);
  }

  lemma GrowOk(s: State, aligned: nat, size: nat)
    requires Ok(s)
    ensures Ok(Grow(s, aligned)) && Abs(Grow(s, aligned)) == Step(Abs(s), Alloc(size))
  {
    var t := Grow(s, aligned);
    var b := t.live[|s.live|];
    AddBlockAbs(s.(chunks := t.chunks, nextId := t.nextId), b, size);
    OrderedAlloc(s.live, s.marks, s.scopes, Position(s.current, s.offset), b);
    CutKeeps(s, t.chunks);
    GrowIds(s, aligned);
    assert Holds(t.chunks, b);
    assert t.live == s.live + [b];
  }

  lemma GrowIds(s: State, aligned: nat)
    requires DistinctIds(s.chunks, s.nextId) && (s.current < |s.chunks| || s.current == 0)
    ensures var t := Grow(s, aligned);
            && DistinctIds(t.chunks, t.nextId) && |t.chunks| == t.current + 1
            && t.chunks[t.current].id == s.nextId && aligned <= t.chunks[t.current].size
  {
  }

  /** Cutting off the chunks past the current position drops no live block and no saved position. */
  lemma CutKeeps(s: State, chunks: seq<Chunk>)
    requires Ok(s)
    requires (s.current < |s.chunks| ==> |chunks| > s.current && chunks[..s.current + 1] == s.chunks[..s.current + 1])
    ensures Placed(chunks, s.live) && forall p :: p in s.scopes ==> Inside(chunks, p)
  {
    if s.current < |s.chunks| {
      assert forall i :: 0 <= i <= s.current ==> chunks[i] == chunks[..s.current + 1][i] == s.chunks[i];
    }
    forall b | b in s.live ensures Holds(chunks, b) {
      var i :| 0 <= i < |s.live| && s.live[i] == b;
      assert AtOrBefore(End(s.live[i]), Position(s.current, s.offset));
    }
    forall p | p in s.scopes ensures Inside(chunks, p) {
      var k :| 0 <= k < |s.scopes| && s.scopes[k] == p;
      assert AtOrBefore(s.scopes[k], Position(s.current, s.offset));
    }
  }

  function Open(s: State): State {
    s.(scopes := s.scopes + [Position(s.current, s.offset)], marks := s.marks + [|s.live|])
  }

  lemma OpenOk(s: State)
    requires Ok(s)
    ensures Ok(Open(s))
  {
    OrderedPush(s.live, s.marks, s.scopes, Position(s.current, s.offset));
  }

  function Close(s: State): State
    requires s.scopes != [] && |s.marks| == |s.scopes| && s.marks[|s.marks| - 1] <= |s.live|
  {
    var n := |s.scopes| - 1;
    s.(current := s.scopes[n].index, offset := s.scopes[n].offset, scopes := s.scopes[..n],
       live := s.live[..s.marks[n]], marks := s.marks[..n])
  }

  lemma CloseOk(s: State)
    requires Ok(s) && s.scopes != []
    ensures |s.marks| == |s.scopes| && s.marks[|s.marks| - 1] <= |s.live| && Ok(Close(s))
  {
    OrderedPop(s.live, s.marks, s.scopes, Position(s.current, s.offset));
    assert s.scopes[|s.scopes| - 1] in s.scopes;
  }

  ghost function Abs(s: State): Frames {
    Frames(Serials(s.live), s.marks, s.serial)
  }

  lemma CloseAbs(s: State)
    requires s.scopes != [] && |s.marks| == |s.scopes| && s.marks[|s.marks| - 1] <= |s.live|
    ensures Abs(Close(s)) == Step(Abs(s), Pop) && Close(s).live <= s.live
  {
    SerialsPrefix(s.live, s.marks[|s.marks| - 1]);
  }

  function Here(s: State): Position {
    Position(s.current, s.offset)
  }

  // ---- What one call leaves behind ----------------------------------------------------------------

  /** The chunks up to the current one are still there. */
  ghost predicate SamePrefix(s: State, t: State) {
    s.current < |s.chunks| ==>
      s.current < |t.chunks| && t.chunks[..s.current + 1] == s.chunks[..s.current + 1]
  }

  /** The new block fills the current chunk further when that has room for it, and otherwise starts a
      new chunk of 4 MiB, or of its own size when it is larger. */
  ghost predicate Allocated(s: State, size: nat, t: State) {
    && t.scopes == s.scopes && t.marks == s.marks && |t.live| == |s.live| + 1 && s.live <= t.live
    && SamePrefix(s, t) && AtOrBefore(Here(s), Here(t))
    && var b := t.live[|s.live|];
       var least := if size < 8 then 8 else size;
       && b.size % 16 == 0 && least <= b.size < least + 16 && Here(t) == End(b)
       && if s.current < |s.chunks| && s.offset + b.size <= s.chunks[s.current].size
          then t.chunks == s.chunks && Start(b) == Here(s) && b.chunk == s.chunks[s.current].id
          else && t.current == |t.chunks| - 1 && b.start == 0 && b.chunk == s.nextId
               && t.chunks[t.current] == Chunk(s.nextId, if b.size < 4194304 then 4194304 else b.size)
  }

  ghost predicate Opened(s: State, t: State) {
    && t.scopes == s.scopes + [Here(s)] && t.marks == s.marks + [|s.live|]
    && Here(t) == Here(s) && t.live == s.live && t.chunks == s.chunks
  }

  /** The arena is back at the position saved by the matching push, the blocks allocated since are
      dead, and without an open scope nothing happens. */
  ghost predicate Closed(s: State, t: State) {
    if s.scopes == [] then t == s
    else
      var n := |s.scopes| - 1;
      && |s.marks| == |s.scopes| && s.marks[n] <= |s.live|
      && Here(t) == s.scopes[n] && t.scopes == s.scopes[..n] && t.marks == s.marks[..n]
      && t.live == s.live[..s.marks[n]] && t.chunks == s.chunks
  }

  ghost predicate After(s: State, op: Op, t: State) {
    && Abs(t) == Step(Abs(s), op)
    && match op
       case Alloc(size) => Allocated(s, size, t)
       case Push => Opened(s, t)
       case Pop => Closed(s, t)
  }

  // ---- Runs that stay above a level -----------------------------------------------------------------

  ghost predicate NeverBelow(s: Frames, ops: seq<Op>, n: nat, depth: nat)
    requires n <= |ops|
  {
    forall k :: 0 <= k <= n ==> |Steps(s, ops[..k]).marks| >= depth
  }

  /** What was open and live in `s` still is, and the position is not before that of `s`. */
  ghost predicate Kept(s: State, t: State) {
    && s.scopes <= t.scopes && s.marks <= t.marks && s.live <= t.live && SamePrefix(s, t)
    && (forall k :: |s.marks| <= k < |t.marks| ==> t.marks[k] >= |s.live|)
    && (forall k :: |s.scopes| <= k < |t.scopes| ==> AtOrBefore(Here(s), t.scopes[k]))
    && AtOrBefore(Here(s), Here(t))
  }

  lemma KeptByOne(s: State, t: State, op: Op, u: State)
    requires |s.scopes| == |s.marks| && |t.scopes| == |t.marks| && (t.chunks != [] ==> t.current < |t.chunks|)
    requires Kept(s, t) && After(t, op, u) && |u.marks| >= |s.marks|
    ensures Kept(s, u)
  {
    if op.Alloc? && s.current < |s.chunks| {
      assert u.chunks[..s.current + 1] == u.chunks[..t.current + 1][..s.current + 1];
      assert t.chunks[..s.current + 1] == t.chunks[..t.current + 1][..s.current + 1];
    }
  }

  ghost predicate RunSoFar(s: State, ops: seq<Op>, n: nat, t: State)
    requires n <= |ops|
  {
    && Abs(t) == Steps(Abs(s), ops[..n])
    && (NeverBelow(Abs(s), ops, n, |s.marks|) ==> Kept(s, t))
  }

  lemma RunStep(s: State, ops: seq<Op>, n: nat, t: State, u: State)
    requires |s.scopes| == |s.marks| && |t.scopes| == |t.marks| && (t.chunks != [] ==> t.current < |t.chunks|)
    requires n < |ops| && RunSoFar(s, ops, n, t) && After(t, ops[n], u)
    ensures RunSoFar(s, ops, n + 1, u)
  {
    assert ops[..n + 1][..n] == ops[..n];
    if NeverBelow(Abs(s), ops, n + 1, |s.marks|) {
      assert |Steps(Abs(s), ops[..n + 1]).marks| >= |s.marks|;
      KeptByOne(s, t, ops[n], u);
    }
  }

  lemma RegionRestores(s: State, t: State, u: State, v: State)
    requires |s.scopes| == |s.marks| && Opened(s, t) && Kept(t, u) && |u.marks| == |t.marks| && |u.scopes| == |t.scopes|
    requires Closed(u, v)
    ensures Here(v) == Here(s) && v.scopes == s.scopes && v.marks == s.marks && v.live == s.live && SamePrefix(s, v)
  {
  }

  class Arena {
    var chunks: seq<Chunk>
    var current: nat
    var offset: nat
    var scopes: seq<Position>
    var nextId: nat
    ghost var live: seq<Block>
    ghost var marks: seq<nat>
    ghost var serial: nat

    ghost function Now(): State
      reads this
    {
      State(chunks, current, offset, scopes, nextId, live, marks, serial)
    }

    ghost predicate Valid()
      reads this
    {
      Ok(Now())
    }

    constructor ()
      ensures Valid() && Abs(Now()) == Start0
    {
      chunks, current, offset, scopes, nextId := [], 0, 0, [], 0;
      live, marks, serial := [], [], 0;
    }

    method BumpCurrent(aligned: nat) returns (chunk: nat, start: nat)
      requires current < |chunks|
      modifies this
      ensures Now() == Bump(old(Now()), aligned)
      ensures chunk == live[|live| - 1].chunk && start == live[|live| - 1].start
    {
      chunk, start := chunks[current].id, offset;
      offset := offset + aligned;
      live := live + [Block(serial, chunk, current, start, aligned)];
      serial := serial + 1;
    }

    method AddChunk(aligned: nat) returns (chunk: nat, start: nat)
      requires chunks != [] ==> current < |chunks|
      requires chunks == [] ==> current == 0
      modifies this
      ensures Now() == Grow(old(Now()), aligned)
      ensures chunk == live[|live| - 1].chunk && start == live[|live| - 1].start
    {
      var added := Chunk(nextId, if CHUNK_SIZE < aligned then aligned else CHUNK_SIZE);
      nextId := nextId + 1;
      if chunks == [] {
        chunks := [added];
        assert [] + [added] == [added];
        current := 0;
      } else {
        chunks := chunks[..current + 1] + [added];
        current := |chunks| - 1;
      }
      chunk, start := added.id, 0;
      offset := aligned;
      live := live + [Block(serial, chunk, current, start, aligned)];
      serial := serial + 1;
    }

    /** A pointer to at least `size` bytes, disjoint from every live block. */
    method Allocate(size: nat) returns (chunk: nat, start: nat)
      requires Valid() && size < SIZE_LIMIT
      modifies this
      ensures Valid() && After(old(Now()), Alloc(size), Now())
      ensures var b := live[|live| - 1]; b.chunk == chunk && b.start == start && b.size >= size
    {
      ghost var s := Now();
      var n := if size < 8 then 8 else size;
      AlignUpIsMask(n);
      var aligned := Bits.BitAnd(n + 15, 2 * SIZE_LIMIT - 16);
      if current < |chunks| && offset + aligned <= chunks[current].size {
        BumpDone(s, aligned, size);
        chunk, start := BumpCurrent(aligned);
      } else {
        GrowDone(s, aligned, size);
        chunk, start := AddChunk(aligned);
      }
    }

    method PushScope()
      requires Valid()
      modifies this
      ensures Valid() && After(old(Now()), Push, Now())
    {
      OpenOk(Now());
      scopes := scopes + [Position(current, offset)];
      marks := marks + [|live|];
    }

    /** Closes the latest scope, if there is one; the blocks that remain are as they were. */
    method PopScope()
      requires Valid()
      modifies this
      ensures Valid() && After(old(Now()), Pop, Now()) && live <= old(live)
    {
      if scopes != [] {
        CloseOk(Now());
        CloseAbs(Now());
        CloseLatest();
      }
    }

    method CloseLatest()
      requires scopes != [] && |marks| == |scopes| && marks[|marks| - 1] <= |live|
      modifies this
      ensures Now() == Close(old(Now()))
    {
      var n := |scopes| - 1;
      current, offset := scopes[n].index, scopes[n].offset;
      scopes := scopes[..n];
      live := live[..marks[n]];
      marks := marks[..n];
    }

    method RunOne(op: Op)
      requires Valid() && (op.Alloc? ==> op.size < SIZE_LIMIT)
      modifies this
      ensures Valid() && After(old(Now()), op, Now())
    {
      match op
      case Alloc(size) =>
        var _, _ := Allocate(size);
      case Push =>
        PushScope();
      case Pop =>
        PopScope();
    }

    /** A whole run.  Live are exactly the allocations that the stack of frames says, no two of
        them share a byte, and each lies inside its chunk.  A run that closes no scope of its caller
        keeps the caller's blocks and never moves before the caller's position. */
    method Run(ops: seq<Op>)
      requires Valid() && forall n :: 0 <= n < |ops| && ops[n].Alloc? ==> ops[n].size < SIZE_LIMIT
      modifies this
      ensures Valid() && Abs(Now()) == Steps(old(Abs(Now())), ops)
      ensures forall i, j :: 0 <= i < j < |live| ==> Disjoint(live[i], live[j])
      ensures Placed(chunks, live)
      ensures NeverBelow(old(Abs(Now())), ops, |ops|, |old(marks)|) ==> Kept(old(Now()), Now())
    {
      ghost var s := Now();
      for n := 0 to |ops|
        invariant Valid() && RunSoFar(s, ops, n, Now())
      {
        ghost var t := Now();
        RunOne(ops[n]);
        RunStep(s, ops, n, t, Now());
      }
      assert ops[..|ops|] == ops;
      AllDisjoint(Now());
    }

    /** A region opened by a push and closed by its pop ends at the position it started from, with
        the same chunks up to there, so that the memory is used again. */
    method Region(ops: seq<Op>)
      requires Valid() && forall n :: 0 <= n < |ops| && ops[n].Alloc? ==> ops[n].size < SIZE_LIMIT
      requires NeverBelow(Step(Abs(Now()), Push), ops, |ops|, |marks| + 1)
      requires |Steps(Step(Abs(Now()), Push), ops).marks| == |marks| + 1
      modifies this
      ensures Valid() && current == old(current) && offset == old(offset) && SamePrefix(old(Now()), Now())
      ensures scopes == old(scopes) && marks == old(marks) && live == old(live)
    {
      ghost var s := Now();
      PushScope();
      ghost var t := Now();
      Run(ops);
      ghost var u := Now();
      PopScope();
      RegionRestores(s, t, u, Now());
    }
  }

  /** Both ways to allocate, as one step of a run. */
  lemma BumpDone(s: State, aligned: nat, size: nat)
    requires Ok(s) && aligned == AlignUp(if size < 8 then 8 else size)
    requires s.current < |s.chunks| && s.offset + aligned <= s.chunks[s.current].size
    ensures Ok(Bump(s, aligned)) && After(s, Alloc(size), Bump(s, aligned)) && Covers(Bump(s, aligned), size)
  {
    BumpOk(s, aligned, size);
    var t := Bump(s, aligned);
    assert t.live == s.live + [t.live[|s.live|]];
  }

  lemma GrowDone(s: State, aligned: nat, size: nat)
    requires Ok(s) && aligned == AlignUp(if size < 8 then 8 else size)
    requires !(s.current < |s.chunks| && s.offset + aligned <= s.chunks[s.current].size)
    ensures Ok(Grow(s, aligned)) && After(s, Alloc(size), Grow(s, aligned)) && Covers(Grow(s, aligned), size)
  {
    GrowOk(s, aligned, size);
    var t := Grow(s, aligned);
    assert t.live == s.live + [t.live[|s.live|]];
  }

  ghost predicate Covers(s: State, size: nat) {
    s.live != [] && s.live[|s.live| - 1].size >= size
  }

  lemma AllDisjoint(s: State)
    requires Ok(s)
    ensures forall i, j :: 0 <= i < j < |s.live| ==> Disjoint(s.live[i], s.live[j])
  {
    forall i, j | 0 <= i < j < |s.live| ensures Disjoint(s.live[i], s.live[j]) {
      assert s.live[i] in s.live && s.live[j] in s.live;
      assert AtOrBefore(End(s.live[i]), Start(s.live[j]));
    }
  }
}
