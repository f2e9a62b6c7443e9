/** The native runtime's record arena: a chain of chunks, a fixed stack of 64 saved scopes and an
    overflow list for deeper nesting. */
module CArena {
  import opened ArenaSpec
  import Bits
  import Mir

  type Option<T> = Mir.Option<T>

  const SIZE_MAX: nat := 0xFFFF_FFFF_FFFF_FFFF
  const CHUNK_MIN: nat := 0x4000
  const CHUNK_MAX: nat := 0x10_0000
  const SCOPE_STACK_CAP: nat := 64

  // ---- Rounding -------------------------------------------------------------------------------

  /** The complement of the 32-bit constant 15, widened to 64 bits without its sign. */
  const ROUND_MASK: nat := 0xFFFF_FFF0

  function Round(size: nat): nat {
    Bits.BitAnd(size + 15, ROUND_MASK)
  }

  lemma RoundValue(size: nat)
    ensures Round(size) == (size + 15) % 0x1_0000_0000 - (size + 15) % 16
  {
    Bits.Pow2Words();
    Bits.MaskRun(size + 15, 4, 32);
  }

  /** The mask has only 32 bits: rounding gives room for the request if and only if the request is
      at most 2^32 - 16, and then it is the next multiple of 16. */
  lemma RoundCoversIff(size: nat)
    ensures Round(size) >= size <==> size <= 0xFFFF_FFF0
    ensures size <= 0xFFFF_FFF0 ==> Round(size) % 16 == 0 && size <= Round(size) < size + 16
  {
    RoundValue(size);
    RoundArithmetic(size);
  }

  /** The first request that is not covered gets nothing. */
  lemma RoundOfWord(size: nat)
    requires size + 15 == 0x1_0000_0000
    ensures Round(size) == 0
  {
    RoundValue(size);
  }

  lemma RoundArithmetic(size: nat)
    ensures var r := (size + 15) % 0x1_0000_0000 - (size + 15) % 16;
            && (r >= size <==> size <= 0xFFFF_FFF0)
            && (size <= 0xFFFF_FFF0 ==> r % 16 == 0 && size <= r < size + 16)
  {
    var x := size + 15;
    assert size > 0xFFFF_FFF0 ==> x % 0x1_0000_0000 < size;
    assert size <= 0xFFFF_FFF0 ==> x % 0x1_0000_0000 == x;
  }

  // ---- State ----------------------------------------------------------------------------------

  datatype Chunk = Chunk(id: nat, used: nat, cap: nat)

  /** A saved scope: the current chunk, by its place in the chain, and how much of it was used. */
  datatype Scope = Scope(chunk: Option<nat>, used: nat)

  /** `snaps` records the chain at every open push, `live` and `marks` the blocks handed out. */
  datatype State = State(chain: seq<Chunk>, current: Option<nat>, scopes: seq<Scope>, overflow: seq<Scope>, nextId: nat,
                         live: seq<Block>, marks: seq<nat>, serial: nat, snaps: seq<seq<Chunk>>)

  function Here(s: State): Scope
    requires s.current.Some? ==> s.current.value < |s.chain|
  {
    Scope(s.current, if s.current.Some? then s.chain[s.current.value].used else 0)
  }

  function PositionOf(c: Scope): Position {
    if c.chunk.Some? then Position(c.chunk.value, c.used) else Position(0, 0)
  }

  function Positions(cs: seq<Scope>): (r: seq<Position>)
    ensures |r| == |cs| && forall i :: 0 <= i < |cs| ==> r[i] == PositionOf(cs[i])
  {
    if cs == [] then [] else Positions(cs[..|cs| - 1]) + [PositionOf(cs[|cs| - 1])]
  }

  /** The current chunk is the last of the chain. */
  ghost predicate AtEnd(s: State) {
    s.current == if s.chain == [] then Mir.None else Mir.Some(|s.chain| - 1)
  }

  ghost predicate Filled(chain: seq<Chunk>, nextId: nat) {
    && (forall i :: 0 <= i < |chain| ==> chain[i].used <= chain[i].cap && chain[i].id < nextId)
    && (forall i, j :: 0 <= i < j < |chain| ==> chain[i].id != chain[j].id)
  }

  /** Every live block lies inside the used part of its chunk, which is still in the chain. */
  ghost predicate Placed(chain: seq<Chunk>, live: seq<Block>) {
    forall b :: b in live ==> Holds(chain, b)
  }

  predicate Holds(chain: seq<Chunk>, b: Block) {
    b.index < |chain| && chain[b.index].id == b.chunk && b.start + b.size <= chain[b.index].used
  }

  /** The chain still starts with the chain at the push, whose last chunk may have filled up. */
  ghost predicate Grown(snap: seq<Chunk>, chain: seq<Chunk>, c: Scope) {
    if snap == [] then c == Scope(Mir.None, 0)
    else
      var n := |snap| - 1;
      && c == Scope(Mir.Some(n), snap[n].used) && n < |chain| && chain[..n] == snap[..n]
      && chain[n].id == snap[n].id && chain[n].cap == snap[n].cap && snap[n].used <= chain[n].used
  }

  ghost predicate Saved(s: State) {
    && |s.snaps| == |s.scopes| == |s.marks| && s.overflow == [] && |s.scopes| <= SCOPE_STACK_CAP
    && (forall k :: 0 <= k < |s.snaps| ==> Grown(s.snaps[k], s.chain, s.scopes[k]))
    && (forall k :: 0 <= k < |s.snaps| && s.snaps[k] == [] ==> s.marks[k] == 0)
    && (forall j, k :: 0 <= j < k < |s.snaps| ==> |s.snaps[j]| <= |s.snaps[k]|)
  }

  ghost predicate Ok(s: State) {
    && AtEnd(s) && Filled(s.chain, s.nextId) && Placed(s.chain, s.live) && Saved(s)
    && Ordered(s.live, s.marks, Positions(s.scopes), PositionOf(Here(s)))
  }

  // ---- Operations -----------------------------------------------------------------------------

  /** Chunks above the lower limit double in size up to the upper one, and always hold the request. */
  function NextCap(s: State, aligned: nat): nat
    requires s.current.Some? ==> s.current.value < |s.chain|
  {
    var cap := if s.current.Some? then s.chain[s.current.value].cap else 0;
    var target := if cap <= CHUNK_MIN then CHUNK_MIN else if cap < CHUNK_MAX / 2 then cap * 2 else CHUNK_MAX;
    if target < aligned then aligned else target
  }

  function AddBlock(s: State, index: nat, chunk: nat, start: nat, size: nat): State {
    s.(live := s.live + [Block(s.serial, chunk, index, start, size)], serial := s.serial + 1)
  }

  function Bump(s: State, aligned: nat): State
    requires s.current.Some? && s.current.value < |s.chain|
  {
    var n := s.current.value;
    var c := s.chain[n];
    AddBlock(s.(chain := s.chain[n := c.(used := c.used + aligned)]), n, c.id, c.used, aligned)
  }

  /** A new chunk is linked after the current one. */
  function Grow(s: State, aligned: nat): State
    requires s.current.Some? ==> s.current.value < |s.chain|
  {
    var kept := if s.current.Some? then s.chain[..s.current.value + 1] else [];
    var c := Chunk(s.nextId, aligned, NextCap(s, aligned));
    AddBlock(s.(chain := kept + [c], current := Mir.Some(|kept|), nextId := s.nextId + 1), |kept|, c.id, 0, aligned)
  }

  function PushStep(s: State): State
    requires s.current.Some? ==> s.current.value < |s.chain|
  {
    var t := s.(marks := s.marks + [|s.live|], snaps := s.snaps + [s.chain]);
    if |s.scopes| < SCOPE_STACK_CAP then t.(scopes := s.scopes + [Here(s)])
    else t.(overflow := [Here(s)] + s.overflow)
  }

  /** The fixed stack is popped before the overflow list. */
  function Latest(s: State): Scope
    requires s.scopes != [] || s.overflow != []
  {
    if s.scopes != [] then s.scopes[|s.scopes| - 1] else s.overflow[0]
  }

  function Rewind(s: State, c: Scope): State
    requires c.chunk.Some? ==> c.chunk.value < |s.chain|
  {
    if c.chunk.None? then s.(chain := [], current := Mir.None)
    else
      var n := c.chunk.value;
      s.(chain := s.chain[..n + 1][n := s.chain[n].(used := c.used)], current := c.chunk)
  }

  function Taken(s: State): State
    requires s.scopes != [] || s.overflow != []
  {
    if s.scopes != [] then s.(scopes := s.scopes[..|s.scopes| - 1]) else s.(overflow := s.overflow[1..])
  }

  function Forget(s: State): State {
    if s.marks == [] || s.snaps == [] then s
    else
      var n := |s.marks| - 1;
      s.(marks := s.marks[..n], snaps := s.snaps[..|s.snaps| - 1],
         live := if s.marks[n] <= |s.live| then s.live[..s.marks[n]] else s.live)
  }

  function PopStep(s: State): State
    requires (s.scopes != [] || s.overflow != []) && (Latest(s).chunk.Some? ==> Latest(s).chunk.value < |s.chain|)
  {
    Forget(Rewind(Taken(s), Latest(s)))
  }

  ghost function Abs(s: State): Frames {
    Frames(Serials(s.live), s.marks, s.serial)
  }

  // ---- What every operation keeps ---------------------------------------------------------------

  lemma AddBlockAbs(s: State, index: nat, chunk: nat, start: nat, size: nat, request: nat)
    ensures Abs(AddBlock(s, index, chunk, start, size)) == Step(Abs(s), Alloc(request))
  {
    var t := AddBlock(s, index, chunk, start, size);
    assert t.live[..|s.live|] == s.live;
  }

  /** The same chunk, with no less of it used. */
  predicate FillsUp(c: Chunk, d: Chunk) {
    c.id == d.id && c.cap == d.cap && c.used <= d.used
  }

  lemma GrownTrans(snap: seq<Chunk>, chain: seq<Chunk>, c: Scope, later: seq<Chunk>)
    requires Grown(snap, chain, c) && |chain| <= |later|
    requires forall i :: 0 <= i < |chain| ==> FillsUp(chain[i], later[i])
    requires forall i :: 0 <= i < |chain| - 1 ==> chain[i] == later[i]
    ensures Grown(snap, later, c)
  {
    if snap != [] {
      assert later[..|snap| - 1] == chain[..|snap| - 1];
    }
  }

  /** More room taken in the last chunk, or more chunks, leave scopes and blocks in place. */
  lemma LaterKeeps(s: State, later: seq<Chunk>)
    requires Ok(s) && |s.chain| <= |later|
    requires forall i :: 0 <= i < |s.chain| ==> FillsUp(s.chain[i], later[i])
    requires forall i :: 0 <= i < |s.chain| - 1 ==> s.chain[i] == later[i]
    ensures Saved(s.(chain := later)) && Placed(later, s.live)
  {
    forall k | 0 <= k < |s.snaps| ensures Grown(s.snaps[k], later, s.scopes[k]) {
      GrownTrans(s.snaps[k], s.chain, s.scopes[k], later);
    }
  }

  lemma BumpOk(s: State, aligned: nat, request: nat)
    requires Ok(s) && s.current.Some? && s.chain[s.current.value].used + aligned <= s.chain[s.current.value].cap
    ensures Ok(Bump(s, aligned)) && Abs(Bump(s, aligned)) == Step(Abs(s), Alloc(request))
  {
    var t := Bump(s, aligned);
    var n := s.current.value;
    LaterKeeps(s, t.chain);
    OrderedAlloc(s.live, s.marks, Positions(s.scopes), PositionOf(Here(s)), t.live[|s.live|]);
    AddBlockAbs(s.(chain := t.chain), n, s.chain[n].id, s.chain[n].used, aligned, request);
    AddedOk(s.(chain := t.chain), t);
  }

  lemma GrowShape(s: State, aligned: nat)
    requires AtEnd(s) && Filled(s.chain, s.nextId)
    ensures var t := Grow(s, aligned);
            && t.chain == s.chain + [Chunk(s.nextId, aligned, NextCap(s, aligned))]
            && AtEnd(t) && Filled(t.chain, t.nextId)
            && t == AddBlock(s.(chain := t.chain, current := t.current, nextId := t.nextId), |s.chain|, s.nextId, 0,
                             aligned)
  {
    assert (if s.current.Some? then s.chain[..s.current.value + 1] else []) == s.chain;
  }

  lemma GrowOk(s: State, aligned: nat, request: nat)
    requires Ok(s)
    ensures Ok(Grow(s, aligned)) && Abs(Grow(s, aligned)) == Step(Abs(s), Alloc(request))
  {
    var t := Grow(s, aligned);
    GrowShape(s, aligned);
    LaterKeeps(s, t.chain);
    GrowOrdered(s, aligned);
    var u := s.(chain := t.chain, current := t.current, nextId := t.nextId);
    AddBlockAbs(u, |s.chain|, s.nextId, 0, aligned, request);
    assert Saved(u) by { assert Saved(s.(chain := t.chain)); }
    AddedOk(u, t);
  }

  lemma GrowOrdered(s: State, aligned: nat)
    requires Ok(s)
    ensures var t := Grow(s, aligned);
            t.current.value < |t.chain| && Ordered(t.live, t.marks, Positions(t.scopes), PositionOf(Here(t)))
  {
    GrowShape(s, aligned);
    var t := Grow(s, aligned);
    OrderedAlloc(s.live, s.marks, Positions(s.scopes), PositionOf(Here(s)), t.live[|s.live|]);
  }

  /** Recording a block that lies in the used part of its chunk, up to the current position. */
  lemma AddedOk(s: State, t: State)
    requires AtEnd(s) && Filled(s.chain, s.nextId) && Placed(s.chain, s.live) && Saved(s)
    requires |t.live| == |s.live| + 1 && t == s.(live := s.live + [t.live[|s.live|]], serial := s.serial + 1)
    requires Holds(s.chain, t.live[|s.live|])
    requires Ordered(t.live, t.marks, Positions(t.scopes), PositionOf(Here(t)))
    ensures Ok(t)
  {
  }

  lemma PushOk(s: State)
    requires Ok(s) && |s.scopes| < SCOPE_STACK_CAP
    ensures Ok(PushStep(s)) && Abs(PushStep(s)) == Step(Abs(s), Push)
  {
    PushOrdered(s);
    PushSaved(s);
  }

  lemma PushOrdered(s: State)
    requires CurrentOk(s) && |s.scopes| < SCOPE_STACK_CAP
    requires Ordered(s.live, s.marks, Positions(s.scopes), PositionOf(Here(s)))
    ensures var t := PushStep(s); Ordered(t.live, t.marks, Positions(t.scopes), PositionOf(Here(t)))
  {
    var t := PushStep(s);
    OrderedPush(s.live, s.marks, Positions(s.scopes), PositionOf(Here(s)));
    assert t.scopes[..|s.scopes|] == s.scopes;
    assert Positions(t.scopes) == Positions(s.scopes) + [PositionOf(Here(s))];
  }

  lemma PushSaved(s: State)
    requires Ok(s) && |s.scopes| < SCOPE_STACK_CAP
    ensures Saved(PushStep(s))
  {
    var t := PushStep(s);
    if s.chain == [] { NothingLive(s); }
    assert Grown(s.chain, s.chain, Here(s));
    forall k | 0 <= k < |t.snaps| ensures Grown(t.snaps[k], t.chain, t.scopes[k]) {
      if k < |s.snaps| { assert Grown(s.snaps[k], s.chain, s.scopes[k]); }
    }
  }

  lemma NothingLive(s: State)
    requires Placed(s.chain, s.live) && s.chain == []
    ensures s.live == []
  {
    if s.live != [] { FirstIn(s.live); }
  }

  lemma FirstIn(live: seq<Block>)
    requires live != []
    ensures exists b :: b in live
  {
    assert live[0] in live;
  }

  /** A pop gives back the chain of the matching push, exactly. */
  lemma PopRestores(s: State)
    requires Ok(s) && s.scopes != []
    ensures var n := |s.snaps| - 1;
            && (Latest(s).chunk.Some? ==> Latest(s).chunk.value < |s.chain|)
            && PopStep(s).chain == s.snaps[n] && Here(Rewind(s, Latest(s))) == Latest(s)
  {
    var n := |s.snaps| - 1;
    assert Grown(s.snaps[n], s.chain, s.scopes[n]);
  }

  /** What a pop leaves of the scopes and the blocks. */
  lemma PopShape(s: State)
    requires Ok(s) && s.scopes != []
    ensures Latest(s).chunk.Some? ==> Latest(s).chunk.value < |s.chain|
    ensures var t, n := PopStep(s), |s.marks| - 1;
            && t.live == s.live[..s.marks[n]] && t.marks == s.marks[..n] && t.scopes == s.scopes[..n]
            && t.snaps == s.snaps[..n] && t.overflow == [] && t.serial == s.serial && t.nextId == s.nextId
            && (t.current.Some? ==> t.current.value < |t.chain|) && Here(t) == s.scopes[n]
  {
    PopRestores(s);
  }

  lemma PopOk(s: State)
    requires Ok(s) && s.scopes != []
    ensures Latest(s).chunk.Some? ==> Latest(s).chunk.value < |s.chain|
    ensures Ok(PopStep(s)) && Abs(PopStep(s)) == Step(Abs(s), Pop)
  {
    PopShape(s);
    var t := PopStep(s);
    PopSaved(s);
    PopPlaced(s);
    PopOrdered(s, t);
    SerialsPrefix(s.live, s.marks[|s.marks| - 1]);
  }

  lemma PopOrdered(s: State, t: State)
    requires s.scopes != [] && |s.marks| == |s.scopes| && (s.current.Some? ==> s.current.value < |s.chain|)
    requires Ordered(s.live, s.marks, Positions(s.scopes), PositionOf(Here(s)))
    requires var n := |s.marks| - 1;
             && s.marks[n] <= |s.live| && t.live == s.live[..s.marks[n]] && t.marks == s.marks[..n]
             && t.scopes == s.scopes[..n]
             && (t.current.Some? ==> t.current.value < |t.chain|) && Here(t) == s.scopes[n]
    ensures Ordered(t.live, t.marks, Positions(t.scopes), PositionOf(Here(t)))
  {
    var n := |s.marks| - 1;
    OrderedPop(s.live, s.marks, Positions(s.scopes), PositionOf(Here(s)));
    PositionsPrefix(s.scopes, n);
  }

  lemma PositionsPrefix(cs: seq<Scope>, n: nat)
    requires n <= |cs|
    ensures Positions(cs[..n]) == Positions(cs)[..n]
  {
  }

  lemma PopSaved(s: State)
    requires Ok(s) && s.scopes != [] && (Latest(s).chunk.Some? ==> Latest(s).chunk.value < |s.chain|)
    ensures Saved(PopStep(s)) && AtEnd(PopStep(s)) && Filled(PopStep(s).chain, s.nextId)
  {
    PopShape(s);
    PopEnd(s);
    var t := PopStep(s);
    forall k | 0 <= k < |t.snaps| ensures Grown(t.snaps[k], t.chain, t.scopes[k]) {
      PopGrown(s, k);
    }
  }

  lemma PopEnd(s: State)
    requires Ok(s) && s.scopes != [] && (Latest(s).chunk.Some? ==> Latest(s).chunk.value < |s.chain|)
    ensures AtEnd(PopStep(s)) && Filled(PopStep(s).chain, s.nextId)
  {
    var n := |s.snaps| - 1;
    assert Grown(s.snaps[n], s.chain, s.scopes[n]);
  }

  lemma PopGrown(s: State, k: nat)
    requires Ok(s) && s.scopes != [] && (Latest(s).chunk.Some? ==> Latest(s).chunk.value < |s.chain|)
    requires k < |s.snaps| - 1
    ensures Grown(s.snaps[k], PopStep(s).chain, s.scopes[k])
  {
    var n := |s.snaps| - 1;
    PopRestores(s);
    assert Grown(s.snaps[k], s.chain, s.scopes[k]) && Grown(s.snaps[n], s.chain, s.scopes[n]);
    assert AtOrBefore(Positions(s.scopes)[k], Positions(s.scopes)[n]);
    EarlierGrown(s.snaps[k], s.snaps[n], s.chain, s.scopes[k], s.scopes[n]);
  }

  /** Of two snapshots of one chain, the earlier position belongs to the shorter one. */
  lemma EarlierGrown(a: seq<Chunk>, b: seq<Chunk>, chain: seq<Chunk>, c: Scope, d: Scope)
    requires Grown(a, chain, c) && Grown(b, chain, d) && AtOrBefore(PositionOf(c), PositionOf(d)) && |a| <= |b|
    ensures Grown(a, b, c)
  {
    if a != [] {
      var n := |a| - 1;
      assert n < |b|;
      assert b[..n] == chain[..n] by {
        assert forall i :: 0 <= i < n ==> b[i] == b[..|b| - 1][i] == chain[..|b| - 1][i] == chain[i];
      }
      if n < |b| - 1 { assert b[n] == b[..|b| - 1][n] == chain[n]; }
    }
  }

  lemma PopPlaced(s: State)
    requires Ok(s) && s.scopes != [] && (Latest(s).chunk.Some? ==> Latest(s).chunk.value < |s.chain|)
    ensures Placed(PopStep(s).chain, PopStep(s).live)
  {
    var t := PopStep(s);
    var n := |s.snaps| - 1;
    assert Grown(s.snaps[n], s.chain, s.scopes[n]);
    forall b | b in t.live ensures Holds(t.chain, b) {
      var i :| 0 <= i < |t.live| && t.live[i] == b;
      assert b in s.live by { assert s.live[i] == b; }
      assert i < s.marks[n];
      assert AtOrBefore(End(s.live[i]), Positions(s.scopes)[n]);
      SnapHolds(s.snaps[n], s.chain, s.scopes[n], b);
    }
  }

  /** Blocks that end at or before a saved position lie in the chain saved with it. */
  lemma SnapHolds(snap: seq<Chunk>, chain: seq<Chunk>, c: Scope, b: Block)
    requires Grown(snap, chain, c) && snap != [] && Holds(chain, b) && AtOrBefore(End(b), PositionOf(c))
    ensures Holds(snap, b)
  {
    var n := |snap| - 1;
    if b.index < n { assert snap[b.index] == snap[..n][b.index] == chain[..n][b.index]; }
  }

  lemma AllDisjoint(s: State)
    requires Ok(s)
    ensures forall i, j :: 0 <= i < j < |s.live| ==> Disjoint(s.live[i], s.live[j])
  {
    forall i, j | 0 <= i < j < |s.live| ensures Disjoint(s.live[i], s.live[j]) {
      assert s.live[i] in s.live && s.live[j] in s.live;
      assert AtOrBefore(End(s.live[i]), Start(s.live[j]));
    }
  }

  // ---- Runs of allocations ----------------------------------------------------------------------

  predicate CurrentOk(s: State) {
    s.current.Some? ==> s.current.value < |s.chain|
  }

  function AllocStep(s: State, aligned: nat): (t: State)
    requires CurrentOk(s)
    ensures CurrentOk(t)
  {
    if s.current.Some? && aligned <= s.chain[s.current.value].cap - s.chain[s.current.value].used then Bump(s, aligned)
    else Grow(s, aligned)
  }

  function AllocAll(s: State, sizes: seq<nat>): (t: State)
    requires CurrentOk(s)
    ensures CurrentOk(t)
  {
    if sizes == [] then s else AllocStep(AllocAll(s, sizes[..|sizes| - 1]), sizes[|sizes| - 1])
  }

  /** Allocations fill up the last chunk or add chunks after it. */
  ghost predicate Extends(s: State, t: State) {
    && t.scopes == s.scopes && AtEnd(t) && |s.chain| <= |t.chain|
    && (forall i :: 0 <= i < |s.chain| - 1 ==> t.chain[i] == s.chain[i])
    && (s.chain != [] ==> var n := |s.chain| - 1; t.chain[n] == s.chain[n].(used := t.chain[n].used))
  }

  lemma ExtendsStep(s: State, t: State, aligned: nat)
    requires Extends(s, t)
    ensures Extends(s, AllocStep(t, aligned))
  {
  }

  lemma {:induction false} ExtendsAll(s: State, sizes: seq<nat>)
    requires AtEnd(s)
    ensures Extends(s, AllocAll(s, sizes))
  {
    if sizes != [] {
      ExtendsAll(s, sizes[..|sizes| - 1]);
      ExtendsStep(s, AllocAll(s, sizes[..|sizes| - 1]), sizes[|sizes| - 1]);
    }
  }

  /** Rewinding to a position inside the chain gives the chain back exactly at its end. */
  lemma RewindsIff(s: State, t: State, c: Scope)
    requires AtEnd(s) && Extends(s, t) && (c.chunk.Some? ==> c.chunk.value < |s.chain|)
    requires (c.chunk.None? ==> c.used == 0)
    ensures Rewind(t, c).chain == s.chain <==> c == Here(s)
  {
    if c.chunk.Some? {
      var n := c.chunk.value;
      var r := Rewind(t, c).chain;
      assert |r| == n + 1 && r[n].used == c.used;
      if c == Here(s) { assert forall i :: 0 <= i < |r| ==> r[i] == s.chain[i]; }
    }
  }

  /** With all 64 saved scopes in use, one more push, any allocations, and its pop restore the arena
      if and only if the position has not moved since the 64th push: the pop rewinds to that one. */
  lemma TooDeepRestoresIff(s: State, sizes: seq<nat>)
    requires Ok(s) && |s.scopes| == 64
    ensures var t := AllocAll(PushStep(s), sizes);
            && t.scopes == s.scopes
            && (Latest(t).chunk.Some? ==> Latest(t).chunk.value < |t.chain|)
            && (PopStep(t).chain == s.chain <==> s.scopes[63] == Here(s))
  {
    var n := 63;
    var u := PushStep(s);
    var t := AllocAll(u, sizes);
    assert Grown(s.snaps[n], s.chain, s.scopes[n]);
    ExtendsAll(u, sizes);
    RewindsIff(u, t, s.scopes[n]);
  }

  /** A new chunk holds the request, and its size stays between the limits unless the request is
      larger than the upper one.  It is at least twice the current chunk, up to the upper limit, when
      that is above the lower one. */
  lemma NextCapBounds(s: State, aligned: nat)
    requires CurrentOk(s)
    ensures var cap := if s.current.Some? then s.chain[s.current.value].cap else 0;
            var target := NextCap(s, aligned);
            && target >= aligned && target >= 16384 && (target > 1048576 ==> target == aligned)
            && (16384 < cap ==> target >= 2 * cap || target >= 1048576)
            && (cap <= 16384 && aligned <= 16384 ==> target == 16384)
  {
  }

  ghost predicate AllSmallest(s: State) {
    forall i :: 0 <= i < |s.chain| ==> s.chain[i].cap == CHUNK_MIN
  }

  /** Doubling never sets in by itself: as long as no request exceeds the lower limit, every chunk
      has exactly that size. */
  lemma {:induction false} ChunksStaySmallest(s: State, sizes: seq<nat>)
    requires CurrentOk(s) && AllSmallest(s) && forall i :: 0 <= i < |sizes| ==> sizes[i] <= CHUNK_MIN
    ensures AllSmallest(AllocAll(s, sizes))
  {
    if sizes != [] {
      var n := |sizes| - 1;
      ChunksStaySmallest(s, sizes[..n]);
      NextCapBounds(AllocAll(s, sizes[..n]), sizes[n]);
    }
  }

  // ---- The arena ------------------------------------------------------------------------------

  /** What a request gives back: the shared empty text, a null pointer, or bytes in a chunk. */
  datatype Pointer = Empty | Null | At(chunk: nat, start: nat)

  /** The pointer to a block that covers the request, if and only if that is small enough. */
  predicate Given(p: Pointer, b: Block, size: nat) {
    p == At(b.chunk, b.start) && (b.size >= size <==> size <= 0xFFFF_FFF0)
  }

  /** The new block fills the current chunk further when that has room for it, and otherwise starts a
      new chunk that is linked last. */
  ghost predicate Grew(s: State, t: State) {
    && CurrentOk(s) && |t.live| == |s.live| + 1 && s.live <= t.live && t.chain != []
    && var b, n := t.live[|s.live|], |t.chain| - 1;
       && b.index == n && b.chunk == t.chain[n].id && b.start + b.size == t.chain[n].used
       && if s.current.Some? && b.size <= s.chain[s.current.value].cap - s.chain[s.current.value].used
          then |t.chain| == |s.chain| && b.start == s.chain[s.current.value].used
          else t.chain[..n] == s.chain && b.start == 0 && b.chunk == s.nextId && b.size <= t.chain[n].cap
  }

  lemma BumpGrew(s: State, aligned: nat)
    requires Ok(s) && s.current.Some? && s.chain[s.current.value].used + aligned <= s.chain[s.current.value].cap
    ensures Grew(s, Bump(s, aligned))
  {
    assert Bump(s, aligned).live == s.live + [Bump(s, aligned).live[|s.live|]];
  }

  lemma GrowGrew(s: State, aligned: nat)
    requires Ok(s)
    requires !(s.current.Some? && aligned <= s.chain[s.current.value].cap - s.chain[s.current.value].used)
    ensures Grew(s, Grow(s, aligned))
  {
    GrowShape(s, aligned);
    assert Grow(s, aligned).live == s.live + [Grow(s, aligned).live[|s.live|]];
  }

  /** Bytes of a chunk before its data. */
  const HEADER: nat := 24

  /** A new chunk with its header never reaches the size limit. */
  lemma CapFits(s: State, size: nat)
    requires Ok(s)
    ensures NextCap(s, Round(size)) <= SIZE_MAX - HEADER
  {
    RoundValue(size);
  }

  /** Requests of no bytes and requests that cannot be rounded take nothing from the arena. */
  predicate Served(op: Op) {
    op.Alloc? ==> 0 < op.size <= SIZE_MAX - 15
  }

  function ServedOf(ops: seq<Op>): seq<Op> {
    if ops == [] then []
    else
      var rest := ServedOf(ops[..|ops| - 1]);
      if Served(ops[|ops| - 1]) then rest + [ops[|ops| - 1]] else rest
  }

  ghost function Depth(s: Frames, ops: seq<Op>): nat {
    |Steps(s, ServedOf(ops)).marks|
  }

  ghost predicate NeverBelow(s: Frames, ops: seq<Op>, n: nat, depth: nat)
    requires n <= |ops|
  {
    forall k :: 0 <= k <= n ==> Depth(s, ops[..k]) >= depth
  }

  lemma ServedStep(s: Frames, ops: seq<Op>, n: nat)
    requires n < |ops|
    ensures Steps(s, ServedOf(ops[..n + 1]))
         == if Served(ops[n]) then Step(Steps(s, ServedOf(ops[..n])), ops[n]) else Steps(s, ServedOf(ops[..n]))
  {
    assert ops[..n + 1][..n] == ops[..n];
    var rest := ServedOf(ops[..n]);
    assert (rest + [ops[n]])[..|rest|] == rest;
  }

  /** The scopes open in `s` are still open in `t`, over the same blocks. */
  ghost predicate Kept(s: State, t: State) {
    && s.snaps <= t.snaps && s.scopes <= t.scopes && s.marks <= t.marks && s.live <= t.live
    && forall k :: |s.marks| <= k < |t.marks| ==> t.marks[k] >= |s.live|
  }

  /** The arena after its latest scope is closed: the chain is again that of the matching push, the
      blocks allocated since are dead, and without an open scope nothing happens. */
  ghost predicate Closed(s: State, t: State) {
    if s.marks == [] then t == s
    else
      var n := |s.marks| - 1;
      && |s.snaps| == |s.scopes| == |s.marks| && s.marks[n] <= |s.live|
      && t.chain == s.snaps[n] && t.snaps == s.snaps[..n] && t.scopes == s.scopes[..n]
      && t.marks == s.marks[..n] && t.live == s.live[..s.marks[n]]
  }

  lemma PopCloses(s: State)
    requires Ok(s) && s.scopes != []
    ensures Latest(s).chunk.Some? ==> Latest(s).chunk.value < |s.chain|
    ensures Closed(s, PopStep(s))
  {
    PopRestores(s);
  }

  /** What one call of a run leaves behind, while the system has memory. */
  ghost predicate After(s: State, op: Op, t: State) {
    && Abs(t) == (if Served(op) then Step(Abs(s), op) else Abs(s))
    && match op
       case Alloc(_) => t.snaps == s.snaps && t.scopes == s.scopes && t.marks == s.marks && s.live <= t.live
       case Push => s.snaps <= t.snaps && s.scopes <= t.scopes && t.marks == s.marks + [|s.live|] && t.live == s.live
       case Pop => Closed(s, t)
  }

  lemma KeptByOne(s: State, t: State, op: Op, u: State)
    requires |s.snaps| == |s.scopes| == |s.marks| && |t.snaps| == |t.scopes| == |t.marks|
    requires Kept(s, t) && After(t, op, u) && |u.marks| >= |s.marks|
    ensures Kept(s, u)
  {
  }

  ghost predicate RunSoFar(s: State, ops: seq<Op>, n: nat, t: State)
    requires n <= |ops|
  {
    && Abs(t) == Steps(Abs(s), ServedOf(ops[..n]))
    && (NeverBelow(Abs(s), ops, n, |s.marks|) ==> Kept(s, t))
  }

  lemma RunStep(s: State, ops: seq<Op>, n: nat, t: State, u: State)
    requires |s.snaps| == |s.scopes| == |s.marks| && |t.snaps| == |t.scopes| == |t.marks|
    requires n < |ops| && RunSoFar(s, ops, n, t) && After(t, ops[n], u)
    ensures RunSoFar(s, ops, n + 1, u)
  {
    ServedStep(Abs(s), ops, n);
    if NeverBelow(Abs(s), ops, n + 1, |s.marks|) {
      assert Depth(Abs(s), ops[..n + 1]) >= |s.marks|;
      KeptByOne(s, t, ops[n], u);
    }
  }

  lemma RegionRestores(s: State, t: State, u: State, v: State)
    requires AtEnd(s) && AtEnd(v) && |s.snaps| == |s.scopes| == |s.marks| < SCOPE_STACK_CAP
    requires t == PushStep(s) && Kept(t, u) && |u.marks| == |t.marks| && Closed(u, v)
    ensures v.chain == s.chain && v.current == s.current && v.scopes == s.scopes && v.live == s.live
    ensures v.marks == s.marks
  {
  }

  class Arena {
    var chain: seq<Chunk>
    var current: Option<nat>
    var scopes: seq<Scope>
    var overflow: seq<Scope>
    var nextId: nat
    ghost var live: seq<Block>
    ghost var marks: seq<nat>
    ghost var serial: nat
    ghost var snaps: seq<seq<Chunk>>

    ghost function Now(): State
      reads this
    {
      State(chain, current, scopes, overflow, nextId, live, marks, serial, snaps)
    }

    ghost predicate Valid()
      reads this
    {
      Ok(Now())
    }

    constructor ()
      ensures Valid() && Abs(Now()) == Start0
    {
      chain, current, scopes, overflow, nextId := [], Mir.None, [], [], 0;
      live, marks, serial, snaps := [], [], 0, [];
    }

    method BumpCurrent(aligned: nat) returns (p: Pointer)
      requires current.Some? && current.value < |chain|
      modifies this
      ensures Now() == Bump(old(Now()), aligned)
      ensures p == At(live[|live| - 1].chunk, live[|live| - 1].start)
    {
      var n := current.value;
      var c := chain[n];
      p := At(c.id, c.used);
      chain := chain[n := c.(used := c.used + aligned)];
      live := live + [Block(serial, c.id, n, c.used, aligned)];
      serial := serial + 1;
    }

    method LinkChunk(aligned: nat, cap: nat) returns (p: Pointer)
      requires current.Some? ==> current.value < |chain|
      requires cap == NextCap(Now(), aligned)
      modifies this
      ensures Now() == Grow(old(Now()), aligned)
      ensures p == At(live[|live| - 1].chunk, live[|live| - 1].start)
    {
      var c := Chunk(nextId, aligned, cap);
      chain := (if current.Some? then chain[..current.value + 1] else []) + [c];
      current := Mir.Some(|chain| - 1);
      nextId := nextId + 1;
      p := At(c.id, 0);
      live := live + [Block(serial, c.id, |chain| - 1, 0, aligned)];
      serial := serial + 1;
    }

    /** Served requests get a new live block, unless the system has no memory left; the block
        covers the request if and only if the request is at most 2^32 - 16 bytes. */
    method Allocate(size: nat, heap: bool) returns (p: Pointer)
      requires Valid()
      modifies this
      ensures Valid() && snaps == old(snaps) && scopes == old(scopes) && marks == old(marks)
      ensures p.Empty? <==> size == 0
      ensures !p.At? ==> Now() == old(Now())
      ensures p.Null? ==> !heap || !Served(Alloc(size))
      ensures p.At? ==> Served(Alloc(size)) && Abs(Now()) == Step(old(Abs(Now())), Alloc(size))
      ensures p.At? ==> |live| == |old(live)| + 1 && old(live) <= live && Given(p, live[|live| - 1], size)
      ensures p.At? ==> Grew(old(Now()), Now())
    {
      if size == 0 { return Empty; }
      if size > SIZE_MAX - 15 { return Null; }
      var aligned := Round(size);
      RoundCoversIff(size);
      if current.Some? && aligned <= chain[current.value].cap - chain[current.value].used {
        BumpOk(Now(), aligned, size);
        BumpGrew(Now(), aligned);
        p := BumpCurrent(aligned);
        return;
      }
      var cap := ChunkCap(aligned);
      CapFits(Now(), size);
      if cap > SIZE_MAX - HEADER { return Null; }
      if !heap { return Null; }
      GrowOk(Now(), aligned, size);
      GrowGrew(Now(), aligned);
      p := LinkChunk(aligned, cap);
    }

    method ChunkCap(aligned: nat) returns (target: nat)
      requires Valid()
      ensures target == NextCap(Now(), aligned)
      ensures target >= aligned && target >= CHUNK_MIN && (target > CHUNK_MAX ==> target == aligned)
    {
      target := CHUNK_MIN;
      if current.Some? && chain[current.value].cap > target {
        target := chain[current.value].cap;
        if target < CHUNK_MAX / 2 {
          target := target * 2;
        } else {
          target := CHUNK_MAX;
        }
      }
      if target < aligned {
        target := aligned;
      }
    }

    method PushScope()
      requires Valid()
      modifies this
      ensures Now() == PushStep(old(Now()))
      ensures |old(scopes)| < 64 ==> Valid() && Abs(Now()) == Step(old(Abs(Now())), Push)
    {
      if |scopes| < SCOPE_STACK_CAP { PushOk(Now()); }
      SaveScope();
    }

    method SaveScope()
      requires current.Some? ==> current.value < |chain|
      modifies this
      ensures Now() == PushStep(old(Now()))
    {
      var here := Scope(current, if current.Some? then chain[current.value].used else 0);
      marks, snaps := marks + [|live|], snaps + [chain];
      if |scopes| < SCOPE_STACK_CAP {
        scopes := scopes + [here];
      } else {
        overflow := [here] + overflow;
      }
    }

    /** Closes the scope that was saved last; without one nothing happens. */
    method PopScope()
      requires Valid()
      modifies this
      ensures Valid() && Closed(old(Now()), Now()) && Abs(Now()) == Step(old(Abs(Now())), Pop)
    {
      if scopes != [] || overflow != [] {
        PopOk(Now());
        PopCloses(Now());
        PopLatest();
      }
    }

    method PopLatest()
      requires scopes != [] || overflow != []
      requires Latest(Now()).chunk.Some? ==> Latest(Now()).chunk.value < |chain|
      modifies this
      ensures Now() == PopStep(old(Now()))
    {
      var c := TakeScope();
      RewindTo(c);
      if marks != [] && snaps != [] {
        live := if marks[|marks| - 1] <= |live| then live[..marks[|marks| - 1]] else live;
        marks, snaps := marks[..|marks| - 1], snaps[..|snaps| - 1];
      }
    }

    method TakeScope() returns (c: Scope)
      requires scopes != [] || overflow != []
      modifies this
      ensures c == Latest(old(Now())) && Now() == Taken(old(Now()))
    {
      if |scopes| > 0 {
        c := scopes[|scopes| - 1];
        scopes := scopes[..|scopes| - 1];
      } else {
        c := overflow[0];
        overflow := overflow[1..];
      }
    }

    /** Chunks after the saved one are freed, and with no saved chunk all of them. */
    method RewindTo(c: Scope)
      requires c.chunk.Some? ==> c.chunk.value < |chain|
      modifies this
      ensures Now() == Rewind(old(Now()), c)
    {
      if c.chunk.None? {
        chain, current := [], Mir.None;
      } else {
        var n := c.chunk.value;
        chain := chain[..n + 1][n := chain[n].(used := c.used)];
        current := c.chunk;
      }
    }

    /** A whole run, nested at most 64 deep, while the system has memory.  Live are exactly the
        allocations that the stack of frames says, no two of them share a byte, and each lies
        inside its chunk.  A run that closes no scope of its caller keeps the caller's blocks. */
    method Run(ops: seq<Op>)
      requires Valid()
      requires forall n :: 0 <= n <= |ops| ==> Depth(Abs(Now()), ops[..n]) <= 64
      modifies this
      ensures Valid() && Abs(Now()) == Steps(old(Abs(Now())), ServedOf(ops)) && Placed(chain, live)
      ensures forall i, j :: 0 <= i < j < |live| ==> Disjoint(live[i], live[j])
      ensures NeverBelow(old(Abs(Now())), ops, |ops|, |old(marks)|) ==> Kept(old(Now()), Now())
    {
      ghost var s := Now();
      for n := 0 to |ops|
        invariant Valid() && RunSoFar(s, ops, n, Now())
      {
        ghost var t := Now();
        assert Depth(Abs(s), ops[..n + 1]) <= SCOPE_STACK_CAP;
        ServedStep(Abs(s), ops, n);
        RunOne(ops[n]);
        RunStep(s, ops, n, t, Now());
      }
      assert ops[..|ops|] == ops;
      AllDisjoint(Now());
    }

    method RunOne(op: Op)
      requires Valid() && (op.Push? ==> |scopes| < SCOPE_STACK_CAP)
      modifies this
      ensures Valid() && After(old(Now()), op, Now())
    {
      match op
      case Alloc(size) =>
        var _ := Allocate(size, true);
      case Push =>
        PushScope();
      case Pop =>
        PopScope();
    }

    /** A region opened by a push and closed by its pop leaves the chunks, the scopes and the live
        blocks exactly as they were. */
    method Region(ops: seq<Op>)
      requires Valid()
      requires forall n :: 0 <= n <= |ops| ==> Depth(Step(Abs(Now()), Push), ops[..n]) <= 64
      requires NeverBelow(Step(Abs(Now()), Push), ops, |ops|, |marks| + 1)
      requires Depth(Step(Abs(Now()), Push), ops) == |marks| + 1
      modifies this
      ensures Valid() && chain == old(chain) && current == old(current)
      ensures scopes == old(scopes) && live == old(live) && marks == old(marks)
    {
      ghost var s := Now();
      assert Depth(Step(Abs(s), Push), ops[..0]) <= SCOPE_STACK_CAP;
      PushScope();
      ghost var t := Now();
      Run(ops);
      ghost var u := Now();
      PopScope();
      RegionRestores(s, t, u, Now());
    }
  }
}
