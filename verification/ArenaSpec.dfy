/** What a scoped arena promises: a stack of frames of blocks.  Allocation adds a block to the top
    frame, push opens a frame, and pop makes dead exactly the blocks of the frame it closes. */
module ArenaSpec {
  /** A block in the arena: its serial number, the chunk it lies in (its identity and its place
      in the chunk list) and the bytes it covers. */
  datatype Block = Block(serial: nat, chunk: nat, index: nat, start: nat, size: nat)

  /** A position in the chunk list. */
  datatype Position = Position(index: nat, offset: nat)

  predicate AtOrBefore(p: Position, q: Position) {
    p.index < q.index || (p.index == q.index && p.offset <= q.offset)
  }

  function Start(b: Block): Position { Position(b.index, b.start) }
  function End(b: Block): Position { Position(b.index, b.start + b.size) }

  /** Blocks of different chunks are apart, blocks of one chunk must not share a byte. */
  predicate Disjoint(a: Block, b: Block) {
    a.chunk != b.chunk || a.start + a.size <= b.start || b.start + b.size <= a.start
  }

  datatype Op = Alloc(size: nat) | Push | Pop

  /** Serial numbers of the live allocations, the number of live ones at every open push, and the
      next serial number. */
  datatype Frames = Frames(live: seq<nat>, marks: seq<nat>, next: nat)

  const Start0: Frames := Frames([], [], 0)

  function Step(s: Frames, op: Op): Frames {
    match op
    case Alloc(_) => Frames(s.live + [s.next], s.marks, s.next + 1)
    case Push => s.(marks := s.marks + [|s.live|])
    case Pop =>
      if s.marks == [] then s
      else
        var n := |s.marks| - 1;
        Frames(if s.marks[n] <= |s.live| then s.live[..s.marks[n]] else s.live, s.marks[..n], s.next)
  }

  function Steps(s: Frames, ops: seq<Op>): Frames {
    if ops == [] then s else Step(Steps(s, ops[..|ops| - 1]), ops[|ops| - 1])
  }

  function Serials(live: seq<Block>): (r: seq<nat>)
    ensures |r| == |live|
  {
    if live == [] then [] else Serials(live[..|live| - 1]) + [live[|live| - 1].serial]
  }

  lemma {:induction false} SerialsPrefix(live: seq<Block>, n: nat)
    requires n <= |live|
    ensures Serials(live[..n]) == Serials(live)[..n]
  {
    if n == |live| {
      assert live[..n] == live;
    } else {
      SerialsPrefix(live[..|live| - 1], n);
      assert live[..|live| - 1][..n] == live[..n];
    }
  }

  // ---- Layout ---------------------------------------------------------------------------------

  /** Blocks in the order of allocation follow one another, up to the current position, and the
      blocks below a mark end at or before the position saved with it. */
  ghost predicate Ordered(live: seq<Block>, marks: seq<nat>, saved: seq<Position>, pos: Position) {
    && |marks| == |saved|
    && (forall i, j :: 0 <= i < j < |live| ==> AtOrBefore(End(live[i]), Start(live[j])))
    && (forall i :: 0 <= i < |live| ==> AtOrBefore(End(live[i]), pos))
    && (forall k :: 0 <= k < |marks| ==> marks[k] <= |live| && AtOrBefore(saved[k], pos))
    && (forall k, i :: 0 <= k < |marks| && 0 <= i < marks[k] ==> AtOrBefore(End(live[i]), saved[k]))
    && (forall j, k :: 0 <= j < k < |marks| ==> marks[j] <= marks[k] && AtOrBefore(saved[j], saved[k]))
  }

  lemma OrderedAlloc(live: seq<Block>, marks: seq<nat>, saved: seq<Position>, pos: Position, b: Block)
    requires Ordered(live, marks, saved, pos) && AtOrBefore(pos, Start(b))
    ensures Ordered(live + [b], marks, saved, End(b))
  {
  }

  lemma OrderedPush(live: seq<Block>, marks: seq<nat>, saved: seq<Position>, pos: Position)
    requires Ordered(live, marks, saved, pos)
    ensures Ordered(live, marks + [|live|], saved + [pos], pos)
  {
  }

  lemma OrderedPop(live: seq<Block>, marks: seq<nat>, saved: seq<Position>, pos: Position)
    requires Ordered(live, marks, saved, pos) && marks != []
    ensures var n := |marks| - 1;
            marks[n] <= |live| && Ordered(live[..marks[n]], marks[..n], saved[..n], saved[n])
  {
  }
}
