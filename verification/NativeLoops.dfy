/** The native back end's counted loops: the count-down form, and list accesses whose bounds
    check is dropped because they are indexed by the loop. */
module NativeLoops {
  import opened Mir

  // ---- Which accesses lose their check -------------------------------------------------------

  /** Registers that a block writes, nested blocks included. */
  function Defined(insts: seq<Inst>): set<ValueId>
    decreases insts, 0
  {
    if insts == [] then {} else DefinedBy(insts[0]) + Defined(insts[1..])
  }

  function DefinedBy(inst: Inst): set<ValueId>
    decreases inst, 1
  {
    match inst
    case StoreLocal(_, _) => {}
    case Assert(_) => {}
    case If(dest, _, thenInsts, _, elseInsts, _) => {dest} + Defined(thenInsts) + Defined(elseInsts)
    case While(dest, cond, _, body) => {dest} + Defined(cond) + Defined(body)
    case Repeat(dest, _, _, body) => {dest} + Defined(body)
    case _ => {inst.dest}
  }

  /** Registers loaded from the index slot; nested counted loops are not searched. */
  function IndexLoads(insts: seq<Inst>, slot: SlotId): set<ValueId>
    decreases insts, 0
  {
    if insts == [] then {} else IndexLoadsOf(insts[0], slot) + IndexLoads(insts[1..], slot)
  }

  function IndexLoadsOf(inst: Inst, slot: SlotId): set<ValueId>
    decreases inst, 1
  {
    match inst
    case LoadLocal(dest, s) => if s == slot then {dest} else {}
    case If(_, _, thenInsts, _, elseInsts, _) => IndexLoads(thenInsts, slot) + IndexLoads(elseInsts, slot)
    case While(_, cond, _, body) => IndexLoads(cond, slot) + IndexLoads(body, slot)
    case _ => {}
  }

  type Pairs = set<(ValueId, ValueId)>

  /** Accesses of a list from outside the loop at an index loaded from the index slot. */
  function TrustedPairs(insts: seq<Inst>, defined: set<ValueId>, loads: set<ValueId>): Pairs
    decreases insts, 0
  {
    if insts == [] then {} else TrustedPairsOf(insts[0], defined, loads) + TrustedPairs(insts[1..], defined, loads)
  }

  function TrustedPairsOf(inst: Inst, defined: set<ValueId>, loads: set<ValueId>): Pairs
    decreases inst, 1
  {
    match inst
    case ListGet(_, l, at) => if at in loads && l !in defined then {(l, at)} else {}
    case ListSet(_, l, at, _) => if at in loads && l !in defined then {(l, at)} else {}
    case If(_, _, thenInsts, _, elseInsts, _) =>
      TrustedPairs(thenInsts, defined, loads) + TrustedPairs(elseInsts, defined, loads)
    case While(_, cond, _, body) =>
      TrustedPairs(cond, defined, loads) + TrustedPairs(body, defined, loads)
    case _ => {}
  }

  function TrustedIn(loop: Inst): Pairs
    requires loop.Repeat?
  {
    if loop.indexSlot.None? then {}
    else TrustedPairs(loop.body, Defined(loop.body), IndexLoads(loop.body, loop.indexSlot.value))
  }

  // ---- What the collection finds ---------------------------------------------------------------

  /** An instruction occurs in a block, at any depth of conditionals and while loops, and of counted
      loops too when `counted` says so. */
  predicate Occurs(insts: seq<Inst>, x: Inst, counted: bool)
    decreases insts
  {
    exists k :: 0 <= k < |insts| && OccursIn(insts[k], x, counted)
  }

  predicate OccursIn(inst: Inst, x: Inst, counted: bool)
    decreases inst
  {
    || inst == x
    || (inst.If? && (Occurs(inst.thenInsts, x, counted) || Occurs(inst.elseInsts, x, counted)))
    || (inst.While? && (Occurs(inst.condInsts, x, counted) || Occurs(inst.body, x, counted)))
    || (counted && inst.Repeat? && Occurs(inst.body, x, counted))
  }

  lemma OccursSplit(insts: seq<Inst>, x: Inst, counted: bool)
    requires insts != []
    ensures Occurs(insts, x, counted) <==> OccursIn(insts[0], x, counted) || Occurs(insts[1..], x, counted)
  {
    var rest := insts[1..];
    if Occurs(insts, x, counted) && !OccursIn(insts[0], x, counted) {
      var k :| 0 <= k < |insts| && OccursIn(insts[k], x, counted);
      assert rest[k - 1] == insts[k];
    } else if Occurs(rest, x, counted) {
      var k :| 0 <= k < |rest| && OccursIn(rest[k], x, counted);
      assert rest[k] == insts[k + 1];
    }
  }

  predicate WritesRegister(x: Inst, v: ValueId) {
    !x.StoreLocal? && !x.Assert? && x.dest == v
  }

  ghost predicate WrittenIn(insts: seq<Inst>, v: ValueId) {
    exists x :: Occurs(insts, x, true) && WritesRegister(x, v)
  }

  ghost predicate WrittenBy(inst: Inst, v: ValueId) {
    exists x :: OccursIn(inst, x, true) && WritesRegister(x, v)
  }

  lemma WrittenSplit(insts: seq<Inst>, v: ValueId)
    requires insts != []
    ensures WrittenIn(insts, v) <==> WrittenBy(insts[0], v) || WrittenIn(insts[1..], v)
  {
    forall x ensures Occurs(insts, x, true) <==> OccursIn(insts[0], x, true) || Occurs(insts[1..], x, true) {
      OccursSplit(insts, x, true);
    }
  }

  /** Collected as defined are exactly the registers that some instruction of the block writes. */
  lemma {:induction false} DefinedIff(insts: seq<Inst>, v: ValueId)
    ensures v in Defined(insts) <==> WrittenIn(insts, v)
    decreases insts, 0
  {
    if insts != [] {
      DefinedByIff(insts[0], v);
      DefinedIff(insts[1..], v);
      WrittenSplit(insts, v);
    }
  }

  lemma {:induction false} DefinedByIff(inst: Inst, v: ValueId)
    ensures v in DefinedBy(inst) <==> WrittenBy(inst, v)
    decreases inst, 1
  {
    assert OccursIn(inst, inst, true);
    if inst.If? {
      DefinedIff(inst.thenInsts, v);
      DefinedIff(inst.elseInsts, v);
    } else if inst.While? {
      DefinedIff(inst.condInsts, v);
      DefinedIff(inst.body, v);
    } else if inst.Repeat? {
      DefinedIff(inst.body, v);
    }
    WrittenByBlocks(inst, v);
  }

  lemma WrittenByBlocks(inst: Inst, v: ValueId)
    ensures WrittenBy(inst, v)
       <==> || WritesRegister(inst, v)
            || (inst.If? && (WrittenIn(inst.thenInsts, v) || WrittenIn(inst.elseInsts, v)))
            || (inst.While? && (WrittenIn(inst.condInsts, v) || WrittenIn(inst.body, v)))
            || (inst.Repeat? && WrittenIn(inst.body, v))
  {
    assert OccursIn(inst, inst, true);
    if WrittenBy(inst, v) {
      var x :| OccursIn(inst, x, true) && WritesRegister(x, v);
    }
    if inst.If? && WrittenIn(inst.thenInsts, v) {
      var x :| Occurs(inst.thenInsts, x, true) && WritesRegister(x, v);
      assert OccursIn(inst, x, true);
    }
    if inst.If? && WrittenIn(inst.elseInsts, v) {
      var x :| Occurs(inst.elseInsts, x, true) && WritesRegister(x, v);
      assert OccursIn(inst, x, true);
    }
    if inst.While? && WrittenIn(inst.condInsts, v) {
      var x :| Occurs(inst.condInsts, x, true) && WritesRegister(x, v);
      assert OccursIn(inst, x, true);
    }
    if (inst.While? || inst.Repeat?) && WrittenIn(inst.body, v) {
      var x :| Occurs(inst.body, x, true) && WritesRegister(x, v);
      assert OccursIn(inst, x, true);
    }
  }

  /** Collected as index loads are exactly the registers loaded from the slot. */
  lemma {:induction false} IndexLoadsIff(insts: seq<Inst>, slot: SlotId, v: ValueId)
    ensures v in IndexLoads(insts, slot) <==> Occurs(insts, LoadLocal(v, slot), false)
    decreases insts, 0
  {
    if insts != [] {
      IndexLoadsOfIff(insts[0], slot, v);
      IndexLoadsIff(insts[1..], slot, v);
      OccursSplit(insts, LoadLocal(v, slot), false);
    }
  }

  lemma {:induction false} IndexLoadsOfIff(inst: Inst, slot: SlotId, v: ValueId)
    ensures v in IndexLoadsOf(inst, slot) <==> OccursIn(inst, LoadLocal(v, slot), false)
    decreases inst, 1
  {
    if inst.If? {
      IndexLoadsIff(inst.thenInsts, slot, v);
      IndexLoadsIff(inst.elseInsts, slot, v);
    } else if inst.While? {
      IndexLoadsIff(inst.condInsts, slot, v);
      IndexLoadsIff(inst.body, slot, v);
    }
  }

  predicate AccessOf(x: Inst, q: (ValueId, ValueId)) {
    (x.ListGet? || x.ListSet?) && x.list == q.0 && x.at == q.1
  }

  ghost predicate AccessedIn(insts: seq<Inst>, q: (ValueId, ValueId)) {
    exists x :: Occurs(insts, x, false) && AccessOf(x, q)
  }

  ghost predicate AccessedBy(inst: Inst, q: (ValueId, ValueId)) {
    exists x :: OccursIn(inst, x, false) && AccessOf(x, q)
  }

  lemma AccessedSplit(insts: seq<Inst>, q: (ValueId, ValueId))
    requires insts != []
    ensures AccessedIn(insts, q) <==> AccessedBy(insts[0], q) || AccessedIn(insts[1..], q)
  {
    forall x ensures Occurs(insts, x, false) <==> OccursIn(insts[0], x, false) || Occurs(insts[1..], x, false) {
      OccursSplit(insts, x, false);
    }
  }

  lemma AccessedByBlocks(inst: Inst, q: (ValueId, ValueId))
    ensures AccessedBy(inst, q)
       <==> || AccessOf(inst, q)
            || (inst.If? && (AccessedIn(inst.thenInsts, q) || AccessedIn(inst.elseInsts, q)))
            || (inst.While? && (AccessedIn(inst.condInsts, q) || AccessedIn(inst.body, q)))
  {
    assert OccursIn(inst, inst, false);
    if AccessedBy(inst, q) {
      var x :| OccursIn(inst, x, false) && AccessOf(x, q);
    }
    if inst.If? && AccessedIn(inst.thenInsts, q) {
      var x :| Occurs(inst.thenInsts, x, false) && AccessOf(x, q);
      assert OccursIn(inst, x, false);
    }
    if inst.If? && AccessedIn(inst.elseInsts, q) {
      var x :| Occurs(inst.elseInsts, x, false) && AccessOf(x, q);
      assert OccursIn(inst, x, false);
    }
    if inst.While? && AccessedIn(inst.condInsts, q) {
      var x :| Occurs(inst.condInsts, x, false) && AccessOf(x, q);
      assert OccursIn(inst, x, false);
    }
    if inst.While? && AccessedIn(inst.body, q) {
      var x :| Occurs(inst.body, x, false) && AccessOf(x, q);
      assert OccursIn(inst, x, false);
    }
  }

  lemma {:induction false} TrustedPairsIff(insts: seq<Inst>, defined: set<ValueId>, loads: set<ValueId>,
                                           q: (ValueId, ValueId))
    ensures q in TrustedPairs(insts, defined, loads) <==> AccessedIn(insts, q) && q.1 in loads && q.0 !in defined
    decreases insts, 0
  {
    if insts != [] {
      TrustedPairsOfIff(insts[0], defined, loads, q);
      TrustedPairsIff(insts[1..], defined, loads, q);
      AccessedSplit(insts, q);
    }
  }

  lemma {:induction false} TrustedPairsOfIff(inst: Inst, defined: set<ValueId>, loads: set<ValueId>,
                                             q: (ValueId, ValueId))
    ensures q in TrustedPairsOf(inst, defined, loads) <==> AccessedBy(inst, q) && q.1 in loads && q.0 !in defined
    decreases inst, 1
  {
    AccessedByBlocks(inst, q);
    if inst.If? {
      TrustedPairsIff(inst.thenInsts, defined, loads, q);
      TrustedPairsIff(inst.elseInsts, defined, loads, q);
    } else if inst.While? {
      TrustedPairsIff(inst.condInsts, defined, loads, q);
      TrustedPairsIff(inst.body, defined, loads, q);
    }
  }

  /** An access of the body that the lowering leaves unchecked: its index is loaded from the index
      slot, and no instruction of the body writes its list. */
  ghost predicate Unchecked(loop: Inst, q: (ValueId, ValueId))
    requires loop.Repeat?
  {
    && AccessedIn(loop.body, q)
    && loop.indexSlot.Some? && Occurs(loop.body, LoadLocal(q.1, loop.indexSlot.value), false)
    && !WrittenIn(loop.body, q.0)
  }

  /** The collection finds exactly these. */
  lemma TrustedIff(loop: Inst, q: (ValueId, ValueId))
    requires loop.Repeat?
    ensures q in TrustedIn(loop) <==> Unchecked(loop, q)
  {
    if loop.indexSlot.Some? {
      DefinedIff(loop.body, q.0);
      IndexLoadsIff(loop.body, loop.indexSlot.value, q.1);
      TrustedPairsIff(loop.body, Defined(loop.body), IndexLoads(loop.body, loop.indexSlot.value), q);
    }
  }

  // ---- Native execution ------------------------------------------------------------------------

  predicate IsAccess(inst: Inst) {
    inst.ListGet? || inst.ListSet?
  }

  /** The access would read or write outside its list. */
  predicate OutOfRange(inst: Inst, f: Frame)
    requires IsAccess(inst)
  {
    && inst.list < |f.values| && inst.at < |f.values| && f.values[inst.list].List? && f.values[inst.at].Int?
    && !(0 <= f.values[inst.at].n < |f.values[inst.list].elems|)
  }

  function NativeSimple(p: Program, args: seq<Value>, trusted: Pairs, inst: Inst, f: Frame): Outcome<Frame>
    requires !inst.Call? && !inst.If? && !inst.While? && !inst.Repeat?
  {
    if IsAccess(inst) && (inst.list, inst.at) in trusted && OutOfRange(inst, f) then Failed(WildAccess)
    else ExecSimple(p, args, inst, f)
  }

  function NativeSeq(p: Program, args: seq<Value>, trusted: Pairs, insts: seq<Inst>, f: Frame,
                     fuel: nat): Outcome<Frame>
    decreases fuel, insts, 0
  {
    if insts == [] then Done(f) else
    var g :- NativeInst(p, args, trusted, insts[0], f, fuel);
    NativeSeq(p, args, trusted, insts[1..], g, fuel)
  }

  function NativeInst(p: Program, args: seq<Value>, trusted: Pairs, inst: Inst, f: Frame, fuel: nat): Outcome<Frame>
    decreases fuel, inst, 1
  {
    if inst.Call? then
      var fn := Lookup(p.functions, inst.callee);
      if fn.None? then Failed(UnknownCallee) else
      var xs :- GetAll(f, inst.args);
      if fuel == 0 then OutOfFuel else
      var g :- NativeSeq(p, xs, {}, fn.value.body, Entry(fn.value, f.clock), fuel - 1);
      var h :- Put(f, inst.dest, ResultOf(g, fn.value.result));
      Done(h.(clock := g.clock))
    else if inst.If? then
      var b :- GetBool(f, inst.condition);
      var g :- if b then NativeSeq(p, args, trusted, inst.thenInsts, f, fuel)
               else NativeSeq(p, args, trusted, inst.elseInsts, f, fuel);
      Put(g, inst.dest, ResultOf(g, if b then inst.thenResult else inst.elseResult))
    else if inst.While? then
      NativeWhile(p, args, trusted, inst, f, fuel)
    else if inst.Repeat? then
      var n :- GetInt(f, inst.count);
      NativeRepeat(p, args, inst, n, 0, f, fuel)
    else
      NativeSimple(p, args, trusted, inst, f)
  }

  function NativeWhile(p: Program, args: seq<Value>, trusted: Pairs, loop: Inst, f: Frame, fuel: nat): Outcome<Frame>
    requires loop.While?
    decreases fuel, loop, 0
  {
    var g :- NativeSeq(p, args, trusted, loop.condInsts, f, fuel);
    var b :- GetBool(g, loop.condition);
    if !b then Put(g, loop.dest, Unit) else
    var h :- NativeSeq(p, args, trusted, loop.body, g, fuel);
    if fuel == 0 then OutOfFuel else NativeWhile(p, args, trusted, loop, h, fuel - 1)
  }

  /** The loop block carries what remains and the current index, both 64-bit; the index slot is
      written at the top of the body.  The body has its own trusted accesses. */
  function NativeRepeat(p: Program, args: seq<Value>, loop: Inst, remaining: int, index: int, f: Frame,
                        fuel: nat): Outcome<Frame>
    requires loop.Repeat?
    decreases fuel, loop, 0
  {
    if remaining <= 0 then Put(f, loop.dest, Unit) else
    var g :- SetIndex(f, loop.indexSlot, index);
    var h :- NativeSeq(p, args, TrustedIn(loop), loop.body, g, fuel);
    if fuel == 0 then OutOfFuel else NativeRepeat(p, args, loop, Wrap64(remaining - 1), Wrap64(index + 1), h, fuel - 1)
  }

  // ---- What the removal relies on ----------------------------------------------------------------

  /** The loop around a block: its trusted accesses and the lists they read, its index slot, the
      registers loaded from that slot, and all registers the loop body writes. */
  datatype Loop = Loop(trusted: Pairs, lists: set<ValueId>, slot: Option<SlotId>, loads: set<ValueId>,
                       defined: set<ValueId>)

  const NoLoop: Loop := Loop({}, {}, None, {}, {})

  function LoopOf(loop: Inst): Loop
    requires loop.Repeat?
  {
    if loop.indexSlot.None? then NoLoop
    else Loop(TrustedIn(loop), set q | q in TrustedIn(loop) :: q.0, loop.indexSlot,
              IndexLoads(loop.body, loop.indexSlot.value), Defined(loop.body))
  }

  /** The loop seen from a loop nested in it, whose lowering replaces the trusted accesses. */
  function Outer(c: Loop): Loop {
    c.(trusted := {})
  }

  /** A register loaded from the index slot has no other definition. */
  predicate DestOk(c: Loop, inst: Inst)
    requires !inst.StoreLocal? && !inst.Assert?
  {
    inst.dest in c.loads ==> inst.LoadLocal? && c.slot == Some(inst.slot)
  }

  /** A block under loop `c`: nothing writes the index slot, registers loaded from it have no other
      definition, and trusted indexes are defined before use.  Nested counted loops are checked
      for themselves too.  The result is the set of registers defined after the block. */
  function CheckSeq(c: Loop, insts: seq<Inst>, d: set<ValueId>): (r: Option<set<ValueId>>)
    ensures r.Some? ==> d <= r.value
    decreases insts, 0
  {
    if insts == [] then Some(d) else
    var r := CheckInst(c, insts[0], d);
    if r.None? then None else CheckSeq(c, insts[1..], r.value)
  }

  function CheckInst(c: Loop, inst: Inst, d: set<ValueId>): (r: Option<set<ValueId>>)
    ensures r.Some? ==> d <= r.value
    decreases inst, 1
  {
    if inst.StoreLocal? then if c.slot == Some(inst.slot) then None else Some(d)
    else if inst.Assert? then Some(d)
    else if DestOk(c, inst) && CheckBlocks(c, inst, d) then Some(d + {inst.dest})
    else None
  }

  predicate CheckBlocks(c: Loop, inst: Inst, d: set<ValueId>)
    decreases inst, 0
  {
    if inst.If? then CheckSeq(c, inst.thenInsts, d).Some? && CheckSeq(c, inst.elseInsts, d).Some?
    else if inst.While? then CheckSeq(c, inst.condInsts, d).Some? && CheckSeq(c, inst.body, d).Some?
    else if inst.Repeat? then
      && (inst.indexSlot.None? || inst.indexSlot != c.slot)
      && CheckSeq(Outer(c), inst.body, d).Some? && CheckSeq(LoopOf(inst), inst.body, {}).Some?
    else IsAccess(inst) && (inst.list, inst.at) in c.trusted ==> inst.at in d
  }

  ghost predicate ProgramOk(p: Program) {
    forall fn {:trigger CheckSeq(NoLoop, fn.body, {})} :: fn in p.functions ==> CheckSeq(NoLoop, fn.body, {}).Some?
  }

  /** On entry to a counted loop: the count fits 64 bits and no trusted list is shorter. */
  ghost predicate EntryOk(loop: Inst, n: int, f: Frame)
    requires loop.Repeat?
  {
    && IsI64(n)
    && forall q :: q in TrustedIn(loop) ==>
         q.0 < |f.values| && f.values[q.0].List? && n <= |f.values[q.0].elems|
  }

  /** Every counted loop that the run enters is entered with `EntryOk`. */
  ghost predicate BoundedSeq(p: Program, args: seq<Value>, insts: seq<Inst>, f: Frame, fuel: nat)
    decreases fuel, insts, 0
  {
    insts == [] ||
    (&& BoundedInst(p, args, insts[0], f, fuel)
     && var g := ExecInst(p, args, insts[0], f, fuel);
        (g.Done? ==> BoundedSeq(p, args, insts[1..], g.value, fuel)))
  }

  ghost predicate BoundedInst(p: Program, args: seq<Value>, inst: Inst, f: Frame, fuel: nat)
    decreases fuel, inst, 1
  {
    if inst.Call? then
      var fn, xs := Lookup(p.functions, inst.callee), GetAll(f, inst.args);
      fn.Some? && xs.Done? && fuel > 0 ==> BoundedSeq(p, xs.value, fn.value.body, Entry(fn.value, f.clock), fuel - 1)
    else if inst.If? then
      var b := GetBool(f, inst.condition);
      && (b == Done(true) ==> BoundedSeq(p, args, inst.thenInsts, f, fuel))
      && (b == Done(false) ==> BoundedSeq(p, args, inst.elseInsts, f, fuel))
    else if inst.While? then BoundedWhile(p, args, inst, f, fuel)
    else if inst.Repeat? then
      var n := GetInt(f, inst.count);
      n.Done? ==> EntryOk(inst, n.value, f) && BoundedRepeat(p, args, inst, n.value, 0, f, fuel)
    else true
  }

  ghost predicate BoundedWhile(p: Program, args: seq<Value>, loop: Inst, f: Frame, fuel: nat)
    requires loop.While?
    decreases fuel, loop, 0
  {
    && BoundedSeq(p, args, loop.condInsts, f, fuel)
    && var g := ExecSeq(p, args, loop.condInsts, f, fuel);
       (g.Done? && GetBool(g.value, loop.condition) == Done(true) ==>
          && BoundedSeq(p, args, loop.body, g.value, fuel)
          && var h := ExecSeq(p, args, loop.body, g.value, fuel);
             (h.Done? && fuel > 0 ==> BoundedWhile(p, args, loop, h.value, fuel - 1)))
  }

  ghost predicate BoundedRepeat(p: Program, args: seq<Value>, loop: Inst, n: int, i: nat, f: Frame, fuel: nat)
    requires loop.Repeat?
    decreases fuel, loop, 0
  {
    i < n ==>
      var g := SetIndex(f, loop.indexSlot, i);
      g.Done? ==>
        && BoundedSeq(p, args, loop.body, g.value, fuel)
        && var h := ExecSeq(p, args, loop.body, g.value, fuel);
           (h.Done? && fuel > 0 ==> BoundedRepeat(p, args, loop, n, i + 1, h.value, fuel - 1))
  }

  // ---- What stays true inside a counted loop -----------------------------------------------------

  /** An iteration: its index, and the trusted lists, which the body leaves alone. */
  datatype Iter = Iter(index: int, lists: map<ValueId, Value>)

  /** The lists are as they were, and the index slot and every register loaded from it hold the
      index. */
  ghost predicate Inv(c: Loop, it: Iter, d: set<ValueId>, f: Frame) {
    c.slot.Some? ==>
      && c.slot.value < |f.slots| && f.slots[c.slot.value] == Int(it.index)
      && (forall l :: l in c.lists ==> l in it.lists && l < |f.values| && f.values[l] == it.lists[l])
      && (forall x :: x in d && x in c.loads ==> x < |f.values| && f.values[x] == Int(it.index))
  }

  /** No trusted list ends at or before the index. */
  ghost predicate InBounds(c: Loop, it: Iter) {
    c.slot.Some? ==>
      0 <= it.index && forall l :: l in c.lists && l in it.lists && it.lists[l].List? ==> it.index < |it.lists[l].elems|
  }

  ghost predicate InvAfter(c: Loop, it: Iter, d: set<ValueId>, r: Outcome<Frame>) {
    r.Done? ==> Inv(c, it, d, r.value)
  }

  ghost predicate Encloses(c: Loop, defined: set<ValueId>) {
    c.slot.Some? ==> defined <= c.defined && c.lists !! c.defined
  }

  lemma PutKeeps(c: Loop, it: Iter, d: set<ValueId>, f: Frame, inst: Inst, x: Value)
    requires !inst.StoreLocal? && !inst.Assert? && Inv(c, it, d, f) && DestOk(c, inst) && Encloses(c, {inst.dest})
    requires inst.dest in c.loads && c.slot.Some? ==> x == Int(it.index)
    ensures InvAfter(c, it, d + {inst.dest}, Put(f, inst.dest, x))
  {
  }

  lemma {:induction false} SeqKeeps(p: Program, args: seq<Value>, c: Loop, it: Iter, d: set<ValueId>, insts: seq<Inst>,
                                    f: Frame, fuel: nat)
    requires CheckSeq(c, insts, d).Some? && Inv(c, it, d, f) && Encloses(c, Defined(insts))
    ensures InvAfter(c, it, CheckSeq(c, insts, d).value, ExecSeq(p, args, insts, f, fuel))
    decreases fuel, insts, 0
  {
    if insts != [] {
      InstKeeps(p, args, c, it, d, insts[0], f, fuel);
      var g := ExecInst(p, args, insts[0], f, fuel);
      if g.Done? {
        SeqKeeps(p, args, c, it, CheckInst(c, insts[0], d).value, insts[1..], g.value, fuel);
      }
    }
  }

  lemma {:induction false} InstKeeps(p: Program, args: seq<Value>, c: Loop, it: Iter, d: set<ValueId>, inst: Inst,
                                     f: Frame, fuel: nat)
    requires CheckInst(c, inst, d).Some? && Inv(c, it, d, f) && Encloses(c, DefinedBy(inst))
    ensures InvAfter(c, it, CheckInst(c, inst, d).value, ExecInst(p, args, inst, f, fuel))
    decreases fuel, inst, 1
  {
    if inst.If? {
      IfKeeps(p, args, c, it, d, inst, f, fuel);
    } else if inst.While? {
      WhileKeeps(p, args, c, it, d, inst, f, fuel);
    } else if inst.Repeat? {
      var k := GetInt(f, inst.count);
      if k.Done? { RepeatKeeps(p, args, c, it, d, inst, k.value, 0, f, fuel); }
    } else if !inst.StoreLocal? && !inst.Assert? {
      WriteKeeps(p, args, c, it, d, inst, f, fuel);
    }
  }

  /** Instructions that write one register and no slot. */
  lemma WriteKeeps(p: Program, args: seq<Value>, c: Loop, it: Iter, d: set<ValueId>, inst: Inst, f: Frame, fuel: nat)
    requires IsPlain(inst) || inst.Call?
    requires Inv(c, it, d, f) && DestOk(c, inst) && Encloses(c, {inst.dest})
    ensures InvAfter(c, it, d + {inst.dest}, ExecInst(p, args, inst, f, fuel))
  {
    var r := ExecInst(p, args, inst, f, fuel);
    if r.Done? {
      var x := r.value.values[inst.dest];
      PutKeeps(c, it, d, f, inst, x);
      assert r.value == Put(f, inst.dest, x).value.(clock := r.value.clock);
    }
  }

  lemma {:induction false} IfKeeps(p: Program, args: seq<Value>, c: Loop, it: Iter, d: set<ValueId>, inst: Inst,
                                   f: Frame, fuel: nat)
    requires inst.If? && CheckInst(c, inst, d).Some? && Inv(c, it, d, f) && Encloses(c, DefinedBy(inst))
    ensures InvAfter(c, it, d + {inst.dest}, ExecInst(p, args, inst, f, fuel))
    decreases fuel, inst, 0
  {
    var b := GetBool(f, inst.condition);
    if b.Done? {
      var insts := if b.value then inst.thenInsts else inst.elseInsts;
      SeqKeeps(p, args, c, it, d, insts, f, fuel);
      var g := ExecSeq(p, args, insts, f, fuel);
      if g.Done? {
        assert Inv(c, it, d, g.value);
        PutKeeps(c, it, d, g.value, inst, ResultOf(g.value, if b.value then inst.thenResult else inst.elseResult));
      }
    }
  }

  lemma {:induction false} WhileKeeps(p: Program, args: seq<Value>, c: Loop, it: Iter, d: set<ValueId>, loop: Inst,
                                      f: Frame, fuel: nat)
    requires loop.While? && CheckInst(c, loop, d).Some? && Inv(c, it, d, f) && Encloses(c, DefinedBy(loop))
    ensures InvAfter(c, it, d + {loop.dest}, ExecWhile(p, args, loop, f, fuel))
    decreases fuel, loop, 0
  {
    SeqKeeps(p, args, c, it, d, loop.condInsts, f, fuel);
    var g := ExecSeq(p, args, loop.condInsts, f, fuel);
    if g.Done? {
      assert Inv(c, it, d, g.value);
      PutKeeps(c, it, d, g.value, loop, Unit);
      SeqKeeps(p, args, c, it, d, loop.body, g.value, fuel);
      var h := ExecSeq(p, args, loop.body, g.value, fuel);
      if h.Done? && fuel > 0 { WhileKeeps(p, args, c, it, d, loop, h.value, fuel - 1); }
    }
  }

  lemma {:induction false} RepeatKeeps(p: Program, args: seq<Value>, c: Loop, it: Iter, d: set<ValueId>, loop: Inst,
                                       k: int, i: nat, f: Frame, fuel: nat)
    requires loop.Repeat? && CheckInst(c, loop, d).Some? && Inv(c, it, d, f) && Encloses(c, DefinedBy(loop))
    ensures InvAfter(c, it, d + {loop.dest}, ExecRepeat(p, args, loop, k, i, f, fuel))
    decreases fuel, loop, 0
  {
    if i >= k {
      PutKeeps(c, it, d, f, loop, Unit);
    } else {
      var g := SetIndex(f, loop.indexSlot, i);
      if g.Done? {
        SeqKeeps(p, args, Outer(c), it, d, loop.body, g.value, fuel);
        var h := ExecSeq(p, args, loop.body, g.value, fuel);
        if h.Done? && fuel > 0 { RepeatKeeps(p, args, c, it, d, loop, k, i + 1, h.value, fuel - 1); }
      }
    }
  }

  // ---- Native execution agrees with the interpreter ----------------------------------------------

  lemma {:induction false} PairsAvoidDefined(insts: seq<Inst>, defined: set<ValueId>, loads: set<ValueId>,
                                             q: (ValueId, ValueId))
    requires q in TrustedPairs(insts, defined, loads)
    ensures q.0 !in defined && q.1 in loads
    decreases insts, 0
  {
    if q in TrustedPairs(insts[1..], defined, loads) {
      PairsAvoidDefined(insts[1..], defined, loads, q);
    } else if insts[0].If? {
      var inThen := q in TrustedPairs(insts[0].thenInsts, defined, loads);
      PairsAvoidDefined(if inThen then insts[0].thenInsts else insts[0].elseInsts, defined, loads, q);
    } else if insts[0].While? {
      var inCond := q in TrustedPairs(insts[0].condInsts, defined, loads);
      PairsAvoidDefined(if inCond then insts[0].condInsts else insts[0].body, defined, loads, q);
    }
  }

  lemma LoopEncloses(loop: Inst)
    requires loop.Repeat?
    ensures Encloses(LoopOf(loop), Defined(loop.body))
    ensures LoopOf(loop).trusted == TrustedIn(loop)
    ensures forall q :: q in LoopOf(loop).trusted ==> q.0 in LoopOf(loop).lists && q.1 in LoopOf(loop).loads
  {
    if loop.indexSlot.Some? {
      forall q | q in TrustedIn(loop) ensures q.0 !in Defined(loop.body) && q.1 in LoopOf(loop).loads {
        PairsAvoidDefined(loop.body, Defined(loop.body), IndexLoads(loop.body, loop.indexSlot.value), q);
      }
    }
  }

  /** The trusted accesses of `c` read its lists at its loads. */
  ghost predicate Consistent(c: Loop) {
    && (forall q :: q in c.trusted ==> q.0 in c.lists && q.1 in c.loads)
    && (c.slot.None? ==> c.trusted == {})
  }

  /** Native execution is the interpreter's, or it is wild, which it is not inside the lists. */
  ghost predicate AgreesOrWild(c: Loop, it: Iter, native: Outcome<Frame>, r: Outcome<Frame>) {
    native == r || (native == Failed(WildAccess) && !InBounds(c, it))
  }

  lemma {:induction false} NativeSeqAgrees(p: Program, args: seq<Value>, c: Loop, it: Iter, d: set<ValueId>,
                                           insts: seq<Inst>, f: Frame, fuel: nat)
    requires ProgramOk(p) && Consistent(c) && CheckSeq(c, insts, d).Some? && Inv(c, it, d, f)
    requires Encloses(c, Defined(insts)) && BoundedSeq(p, args, insts, f, fuel)
    ensures AgreesOrWild(c, it, NativeSeq(p, args, c.trusted, insts, f, fuel), ExecSeq(p, args, insts, f, fuel))
    decreases fuel, insts, 0
  {
    if insts != [] {
      NativeInstAgrees(p, args, c, it, d, insts[0], f, fuel);
      InstKeeps(p, args, c, it, d, insts[0], f, fuel);
      var g := ExecInst(p, args, insts[0], f, fuel);
      if g.Done? {
        NativeSeqAgrees(p, args, c, it, CheckInst(c, insts[0], d).value, insts[1..], g.value, fuel);
      }
    }
  }

  lemma {:induction false} NativeInstAgrees(p: Program, args: seq<Value>, c: Loop, it: Iter, d: set<ValueId>,
                                            inst: Inst, f: Frame, fuel: nat)
    requires ProgramOk(p) && Consistent(c) && CheckInst(c, inst, d).Some? && Inv(c, it, d, f)
    requires Encloses(c, DefinedBy(inst)) && BoundedInst(p, args, inst, f, fuel)
    ensures AgreesOrWild(c, it, NativeInst(p, args, c.trusted, inst, f, fuel), ExecInst(p, args, inst, f, fuel))
    decreases fuel, inst, 2
  {
    if inst.Call? {
      NativeCallAgrees(p, args, c.trusted, inst, f, fuel);
    } else if inst.If? {
      var b := GetBool(f, inst.condition);
      if b.Done? {
        NativeSeqAgrees(p, args, c, it, d, if b.value then inst.thenInsts else inst.elseInsts, f, fuel);
      }
    } else if inst.While? {
      NativeWhileAgrees(p, args, c, it, d, inst, f, fuel);
    } else if inst.Repeat? {
      var k := GetInt(f, inst.count);
      if k.Done? { NativeRepeatAgrees(p, args, inst, k.value, 0, f, fuel); }
    } else if IsAccess(inst) && (inst.list, inst.at) in c.trusted {
      // the list is one of the loop's lists, and the index register holds the index
      assert inst.list in c.lists && inst.at in c.loads && inst.at in d;
    }
  }

  lemma {:induction false} NativeCallAgrees(p: Program, args: seq<Value>, trusted: Pairs, inst: Inst, f: Frame,
                                            fuel: nat)
    requires inst.Call? && ProgramOk(p) && BoundedInst(p, args, inst, f, fuel)
    ensures NativeInst(p, args, trusted, inst, f, fuel) == ExecInst(p, args, inst, f, fuel)
    decreases fuel, inst, 0
  {
    var fn, xs := Lookup(p.functions, inst.callee), GetAll(f, inst.args);
    if fn.Some? && xs.Done? && fuel > 0 {
      assert CheckSeq(NoLoop, fn.value.body, {}).Some?;
      NativeSeqAgrees(p, xs.value, NoLoop, Iter(0, map[]), {}, fn.value.body, Entry(fn.value, f.clock), fuel - 1);
    }
  }

  lemma {:induction false} NativeWhileAgrees(p: Program, args: seq<Value>, c: Loop, it: Iter, d: set<ValueId>,
                                             loop: Inst, f: Frame, fuel: nat)
    requires loop.While? && ProgramOk(p) && Consistent(c) && CheckInst(c, loop, d).Some? && Inv(c, it, d, f)
    requires Encloses(c, DefinedBy(loop)) && BoundedWhile(p, args, loop, f, fuel)
    ensures AgreesOrWild(c, it, NativeWhile(p, args, c.trusted, loop, f, fuel), ExecWhile(p, args, loop, f, fuel))
    decreases fuel, loop, 0
  {
    NativeSeqAgrees(p, args, c, it, d, loop.condInsts, f, fuel);
    SeqKeeps(p, args, c, it, d, loop.condInsts, f, fuel);
    var g := ExecSeq(p, args, loop.condInsts, f, fuel);
    if g.Done? && GetBool(g.value, loop.condition) == Done(true) {
      assert Inv(c, it, d, g.value);
      NativeSeqAgrees(p, args, c, it, d, loop.body, g.value, fuel);
      SeqKeeps(p, args, c, it, d, loop.body, g.value, fuel);
      var h := ExecSeq(p, args, loop.body, g.value, fuel);
      if h.Done? && fuel > 0 { NativeWhileAgrees(p, args, c, it, d, loop, h.value, fuel - 1); }
    }
  }

  // ---- Counted loops -----------------------------------------------------------------------------

  /** The trusted lists on entry. */
  ghost predicate HasLists(loop: Inst, f: Frame)
    requires loop.Repeat?
  {
    forall q :: q in TrustedIn(loop) ==> q.0 < |f.values| && f.values[q.0].List?
  }

  function ListsOf(loop: Inst, f: Frame): map<ValueId, Value>
    requires loop.Repeat?
  {
    map l | l in LoopOf(loop).lists && l < |f.values| :: f.values[l]
  }

  /** Iteration `i` of the body agrees or is wild, and leaves the lists alone. */
  lemma {:induction false} RoundAgrees(p: Program, args: seq<Value>, loop: Inst, i: nat, f: Frame, g: Frame, fuel: nat)
    requires loop.Repeat? && ProgramOk(p) && CheckSeq(LoopOf(loop), loop.body, {}).Some? && HasLists(loop, f)
    requires SetIndex(f, loop.indexSlot, i) == Done(g) && BoundedSeq(p, args, loop.body, g, fuel)
    ensures var c, it := LoopOf(loop), Iter(i, ListsOf(loop, f));
            && RoundStarts(loop, c, it, g)
            && AgreesOrWild(c, it, NativeSeq(p, args, c.trusted, loop.body, g, fuel),
                            ExecSeq(p, args, loop.body, g, fuel))
    ensures var h := ExecSeq(p, args, loop.body, g, fuel);
            h.Done? ==> HasLists(loop, h.value) && ListsOf(loop, h.value) == ListsOf(loop, f)
    decreases fuel, loop, 0
  {
    var c, it := LoopOf(loop), Iter(i, ListsOf(loop, f));
    LoopEncloses(loop);
    assert RoundStarts(loop, c, it, g);
    NativeSeqAgrees(p, args, c, it, {}, loop.body, g, fuel);
    SeqKeeps(p, args, c, it, {}, loop.body, g, fuel);
    var h := ExecSeq(p, args, loop.body, g, fuel);
    if h.Done? { ListsKept(loop, i, f, h.value); }
  }

  ghost predicate RoundStarts(loop: Inst, c: Loop, it: Iter, g: Frame)
    requires loop.Repeat?
  {
    c.trusted == TrustedIn(loop) && Inv(c, it, {}, g) && Consistent(c) && Encloses(c, Defined(loop.body))
  }

  lemma ListsKept(loop: Inst, i: nat, f: Frame, h: Frame)
    requires loop.Repeat? && HasLists(loop, f) && Inv(LoopOf(loop), Iter(i, ListsOf(loop, f)), {}, h)
    ensures HasLists(loop, h) && ListsOf(loop, h) == ListsOf(loop, f)
  {
    var c := LoopOf(loop);
    forall q | q in TrustedIn(loop) ensures q.0 < |h.values| && h.values[q.0] == f.values[q.0] {
      assert q.0 in c.lists;
    }
  }

  lemma EntryInBounds(loop: Inst, n: int, i: nat, f: Frame)
    requires loop.Repeat? && EntryOk(loop, n, f) && i < n
    ensures HasLists(loop, f) && InBounds(LoopOf(loop), Iter(i, ListsOf(loop, f)))
  {
  }

  lemma EntryKept(loop: Inst, n: int, f: Frame, h: Frame)
    requires loop.Repeat? && EntryOk(loop, n, f) && HasLists(loop, h) && ListsOf(loop, h) == ListsOf(loop, f)
    ensures EntryOk(loop, n, h)
  {
    ListsSame(loop, f, h);
  }

  /** The count-down loop is the counted loop: the body runs with index 0, 1, 2, ... as often as
      the count says, not at all for a count below one, and the index slot ends the same. */
  lemma {:induction false} NativeRepeatAgrees(p: Program, args: seq<Value>, loop: Inst, n: int, i: nat, f: Frame,
                                              fuel: nat)
    requires loop.Repeat? && ProgramOk(p) && CheckSeq(LoopOf(loop), loop.body, {}).Some?
    requires EntryOk(loop, n, f) && BoundedRepeat(p, args, loop, n, i, f, fuel) && (i == 0 || i <= n)
    ensures NativeRepeat(p, args, loop, n - i, i, f, fuel) == ExecRepeat(p, args, loop, n, i, f, fuel)
    decreases fuel, loop, 1
  {
    var g := SetIndex(f, loop.indexSlot, i);
    if i < n && g.Done? {
      EntryInBounds(loop, n, i, f);
      RoundAgrees(p, args, loop, i, f, g.value, fuel);
      var h := ExecSeq(p, args, loop.body, g.value, fuel);
      if h.Done? && fuel > 0 {
        assert Wrap64(n - i - 1) == n - (i + 1) && Wrap64(i + 1) == i + 1;
        EntryKept(loop, n, f, h.value);
        NativeRepeatAgrees(p, args, loop, n, i + 1, h.value, fuel - 1);
      }
    }
  }

  /** Dropping the checks is harmless: a program whose counted loops are entered with counts no
      larger than their trusted lists computes natively what the interpreter computes. */
  lemma NativeRunAgrees(p: Program, fn: Function, args: seq<Value>, clock: nat, fuel: nat)
    requires ProgramOk(p) && fn in p.functions && BoundedSeq(p, args, fn.body, Entry(fn, clock), fuel)
    ensures NativeSeq(p, args, {}, fn.body, Entry(fn, clock), fuel) == ExecSeq(p, args, fn.body, Entry(fn, clock), fuel)
  {
    assert CheckSeq(NoLoop, fn.body, {}).Some?;
    NativeSeqAgrees(p, args, NoLoop, Iter(0, map[]), {}, fn.body, Entry(fn, clock), fuel);
  }

  // ---- Why the count has to be bounded -----------------------------------------------------------

  /** The access is one of the instructions of the block itself, so that no run of the block ends
      without reaching it. */
  predicate Accesses(insts: seq<Inst>, q: (ValueId, ValueId)) {
    exists k :: 0 <= k < |insts| && IsAccess(insts[k]) && (insts[k].list, insts[k].at) == q
  }

  predicate ReachesAll(loop: Inst)
    requires loop.Repeat?
  {
    forall q :: q in TrustedIn(loop) ==> Accesses(loop.body, q)
  }

  /** A block that runs to its end in the interpreter, and accesses a list that ends at or before
      the index, is wild in native code. */
  lemma {:induction false} WildBody(p: Program, args: seq<Value>, c: Loop, it: Iter, d: set<ValueId>,
                                    insts: seq<Inst>, q: (ValueId, ValueId), f: Frame, fuel: nat)
    requires ProgramOk(p) && Consistent(c) && CheckSeq(c, insts, d).Some? && Inv(c, it, d, f)
    requires Encloses(c, Defined(insts)) && BoundedSeq(p, args, insts, f, fuel)
    requires c.slot.Some? && q in c.trusted && Accesses(insts, q) && ExecSeq(p, args, insts, f, fuel).Done?
    requires q.0 in it.lists && it.lists[q.0].List? && it.index >= |it.lists[q.0].elems|
    ensures NativeSeq(p, args, c.trusted, insts, f, fuel) == Failed(WildAccess)
    decreases insts
  {
    var inst := insts[0];
    NativeInstAgrees(p, args, c, it, d, inst, f, fuel);
    InstKeeps(p, args, c, it, d, inst, f, fuel);
    if IsAccess(inst) && (inst.list, inst.at) == q {
      assert inst.list in c.lists && inst.at in c.loads && inst.at in d;
    } else {
      var k :| 0 <= k < |insts| && IsAccess(insts[k]) && (insts[k].list, insts[k].at) == q;
      assert insts[1..][k - 1] == insts[k];
      var g := ExecInst(p, args, inst, f, fuel).value;
      WildBody(p, args, c, it, CheckInst(c, inst, d).value, insts[1..], q, g, fuel);
    }
  }

  /** Some trusted list is shorter than the count. */
  ghost predicate TooShort(loop: Inst, n: int, f: Frame)
    requires loop.Repeat?
  {
    exists q :: q in TrustedIn(loop) && q.0 < |f.values| && f.values[q.0].List? && n > |f.values[q.0].elems|
  }

  /** Without their checks, the accesses of a loop that the interpreter runs to its end go outside
      their lists if and only if the count exceeds the length of one of them: exactly the entry
      condition that the lowering does not test.  Otherwise native code does what the interpreter
      does.  The accesses are those that occur in the body, and the body reaches all of them. */
  lemma ReadsOutsideIff(p: Program, args: seq<Value>, loop: Inst, n: int, f: Frame, fuel: nat)
    requires loop.Repeat? && ProgramOk(p) && CheckSeq(LoopOf(loop), loop.body, {}).Some?
    requires forall q: (ValueId, ValueId) :: Unchecked(loop, q) ==> Accesses(loop.body, q)
    requires forall q: (ValueId, ValueId) :: Unchecked(loop, q) ==> q.0 < |f.values| && f.values[q.0].List?
    requires IsI64(n) && BoundedRepeat(p, args, loop, n, 0, f, fuel)
    requires ExecRepeat(p, args, loop, n, 0, f, fuel).Done?
    ensures NativeRepeat(p, args, loop, n, 0, f, fuel)
         == if exists q: (ValueId, ValueId) :: Unchecked(loop, q) && n > |f.values[q.0].elems| then Failed(WildAccess)
            else ExecRepeat(p, args, loop, n, 0, f, fuel)
  {
    forall q: (ValueId, ValueId) ensures q in TrustedIn(loop) <==> Unchecked(loop, q) {
      TrustedIff(loop, q);
    }
    if TooShort(loop, n, f) {
      WildWhenTooShort(p, args, loop, n, 0, f, fuel);
      var q :| q in TrustedIn(loop) && n > |f.values[q.0].elems|;
      assert Unchecked(loop, q);
    } else {
      NotTooShort(loop, n, f);
      NativeRepeatAgrees(p, args, loop, n, 0, f, fuel);
    }
  }

  /** A loop that reads and one that writes a list at its index: both are well-formed, and both lose
      their check. */
  lemma PlainLoopsLoseTheirCheck(dest: ValueId, count: ValueId, slot: SlotId, i: ValueId, x: ValueId, l: ValueId)
    requires l != i && l != x && i != x
    ensures var loop := Repeat(dest, count, Some(slot), [LoadLocal(i, slot), ListGet(x, l, i)]);
            CheckSeq(LoopOf(loop), loop.body, {}).Some? && Unchecked(loop, (l, i)) && Accesses(loop.body, (l, i))
    ensures var loop := Repeat(dest, count, Some(slot), [LoadLocal(i, slot), ListSet(x, l, i, i)]);
            CheckSeq(LoopOf(loop), loop.body, {}).Some? && Unchecked(loop, (l, i)) && Accesses(loop.body, (l, i))
  {
    PlainLoop(dest, count, slot, i, x, l, ListGet(x, l, i));
    PlainLoop(dest, count, slot, i, x, l, ListSet(x, l, i, i));
  }

  lemma PlainLoop(dest: ValueId, count: ValueId, slot: SlotId, i: ValueId, x: ValueId, l: ValueId, access: Inst)
    requires l != i && l != x && i != x && access in {ListGet(x, l, i), ListSet(x, l, i, i)}
    ensures var loop := Repeat(dest, count, Some(slot), [LoadLocal(i, slot), access]);
            CheckSeq(LoopOf(loop), loop.body, {}).Some? && Unchecked(loop, (l, i)) && Accesses(loop.body, (l, i))
  {
    var loop := Repeat(dest, count, Some(slot), [LoadLocal(i, slot), access]);
    var body := loop.body;
    assert body[1..] == [access] && body[1..][1..] == [];
    assert DefinedBy(body[0]) == {i} && DefinedBy(access) == {x};
    assert Defined(body[1..]) == DefinedBy(access) + {} == {x};
    assert Defined(body) == DefinedBy(body[0]) + Defined(body[1..]) == {i, x};
    assert IndexLoads(body[1..], slot) == IndexLoadsOf(access, slot) + {} == {};
    assert IndexLoads(body, slot) == IndexLoadsOf(body[0], slot) + IndexLoads(body[1..], slot) == {i};
    assert OccursIn(body[0], LoadLocal(i, slot), false) && OccursIn(body[1], access, false);
    assert Occurs(body, access, false) && AccessOf(access, (l, i));
    DefinedIff(body, l);
    assert IsAccess(body[1]) && (body[1].list, body[1].at) == (l, i);
    var c := LoopOf(loop);
    assert c.loads == {i} && DestOk(c, body[0]) && DestOk(c, access);
    var d := {} + {i};
    assert CheckInst(c, body[0], {}) == Some(d);
    assert CheckInst(c, access, d).Some?;
    assert CheckSeq(c, body[1..], d) == CheckSeq(c, [], CheckInst(c, access, d).value);
  }

  lemma {:induction false} WildWhenTooShort(p: Program, args: seq<Value>, loop: Inst, n: int, i: nat, f: Frame,
                                            fuel: nat)
    requires loop.Repeat? && ProgramOk(p) && CheckSeq(LoopOf(loop), loop.body, {}).Some? && ReachesAll(loop)
    requires IsI64(n) && HasLists(loop, f) && BoundedRepeat(p, args, loop, n, i, f, fuel) && TooShort(loop, n, f)
    requires forall q :: q in TrustedIn(loop) ==> i <= |f.values[q.0].elems|
    requires ExecRepeat(p, args, loop, n, i, f, fuel).Done?
    ensures NativeRepeat(p, args, loop, n - i, i, f, fuel) == Failed(WildAccess)
    decreases fuel
  {
    if q :| q in TrustedIn(loop) && |f.values[q.0].elems| == i {
      WildHere(p, args, loop, n, i, q, f, fuel);
    } else {
      var h := GoesOn(p, args, loop, n, i, f, fuel);
      WildWhenTooShort(p, args, loop, n, i + 1, h, fuel - 1);
    }
  }

  /** The iteration at which a trusted list ends. */
  lemma WildHere(p: Program, args: seq<Value>, loop: Inst, n: int, i: nat, q: (ValueId, ValueId), f: Frame, fuel: nat)
    requires loop.Repeat? && ProgramOk(p) && CheckSeq(LoopOf(loop), loop.body, {}).Some?
    requires HasLists(loop, f) && BoundedRepeat(p, args, loop, n, i, f, fuel) && i < n
    requires q in TrustedIn(loop) && Accesses(loop.body, q) && |f.values[q.0].elems| == i
    requires ExecRepeat(p, args, loop, n, i, f, fuel).Done?
    ensures NativeRepeat(p, args, loop, n - i, i, f, fuel) == Failed(WildAccess)
  {
    var g, _ := ExecRepeatStep(p, args, loop, n, i, f, fuel);
    WildRound(p, args, loop, i, q, f, g, fuel);
    NativeRepeatWild(p, args, loop, n - i, i, f, g, fuel);
  }

  /** An iteration before any trusted list ends. */
  lemma GoesOn(p: Program, args: seq<Value>, loop: Inst, n: int, i: nat, f: Frame, fuel: nat) returns (h: Frame)
    requires loop.Repeat? && ProgramOk(p) && CheckSeq(LoopOf(loop), loop.body, {}).Some? && IsI64(n)
    requires HasLists(loop, f) && BoundedRepeat(p, args, loop, n, i, f, fuel) && i < n
    requires forall q :: q in TrustedIn(loop) ==> i < |f.values[q.0].elems|
    requires ExecRepeat(p, args, loop, n, i, f, fuel).Done?
    ensures fuel > 0 && ExecRepeat(p, args, loop, n, i + 1, h, fuel - 1).Done? && HasLists(loop, h)
    ensures BoundedRepeat(p, args, loop, n, i + 1, h, fuel - 1)
    ensures forall q :: q in TrustedIn(loop) ==> h.values[q.0] == f.values[q.0]
    ensures TooShort(loop, n, h) <==> TooShort(loop, n, f)
    ensures NativeRepeat(p, args, loop, n - i, i, f, fuel)
         == NativeRepeat(p, args, loop, n - (i + 1), i + 1, h, fuel - 1)
  {
    var g;
    g, h := ExecRepeatStep(p, args, loop, n, i, f, fuel);
    SafeRound(p, args, loop, i, f, g, fuel);
    NativeRepeatStep(p, args, loop, n - i, i, f, g, h, fuel);
    assert n - i - 1 == n - (i + 1);
  }

  lemma NotTooShort(loop: Inst, n: int, f: Frame)
    requires loop.Repeat? && IsI64(n) && HasLists(loop, f) && !TooShort(loop, n, f)
    ensures EntryOk(loop, n, f)
  {
  }

  /** An iteration of a loop that the interpreter runs to its end. */
  lemma ExecRepeatStep(p: Program, args: seq<Value>, loop: Inst, n: int, i: nat, f: Frame, fuel: nat)
    returns (g: Frame, h: Frame)
    requires loop.Repeat? && i < n && BoundedRepeat(p, args, loop, n, i, f, fuel)
    requires ExecRepeat(p, args, loop, n, i, f, fuel).Done?
    ensures SetIndex(f, loop.indexSlot, i) == Done(g) && ExecSeq(p, args, loop.body, g, fuel) == Done(h) && fuel > 0
    ensures BoundedSeq(p, args, loop.body, g, fuel) && BoundedRepeat(p, args, loop, n, i + 1, h, fuel - 1)
    ensures ExecRepeat(p, args, loop, n, i, f, fuel) == ExecRepeat(p, args, loop, n, i + 1, h, fuel - 1)
  {
    g := SetIndex(f, loop.indexSlot, i).value;
    h := ExecSeq(p, args, loop.body, g, fuel).value;
  }

  lemma NativeRepeatWild(p: Program, args: seq<Value>, loop: Inst, remaining: int, index: nat, f: Frame, g: Frame,
                         fuel: nat)
    requires loop.Repeat? && 0 < remaining && SetIndex(f, loop.indexSlot, index) == Done(g)
    requires NativeSeq(p, args, TrustedIn(loop), loop.body, g, fuel) == Failed(WildAccess)
    ensures NativeRepeat(p, args, loop, remaining, index, f, fuel) == Failed(WildAccess)
  {
  }

  lemma NativeRepeatStep(p: Program, args: seq<Value>, loop: Inst, remaining: int, index: nat,
                         f: Frame, g: Frame, h: Frame, fuel: nat)
    requires loop.Repeat? && 0 < remaining && IsI64(remaining) && IsI64(index + 1) && fuel > 0
    requires SetIndex(f, loop.indexSlot, index) == Done(g)
    requires NativeSeq(p, args, TrustedIn(loop), loop.body, g, fuel) == Done(h)
    ensures NativeRepeat(p, args, loop, remaining, index, f, fuel)
         == NativeRepeat(p, args, loop, remaining - 1, index + 1, h, fuel - 1)
  {
    var next, later := Wrap64(remaining - 1), Wrap64(index + 1);
    assert next == remaining - 1 && later == index + 1;
  }

  lemma WildRound(p: Program, args: seq<Value>, loop: Inst, i: nat, q: (ValueId, ValueId), f: Frame, g: Frame,
                  fuel: nat)
    requires loop.Repeat? && ProgramOk(p) && CheckSeq(LoopOf(loop), loop.body, {}).Some? && HasLists(loop, f)
    requires SetIndex(f, loop.indexSlot, i) == Done(g) && BoundedSeq(p, args, loop.body, g, fuel)
    requires q in TrustedIn(loop) && Accesses(loop.body, q) && |f.values[q.0].elems| == i
    requires ExecSeq(p, args, loop.body, g, fuel).Done?
    ensures NativeSeq(p, args, TrustedIn(loop), loop.body, g, fuel) == Failed(WildAccess)
  {
    var c := LoopOf(loop);
    RoundAgrees(p, args, loop, i, f, g, fuel);
    assert q.0 in c.lists;
    WildBody(p, args, c, Iter(i, ListsOf(loop, f)), {}, loop.body, q, g, fuel);
  }

  lemma SafeRound(p: Program, args: seq<Value>, loop: Inst, i: nat, f: Frame, g: Frame, fuel: nat)
    requires loop.Repeat? && ProgramOk(p) && CheckSeq(LoopOf(loop), loop.body, {}).Some? && HasLists(loop, f)
    requires SetIndex(f, loop.indexSlot, i) == Done(g) && BoundedSeq(p, args, loop.body, g, fuel)
    requires forall q :: q in TrustedIn(loop) ==> i < |f.values[q.0].elems|
    requires ExecSeq(p, args, loop.body, g, fuel).Done?
    ensures var h := ExecSeq(p, args, loop.body, g, fuel);
            && NativeSeq(p, args, TrustedIn(loop), loop.body, g, fuel) == h
            && HasLists(loop, h.value) && (forall q :: q in TrustedIn(loop) ==> h.value.values[q.0] == f.values[q.0])
            && forall n :: TooShort(loop, n, h.value) <==> TooShort(loop, n, f)
  {
    RoundAgrees(p, args, loop, i, f, g, fuel);
    assert InBounds(LoopOf(loop), Iter(i, ListsOf(loop, f)));
    ListsSame(loop, f, ExecSeq(p, args, loop.body, g, fuel).value);
  }

  lemma ListsSame(loop: Inst, f: Frame, h: Frame)
    requires loop.Repeat? && HasLists(loop, f) && HasLists(loop, h) && ListsOf(loop, h) == ListsOf(loop, f)
    ensures forall q :: q in TrustedIn(loop) ==> h.values[q.0] == f.values[q.0]
    ensures forall n :: TooShort(loop, n, h) <==> TooShort(loop, n, f)
  {
    forall q | q in TrustedIn(loop) ensures h.values[q.0] == f.values[q.0] {
      assert q.0 in LoopOf(loop).lists;
      assert ListsOf(loop, h)[q.0] == h.values[q.0] && ListsOf(loop, f)[q.0] == f.values[q.0];
    }
  }
}
