/** Soundness of the escape analysis against the interpreter, with provenance read off the
    arena stamps: everything created in an activation or in its callees is stamped at or after
    the clock reading on entry. */
module EscapeSoundness {
  import opened Mir
  import opened Escape

  // ---- Provenance -------------------------------------------------------------------------

  /** A set of stamps. */
  type Stamps = nat -> bool

  ghost predicate OriginIn(o: Origin, s: Stamps) {
    o.Arena? ==> s(o.stamp)
  }

  /** Every arena object that `v` reaches carries a stamp in `s`. */
  ghost predicate Within(v: Value, s: Stamps)
    decreases v
  {
    match v
    case Text(_, o) => OriginIn(o, s)
    case List(elems, o) => OriginIn(o, s) && forall i :: 0 <= i < |elems| ==> Within(elems[i], s)
    case Record(fields) => forall i :: 0 <= i < |fields| ==> Within(fields[i], s)
    case Enum(_, payload) => payload.Some? ==> Within(payload.value, s)
    case _ => true
  }

  function Before(t: nat): Stamps {
    x => x < t
  }

  lemma {:induction v} WithinBoth(v: Value, a: Stamps, b: Stamps, c: Stamps)
    requires Within(v, a) && Within(v, b) && forall x :: a(x) && b(x) ==> c(x)
    ensures Within(v, c)
  {
  }

  ghost predicate AllWithin(xs: seq<Value>, s: Stamps) {
    forall i :: 0 <= i < |xs| ==> Within(xs[i], s)
  }

  lemma AllWithinWidens(xs: seq<Value>, a: Stamps, b: Stamps)
    requires AllWithin(xs, a) && forall x :: a(x) ==> b(x)
    ensures AllWithin(xs, b)
  {
    forall i | 0 <= i < |xs| ensures Within(xs[i], b) { WithinBoth(xs[i], a, a, b); }
  }

  // ---- Values come only from the inputs and from new creations -----------------------------

  /** `s` has all stamps that creations between the clock readings can get. */
  ghost predicate Covers(s: Stamps, from: nat, to: nat) {
    forall x: nat :: from <= x < to ==> s(x)
  }

  ghost predicate FrameWithin(f: Frame, s: Stamps) {
    AllWithin(f.values, s) && AllWithin(f.slots, s)
  }

  ghost predicate Confined(r: Outcome<Frame>, from: nat, s: Stamps, to: nat) {
    r.Done? ==> from <= r.value.clock && (r.value.clock <= to ==> FrameWithin(r.value, s))
  }

  lemma PutWithin(f: Frame, v: ValueId, x: Value, s: Stamps)
    requires FrameWithin(f, s) && Within(x, s)
    ensures Put(f, v, x).Done? ==> FrameWithin(Put(f, v, x).value, s)
  {
  }

  lemma SetIndexWithin(f: Frame, slot: Option<SlotId>, i: int, s: Stamps)
    requires FrameWithin(f, s)
    ensures SetIndex(f, slot, i).Done? ==> FrameWithin(SetIndex(f, slot, i).value, s)
  {
  }

  lemma ComputeWithin(p: Program, args: seq<Value>, inst: Inst, f: Frame, s: Stamps)
    requires IsPlain(inst) && FrameWithin(f, s) && AllWithin(args, s) && (Creates(inst) ==> s(f.clock))
    ensures var r := Compute(p, args, inst, f); r.Done? ==> Within(r.value, s)
  {
  }

  lemma SimpleConfined(p: Program, args: seq<Value>, inst: Inst, f: Frame, s: Stamps, to: nat)
    requires !inst.Call? && !inst.If? && !inst.While? && !inst.Repeat?
    requires FrameWithin(f, s) && AllWithin(args, s) && Covers(s, f.clock, to)
    ensures Confined(ExecSimple(p, args, inst, f), f.clock, s, to)
  {
    if IsPlain(inst) && (Creates(inst) ==> s(f.clock)) {
      ComputeWithin(p, args, inst, f, s);
    }
  }

  lemma {:induction false} SeqConfined(p: Program, args: seq<Value>, insts: seq<Inst>, f: Frame, fuel: nat, s: Stamps,
                                       to: nat)
    requires FrameWithin(f, s) && AllWithin(args, s) && Covers(s, f.clock, to)
    ensures Confined(ExecSeq(p, args, insts, f, fuel), f.clock, s, to)
    decreases fuel, insts, 0
  {
    if insts != [] {
      InstConfined(p, args, insts[0], f, fuel, s, to);
      var g := ExecInst(p, args, insts[0], f, fuel);
      if g.Done? {
        SeqClock(p, args, insts[1..], g.value, fuel);
        if g.value.clock <= to {
          SeqConfined(p, args, insts[1..], g.value, fuel, s, to);
        }
      }
    }
  }

  /** The clock never goes back. */
  lemma {:induction false} SeqClock(p: Program, args: seq<Value>, insts: seq<Inst>, f: Frame, fuel: nat)
    ensures var r := ExecSeq(p, args, insts, f, fuel); r.Done? ==> f.clock <= r.value.clock
    decreases fuel, insts, 0, 0
  {
    if insts != [] {
      InstClock(p, args, insts[0], f, fuel);
      var g := ExecInst(p, args, insts[0], f, fuel);
      if g.Done? { SeqClock(p, args, insts[1..], g.value, fuel); }
    }
  }

  lemma {:induction false} InstClock(p: Program, args: seq<Value>, inst: Inst, f: Frame, fuel: nat)
    ensures var r := ExecInst(p, args, inst, f, fuel); r.Done? ==> f.clock <= r.value.clock
    decreases fuel, inst, 1
  {
    if inst.Call? {
      var fn := Lookup(p.functions, inst.callee);
      var xs := GetAll(f, inst.args);
      if fn.Some? && xs.Done? && fuel > 0 {
        SeqClock(p, xs.value, fn.value.body, Entry(fn.value, f.clock), fuel - 1);
      }
    } else if inst.If? {
      SeqClock(p, args, inst.thenInsts, f, fuel);
      SeqClock(p, args, inst.elseInsts, f, fuel);
    } else if inst.While? {
      WhileClock(p, args, inst, f, fuel);
    } else if inst.Repeat? {
      var n := GetInt(f, inst.count);
      if n.Done? { RepeatClock(p, args, inst, n.value, 0, f, fuel); }
    }
  }

  lemma {:induction false} WhileClock(p: Program, args: seq<Value>, loop: Inst, f: Frame, fuel: nat)
    requires loop.While?
    ensures var r := ExecWhile(p, args, loop, f, fuel); r.Done? ==> f.clock <= r.value.clock
    decreases fuel, loop, 0
  {
    SeqClock(p, args, loop.condInsts, f, fuel);
    var g := ExecSeq(p, args, loop.condInsts, f, fuel);
    if g.Done? {
      SeqClock(p, args, loop.body, g.value, fuel);
      var h := ExecSeq(p, args, loop.body, g.value, fuel);
      if h.Done? && fuel > 0 { WhileClock(p, args, loop, h.value, fuel - 1); }
    }
  }

  lemma {:induction false} RepeatClock(p: Program, args: seq<Value>, loop: Inst, n: int, i: nat, f: Frame, fuel: nat)
    requires loop.Repeat?
    ensures var r := ExecRepeat(p, args, loop, n, i, f, fuel); r.Done? ==> f.clock <= r.value.clock
    decreases fuel, loop, 0
  {
    var g := SetIndex(f, loop.indexSlot, i);
    if i < n && g.Done? {
      SeqClock(p, args, loop.body, g.value, fuel);
      var h := ExecSeq(p, args, loop.body, g.value, fuel);
      if h.Done? && fuel > 0 { RepeatClock(p, args, loop, n, i + 1, h.value, fuel - 1); }
    }
  }

  lemma {:induction false} InstConfined(p: Program, args: seq<Value>, inst: Inst, f: Frame, fuel: nat, s: Stamps,
                                        to: nat)
    requires FrameWithin(f, s) && AllWithin(args, s) && Covers(s, f.clock, to)
    ensures Confined(ExecInst(p, args, inst, f, fuel), f.clock, s, to)
    decreases fuel, inst, 1
  {
    InstClock(p, args, inst, f, fuel);
    if inst.Call? {
      var fn := Lookup(p.functions, inst.callee);
      var xs := GetAll(f, inst.args);
      if fn.Some? && xs.Done? && fuel > 0 {
        RunConfined(p, fn.value, xs.value, f.clock, fuel - 1, s, to);
        var r := RunFunction(p, fn.value, xs.value, f.clock, fuel - 1);
        if r.Done? && r.value.1 <= to { PutWithin(f, inst.dest, r.value.0, s); }
      }
    } else if inst.If? {
      BranchConfined(p, args, inst, true, f, fuel, s, to);
      BranchConfined(p, args, inst, false, f, fuel, s, to);
    } else if inst.While? {
      WhileConfined(p, args, inst, f, fuel, s, to);
    } else if inst.Repeat? {
      var n := GetInt(f, inst.count);
      if n.Done? { RepeatConfined(p, args, inst, n.value, 0, f, fuel, s, to); }
    } else {
      SimpleConfined(p, args, inst, f, s, to);
    }
  }

  function BranchInsts(inst: Inst, b: bool): seq<Inst>
    requires inst.If?
  {
    if b then inst.thenInsts else inst.elseInsts
  }

  function BranchResult(inst: Inst, b: bool): Option<ValueId>
    requires inst.If?
  {
    if b then inst.thenResult else inst.elseResult
  }

  lemma {:induction false} BranchConfined(p: Program, args: seq<Value>, inst: Inst, b: bool, f: Frame, fuel: nat,
                                          s: Stamps, to: nat)
    requires inst.If? && FrameWithin(f, s) && AllWithin(args, s) && Covers(s, f.clock, to)
    ensures
      var g := ExecSeq(p, args, BranchInsts(inst, b), f, fuel);
      g.Done? ==> Confined(Put(g.value, inst.dest, ResultOf(g.value, BranchResult(inst, b))), f.clock, s, to)
    decreases fuel, inst, 0
  {
    SeqConfined(p, args, BranchInsts(inst, b), f, fuel, s, to);
    var g := ExecSeq(p, args, BranchInsts(inst, b), f, fuel);
    if g.Done? && g.value.clock <= to {
      PutWithin(g.value, inst.dest, ResultOf(g.value, BranchResult(inst, b)), s);
    }
  }

  lemma {:induction false} WhileConfined(p: Program, args: seq<Value>, loop: Inst, f: Frame, fuel: nat, s: Stamps,
                                         to: nat)
    requires loop.While? && FrameWithin(f, s) && AllWithin(args, s) && Covers(s, f.clock, to)
    ensures Confined(ExecWhile(p, args, loop, f, fuel), f.clock, s, to)
    decreases fuel, loop, 0
  {
    WhileClock(p, args, loop, f, fuel);
    SeqConfined(p, args, loop.condInsts, f, fuel, s, to);
    var g := ExecSeq(p, args, loop.condInsts, f, fuel);
    if g.Done? && g.value.clock <= to {
      PutWithin(g.value, loop.dest, Unit, s);
      SeqConfined(p, args, loop.body, g.value, fuel, s, to);
      var h := ExecSeq(p, args, loop.body, g.value, fuel);
      if h.Done? && fuel > 0 {
        WhileClock(p, args, loop, h.value, fuel - 1);
        if h.value.clock <= to { WhileConfined(p, args, loop, h.value, fuel - 1, s, to); }
      }
    } else if g.Done? {
      SeqClock(p, args, loop.body, g.value, fuel);
      var h := ExecSeq(p, args, loop.body, g.value, fuel);
      if h.Done? && fuel > 0 { WhileClock(p, args, loop, h.value, fuel - 1); }
    }
  }

  lemma {:induction false} RepeatConfined(p: Program, args: seq<Value>, loop: Inst, n: int, i: nat, f: Frame,
                                          fuel: nat, s: Stamps, to: nat)
    requires loop.Repeat? && FrameWithin(f, s) && AllWithin(args, s) && Covers(s, f.clock, to)
    ensures Confined(ExecRepeat(p, args, loop, n, i, f, fuel), f.clock, s, to)
    decreases fuel, loop, 0
  {
    RepeatClock(p, args, loop, n, i, f, fuel);
    if i >= n {
      PutWithin(f, loop.dest, Unit, s);
    } else {
      SetIndexWithin(f, loop.indexSlot, i, s);
      var g := SetIndex(f, loop.indexSlot, i);
      if g.Done? {
        SeqConfined(p, args, loop.body, g.value, fuel, s, to);
        var h := ExecSeq(p, args, loop.body, g.value, fuel);
        if h.Done? && fuel > 0 {
          RepeatClock(p, args, loop, n, i + 1, h.value, fuel - 1);
          if h.value.clock <= to { RepeatConfined(p, args, loop, n, i + 1, h.value, fuel - 1, s, to); }
        }
      }
    }
  }

  /** A returned value reaches only what the arguments reach and what the run created. */
  lemma {:induction false} RunConfined(p: Program, fn: Function, args: seq<Value>, clock: nat, fuel: nat, s: Stamps,
                                       to: nat)
    requires AllWithin(args, s) && Covers(s, clock, to)
    ensures var r := RunFunction(p, fn, args, clock, fuel);
            r.Done? ==> clock <= r.value.1 && (r.value.1 <= to ==> Within(r.value.0, s))
    decreases fuel, fn
  {
    SeqConfined(p, args, fn.body, Entry(fn, clock), fuel, s, to);
  }

  // ---- Nothing in a frame is stamped later than the clock ----------------------------------

  /** Frame and arguments hold only objects that already exist. */
  ghost predicate Settled(f: Frame, args: seq<Value>) {
    FrameWithin(f, Before(f.clock)) && AllWithin(args, Before(f.clock))
  }

  lemma SettledLater(f: Frame, args: seq<Value>, t: nat)
    requires Settled(f, args) && f.clock <= t
    ensures FrameWithin(f, Before(t)) && AllWithin(args, Before(t))
  {
    AllWithinWidens(f.values, Before(f.clock), Before(t));
    AllWithinWidens(f.slots, Before(f.clock), Before(t));
    AllWithinWidens(args, Before(f.clock), Before(t));
  }

  lemma InstSettled(p: Program, args: seq<Value>, inst: Inst, f: Frame, fuel: nat)
    requires Settled(f, args)
    ensures var r := ExecInst(p, args, inst, f, fuel); r.Done? ==> f.clock <= r.value.clock && Settled(r.value, args)
  {
    var r := ExecInst(p, args, inst, f, fuel);
    if r.Done? {
      InstClock(p, args, inst, f, fuel);
      SettledLater(f, args, r.value.clock);
      InstConfined(p, args, inst, f, fuel, Before(r.value.clock), r.value.clock);
    }
  }

  lemma SeqSettled(p: Program, args: seq<Value>, insts: seq<Inst>, f: Frame, fuel: nat)
    requires Settled(f, args)
    ensures var r := ExecSeq(p, args, insts, f, fuel); r.Done? ==> f.clock <= r.value.clock && Settled(r.value, args)
  {
    var r := ExecSeq(p, args, insts, f, fuel);
    if r.Done? {
      SeqClock(p, args, insts, f, fuel);
      SettledLater(f, args, r.value.clock);
      SeqConfined(p, args, insts, f, fuel, Before(r.value.clock), r.value.clock);
    }
  }

  // ---- Soundness ---------------------------------------------------------------------------

  /** Register and slot numbers fit the declared counts. */
  predicate IdsFit(insts: seq<Inst>, valueCount: nat, slotCount: nat)
    decreases insts
  {
    forall i :: 0 <= i < |insts| ==> IdFits(insts[i], valueCount, slotCount)
  }

  predicate IdFits(inst: Inst, valueCount: nat, slotCount: nat)
    decreases inst
  {
    && (!inst.StoreLocal? && !inst.Assert? ==> inst.dest < valueCount)
    && (inst.StoreLocal? ==> inst.slot < slotCount)
    && (inst.If? ==> IdsFit(inst.thenInsts, valueCount, slotCount) && IdsFit(inst.elseInsts, valueCount, slotCount))
    && (inst.While? ==> IdsFit(inst.condInsts, valueCount, slotCount) && IdsFit(inst.body, valueCount, slotCount))
    && (inst.Repeat? ==> IdsFit(inst.body, valueCount, slotCount))
  }

  predicate WellFormed(p: Program) {
    DistinctNames(p.functions) && forall f :: f in p.functions ==> IdsFit(f.body, f.valueCount, f.slotCount)
  }

  /** Unmarked registers and slots reach nothing created since `start`. */
  ghost predicate Sound(f: Frame, m: Marks, start: nat) {
    && start <= f.clock
    && (forall v :: 0 <= v < |f.values| && v !in m.values ==> Within(f.values[v], Before(start)))
    && (forall s :: 0 <= s < |f.slots| && s !in m.slots ==> Within(f.slots[s], Before(start)))
  }

  ghost predicate SoundAfter(r: Outcome<Frame>, m: Marks, start: nat) {
    r.Done? ==> Sound(r.value, m, start)
  }

  /** Every terminating run of `fn` returns a value free of arena data created in the run. */
  ghost predicate ReturnsClean(p: Program, fn: Function) {
    forall args, clock, fuel :: ReturnsCleanOn(p, fn, args, clock, fuel)
  }

  ghost predicate ReturnsCleanOn(p: Program, fn: Function, args: seq<Value>, clock: nat, fuel: nat) {
    var r := RunFunction(p, fn, args, clock, fuel);
    AllWithin(args, Before(clock)) && r.Done? ==> Within(r.value.0, Before(clock))
  }

  /** The functions whose result the analysis does not look at return no arena data of their own,
      or the marks it would compute for them say so. */
  ghost predicate UninspectedClean(p: Program) {
    forall fn :: fn in p.functions && !Inspected(fn) ==> !MayEscape(fn, EscapingFunctions(p)) || ReturnsClean(p, fn)
  }

  /** A premise that can be read off the program: functions whose result gets marked carry the
      `alloc` effect and a return type that the analysis recognises. */
  predicate Declared(p: Program) {
    forall fn :: fn in p.functions && MayEscape(fn, EscapingFunctions(p)) ==> Inspected(fn)
  }

  /** What the induction works with: one function body under the program's fixed point. */
  ghost predicate Analysed(p: Program, c: Context) {
    WellFormed(p) && UninspectedClean(p) && c.escaping == EscapingFunctions(p)
  }

  lemma PutSound(f: Frame, m: Marks, c: Context, start: nat, dest: ValueId, x: Value, marked: bool)
    requires Sound(f, m, start) && dest < c.valueCount && (marked || Within(x, Before(start)))
    ensures SoundAfter(Put(f, dest, x), MarkIf(c, m, marked, dest), start)
  {
  }

  lemma ComputeSound(p: Program, args: seq<Value>, inst: Inst, f: Frame, c: Context, m: Marks, start: nat)
    requires IsPlain(inst) && Sound(f, m, start) && AllWithin(args, Before(start)) && !CreatesOrCarries(c, inst, m)
    ensures var r := Compute(p, args, inst, f); r.Done? ==> Within(r.value, Before(start))
  {
  }

  lemma SimpleSound(p: Program, args: seq<Value>, inst: Inst, f: Frame, c: Context, m: Marks, start: nat)
    requires !inst.Call? && !inst.If? && !inst.While? && !inst.Repeat?
    requires IdFits(inst, c.valueCount, c.slotCount)
    requires Sound(f, m, start) && AllWithin(args, Before(start))
    ensures SoundAfter(ExecSimple(p, args, inst, f), TransferInst(c, inst, m), start)
  {
    if IsPlain(inst) {
      var marked := CreatesOrCarries(c, inst, m);
      if !marked { ComputeSound(p, args, inst, f, c, m, start); }
      var x := Compute(p, args, inst, f);
      if x.Done? { PutSound(f, m, c, start, inst.dest, x.value, marked); }
    }
  }

  lemma {:induction false} SeqSound(p: Program, args: seq<Value>, insts: seq<Inst>, f: Frame, fuel: nat, c: Context,
                                    m: Marks, start: nat)
    requires Analysed(p, c) && IdsFit(insts, c.valueCount, c.slotCount)
    requires Settled(f, args) && Sound(f, m, start) && AllWithin(args, Before(start))
    ensures SoundAfter(ExecSeq(p, args, insts, f, fuel), TransferSeq(c, insts, m), start)
    decreases fuel, insts, 0
  {
    if insts != [] {
      InstSound(p, args, insts[0], f, fuel, c, m, start);
      var g := ExecInst(p, args, insts[0], f, fuel);
      if g.Done? {
        InstSettled(p, args, insts[0], f, fuel);
        SeqSound(p, args, insts[1..], g.value, fuel, c, TransferInst(c, insts[0], m), start);
      }
    }
  }

  lemma {:induction false} InstSound(p: Program, args: seq<Value>, inst: Inst, f: Frame, fuel: nat, c: Context,
                                     m: Marks, start: nat)
    requires Analysed(p, c) && IdFits(inst, c.valueCount, c.slotCount)
    requires Settled(f, args) && Sound(f, m, start) && AllWithin(args, Before(start))
    ensures SoundAfter(ExecInst(p, args, inst, f, fuel), TransferInst(c, inst, m), start)
    decreases fuel, inst, 1
  {
    if inst.Call? {
      CallSound(p, args, inst, f, fuel, c, m, start);
    } else if inst.If? {
      IfSound(p, args, inst, f, fuel, c, m, start);
    } else if inst.While? {
      WhileSound(p, args, inst, f, fuel, c, TransferLoop(c, inst, m), start);
    } else if inst.Repeat? {
      var n := GetInt(f, inst.count);
      if n.Done? {
        RepeatSound(p, args, inst, n.value, 0, f, fuel, c, TransferLoop(c, inst, m), start);
      }
    } else {
      SimpleSound(p, args, inst, f, c, m, start);
    }
  }

  lemma ArgumentsClean(f: Frame, m: Marks, start: nat, vs: seq<ValueId>)
    requires Sound(f, m, start) && !AnyMarked(m, vs)
    ensures GetAll(f, vs).Done? ==> AllWithin(GetAll(f, vs).value, Before(start))
  {
    if GetAll(f, vs).Done? {
      forall i | 0 <= i < |vs| ensures Within(GetAll(f, vs).value[i], Before(start)) {
        assert vs[i] in vs;
      }
    }
  }

  /** A callee that is not marked as escaping, called with data older than `start`, returns
      data older than `start`. */
  lemma {:induction false} CalleeSound(p: Program, fn: Function, xs: seq<Value>, clock: nat, fuel: nat, start: nat)
    requires WellFormed(p) && UninspectedClean(p) && fn in p.functions && fn.name !in EscapingFunctions(p)
    requires AllWithin(xs, Before(start)) && start <= clock
    ensures var r := RunFunction(p, fn, xs, clock, fuel); r.Done? ==> Within(r.value.0, Before(start))
    decreases fuel, fn, 1
  {
    var r := RunFunction(p, fn, xs, clock, fuel);
    if r.Done? {
      var outside: Stamps := t => t < start || clock <= t;
      AllWithinWidens(xs, Before(start), outside);
      AllWithinWidens(xs, Before(start), Before(clock));
      RunConfined(p, fn, xs, clock, fuel, outside, r.value.1);
      DiagnosedIffEscaping(p, fn);
      RunSound(p, fn, xs, clock, fuel);
      WithinBoth(r.value.0, outside, Before(clock), Before(start));
    }
  }

  lemma {:induction false} CallSound(p: Program, args: seq<Value>, inst: Inst, f: Frame, fuel: nat, c: Context,
                                     m: Marks, start: nat)
    requires inst.Call? && Analysed(p, c) && IdFits(inst, c.valueCount, c.slotCount)
    requires Settled(f, args) && Sound(f, m, start) && AllWithin(args, Before(start))
    ensures SoundAfter(ExecInst(p, args, inst, f, fuel), TransferInst(c, inst, m), start)
    decreases fuel, inst, 0
  {
    var r := ExecInst(p, args, inst, f, fuel);
    if r.Done? {
      var fn := Lookup(p.functions, inst.callee).value;
      var xs := GetAll(f, inst.args).value;
      var (x, clock) := RunFunction(p, fn, xs, f.clock, fuel - 1).value;
      var marked := CreatesOrCarries(c, inst, m);
      if !marked {
        ArgumentsClean(f, m, start, inst.args);
        CalleeSound(p, fn, xs, f.clock, fuel - 1, start);
      }
      PutSound(f, m, c, start, inst.dest, x, marked);
      InstClock(p, args, inst, f, fuel);
      assert r.value == Put(f, inst.dest, x).value.(clock := clock);
    }
  }

  lemma {:induction false} IfSound(p: Program, args: seq<Value>, inst: Inst, f: Frame, fuel: nat, c: Context, m: Marks,
                                   start: nat)
    requires inst.If? && Analysed(p, c) && IdFits(inst, c.valueCount, c.slotCount)
    requires Settled(f, args) && Sound(f, m, start) && AllWithin(args, Before(start))
    ensures SoundAfter(ExecInst(p, args, inst, f, fuel), TransferInst(c, inst, m), start)
    decreases fuel, inst, 0
  {
    var b := GetBool(f, inst.condition);
    if b.Done? {
      var a := TransferSeq(c, inst.thenInsts, m);
      var e := Marks(a.values, m.slots);
      var j := TransferBranches(c, inst, m);
      var g := ExecSeq(p, args, BranchInsts(inst, b.value), f, fuel);
      SeqSound(p, args, BranchInsts(inst, b.value), f, fuel, c, if b.value then m else e, start);
      if g.Done? {
        var r := BranchResult(inst, b.value);
        assert Sound(g.value, j, start);
        PutSound(g.value, j, c, start, inst.dest, ResultOf(g.value, r),
                 MarkedResult(j, inst.thenResult) || MarkedResult(j, inst.elseResult));
      }
    }
  }

  lemma {:induction false} WhileSound(p: Program, args: seq<Value>, loop: Inst, f: Frame, fuel: nat, c: Context,
                                      m: Marks, start: nat)
    requires loop.While? && Analysed(p, c) && IdFits(loop, c.valueCount, c.slotCount)
    requires TransferPass(c, loop, m) == m
    requires Settled(f, args) && Sound(f, m, start) && AllWithin(args, Before(start))
    ensures SoundAfter(ExecWhile(p, args, loop, f, fuel), MarkIf(c, m, true, loop.dest), start)
    decreases fuel, loop, 0
  {
    SeqSound(p, args, loop.condInsts, f, fuel, c, m, start);
    SeqSettled(p, args, loop.condInsts, f, fuel);
    assert TransferSeq(c, loop.condInsts, m) == m;
    var g := ExecSeq(p, args, loop.condInsts, f, fuel);
    if g.Done? {
      PutSound(g.value, m, c, start, loop.dest, Unit, true);
      SeqSound(p, args, loop.body, g.value, fuel, c, m, start);
      SeqSettled(p, args, loop.body, g.value, fuel);
      var h := ExecSeq(p, args, loop.body, g.value, fuel);
      if h.Done? && fuel > 0 { WhileSound(p, args, loop, h.value, fuel - 1, c, m, start); }
    }
  }

  lemma {:induction false} RepeatSound(p: Program, args: seq<Value>, loop: Inst, n: int, i: nat, f: Frame, fuel: nat,
                                       c: Context, m: Marks, start: nat)
    requires loop.Repeat? && Analysed(p, c) && IdFits(loop, c.valueCount, c.slotCount)
    requires TransferPass(c, loop, m) == m
    requires Settled(f, args) && Sound(f, m, start) && AllWithin(args, Before(start))
    ensures SoundAfter(ExecRepeat(p, args, loop, n, i, f, fuel), MarkIf(c, m, true, loop.dest), start)
    decreases fuel, loop, 0
  {
    var g := SetIndex(f, loop.indexSlot, i);
    if i >= n {
      PutSound(f, m, c, start, loop.dest, Unit, true);
    } else if g.Done? {
      SetIndexWithin(f, loop.indexSlot, i, Before(f.clock));
      SeqSound(p, args, loop.body, g.value, fuel, c, m, start);
      SeqSettled(p, args, loop.body, g.value, fuel);
      var h := ExecSeq(p, args, loop.body, g.value, fuel);
      if h.Done? && fuel > 0 { RepeatSound(p, args, loop, n, i + 1, h.value, fuel - 1, c, m, start); }
    }
  }

  /** Soundness: a function without a diagnostic returns no arena data that it or its callees
      created, on any arguments and in any terminating run. */
  lemma {:induction false} RunSound(p: Program, fn: Function, args: seq<Value>, clock: nat, fuel: nat)
    requires WellFormed(p) && UninspectedClean(p) && fn in p.functions && !Diagnosed(p, fn)
    ensures ReturnsCleanOn(p, fn, args, clock, fuel)
    decreases fuel, fn, 0
  {
    if MayEscape(fn, EscapingFunctions(p)) {
      assert ReturnsClean(p, fn);
    } else if AllWithin(args, Before(clock)) {
      SeqSound(p, args, fn.body, Entry(fn, clock), fuel, ContextOf(fn, EscapingFunctions(p)), NoMarks, clock);
    }
  }

  /** The exact premise: no diagnostic means a clean result for every function of the program if
      and only if that holds for the functions that the analysis does not inspect. */
  lemma SoundExactlyWhenUninspectedClean(p: Program)
    requires WellFormed(p)
    ensures (forall fn :: fn in p.functions && !Diagnosed(p, fn) ==> ReturnsClean(p, fn)) <==> UninspectedClean(p)
  {
    if UninspectedClean(p) {
      forall fn | fn in p.functions && !Diagnosed(p, fn) ensures ReturnsClean(p, fn) {
        forall args, clock, fuel ensures ReturnsCleanOn(p, fn, args, clock, fuel) {
          RunSound(p, fn, args, clock, fuel);
        }
      }
    }
  }

  /** With every allocation declared, no diagnostic means a clean result. */
  lemma DeclaredSound(p: Program, fn: Function)
    requires WellFormed(p) && Declared(p) && fn in p.functions && !Diagnosed(p, fn)
    ensures ReturnsClean(p, fn)
  {
    forall args, clock, fuel ensures ReturnsCleanOn(p, fn, args, clock, fuel) {
      RunSound(p, fn, args, clock, fuel);
    }
  }

  // ---- Why the premises are needed ---------------------------------------------------------

  function TextMaker(effects: seq<string>, valueCount: nat): Function {
    Function("f", Some("Text"), effects, [ConstInt(0, 0), ArgText(0, 0)], Some(0), valueCount, 0)
  }

  lemma TextMakerLeaks(effects: seq<string>, valueCount: nat)
    requires valueCount <= 1
    ensures var fn := TextMaker(effects, valueCount); !ReturnsClean(Program([fn], []), fn)
  {
    var fn := TextMaker(effects, valueCount);
    var p := Program([fn], []);
    var f := Entry(fn, 0);
    assert f.values == [Unit];
    assert [Unit][0 := Int(0)] == [Int(0)];
    var g := f.(values := [Int(0)]);
    assert ExecInst(p, [], fn.body[0], f, 0) == Done(g);
    assert [Int(0)][0 := Text("", Arena(0))] == [Text("", Arena(0))];
    var h := Frame([Text("", Arena(0))], f.slots, 1);
    assert ExecInst(p, [], fn.body[1], g, 0) == Done(h);
    assert fn.body[1..] == [fn.body[1]] && fn.body[1..][1..] == [];
    assert ExecSeq(p, [], fn.body[1..], g, 0) == Done(h);
    assert ExecSeq(p, [], fn.body, f, 0) == Done(h);
    assert RunFunction(p, fn, [], 0, 0) == Done((Text("", Arena(0)), 1));
    assert !Within(Text("", Arena(0)), Before(0));
    assert !ReturnsCleanOn(p, fn, [], 0, 0);
  }

  /** Without the `alloc` effect a function can leak arena text undiagnosed. */
  lemma UndeclaredAllocationLeaks()
    ensures exists p: Program, fn :: WellFormed(p) && fn in p.functions && !Diagnosed(p, fn) && !ReturnsClean(p, fn)
  {
    var fn := TextMaker([], 1);
    var p := Program([fn], []);
    TextMakerLeaks([], 1);
    assert !Diagnosed(p, fn);
    assert WellFormed(p) && fn in p.functions;
  }

  /** A zero register count hides register 0 from the analysis, but the interpreter has it. */
  lemma ZeroCountLeaks()
    ensures exists p: Program, fn ::
              && DistinctNames(p.functions) && fn in p.functions && Inspected(fn)
              && !Diagnosed(p, fn) && !ReturnsClean(p, fn)
  {
    var fn := TextMaker(["alloc"], 0);
    var p := Program([fn], []);
    TextMakerLeaks(["alloc"], 0);
    assert CanHoldArena("Text");
    assert fn in p.functions && Inspected(fn);
    var c := ContextOf(fn, EscapingFunctions(p));
    assert Range(0) == {};
    assert TransferSeq(c, fn.body, NoMarks).values == {};
    assert !Diagnosed(p, fn);
  }
}
