/** Where the emitted WebAssembly and the interpreter part ways outside the well-formed
    fragment, and exactly when they do. */
module WasmLimits {
  import opened Mir
  import opened WasmLowering
  import opened WasmCorrectness
  import W = Wasm

  /** The two machines meet the same fate under the same budget, unless the interpreter stops at
      the one remainder that WebAssembly defines. */
  lemma SameFate(p: Program, sigs: Sigs, fn: Function, args: seq<Value>, clock: nat, fuel: nat)
    requires ProgramOk(p, sigs) && fn in p.functions && FunctionOk(sigs, fn)
    requires |args| == |sigs[fn.name].params|
    requires forall i :: 0 <= i < |args| ==> HasKind(args[i], sigs[fn.name].params[i])
    requires RunFunction(p, fn, args, clock, fuel) != Failed(RemainderOverflow)
    ensures var r := RunFunction(p, fn, args, clock, fuel);
            var w := W.RunSeq(EmitProgram(p, sigs), EmitFunction(sigs[fn.name], fn).body,
                              W.State(W.Params(Words(args)), []), fuel);
            (r.Done? <==> w.Normal?) && (r.Failed? <==> w == W.Trap) && (r.OutOfFuel? <==> w == W.Timeout)
  {
    FunctionAgrees(p, sigs, EmitProgram(p, sigs), fn, args, clock, fuel);
  }

  // ---- The remainder that only the interpreter fails on ----------------------------------------

  predicate RemFree(insts: seq<Inst>)
    decreases insts
  {
    forall i :: 0 <= i < |insts| ==> RemFreeInst(insts[i])
  }

  predicate RemFreeInst(inst: Inst)
    decreases inst
  {
    && (inst.Binary? ==> inst.op != Rem)
    && (inst.If? ==> RemFree(inst.thenInsts) && RemFree(inst.elseInsts))
    && (inst.While? ==> RemFree(inst.condInsts) && RemFree(inst.body))
    && (inst.Repeat? ==> RemFree(inst.body))
  }

  /** No function of the program takes a remainder. */
  predicate NoRem(p: Program) {
    forall fn :: fn in p.functions ==> RemFree(fn.body)
  }

  lemma SimpleNoOverflow(p: Program, args: seq<Value>, inst: Inst, f: Frame)
    requires !inst.Call? && !inst.If? && !inst.While? && !inst.Repeat? && RemFreeInst(inst)
    ensures ExecSimple(p, args, inst, f) != Failed(RemainderOverflow)
  {
    if inst.MakeRecord? { GetAllFault(f, inst.parts); }
  }

  lemma {:induction false} GetAllFault(f: Frame, vs: seq<ValueId>)
    ensures GetAll(f, vs) != Failed(RemainderOverflow)
  {
    if vs != [] { GetAllFault(f, vs[1..]); }
  }

  lemma {:induction false} SeqNoOverflow(p: Program, args: seq<Value>, insts: seq<Inst>, f: Frame, fuel: nat)
    requires NoRem(p) && RemFree(insts)
    ensures ExecSeq(p, args, insts, f, fuel) != Failed(RemainderOverflow)
    decreases fuel, insts, 0
  {
    if insts != [] {
      InstNoOverflow(p, args, insts[0], f, fuel);
      var g := ExecInst(p, args, insts[0], f, fuel);
      if g.Done? { SeqNoOverflow(p, args, insts[1..], g.value, fuel); }
    }
  }

  lemma {:induction false} InstNoOverflow(p: Program, args: seq<Value>, inst: Inst, f: Frame, fuel: nat)
    requires NoRem(p) && RemFreeInst(inst)
    ensures ExecInst(p, args, inst, f, fuel) != Failed(RemainderOverflow)
    decreases fuel, inst, 1
  {
    if inst.Call? {
      var fn, xs := Lookup(p.functions, inst.callee), GetAll(f, inst.args);
      GetAllFault(f, inst.args);
      if fn.Some? && xs.Done? && fuel > 0 {
        SeqNoOverflow(p, xs.value, fn.value.body, Entry(fn.value, f.clock), fuel - 1);
      }
    } else if inst.If? {
      SeqNoOverflow(p, args, inst.thenInsts, f, fuel);
      SeqNoOverflow(p, args, inst.elseInsts, f, fuel);
    } else if inst.While? {
      WhileNoOverflow(p, args, inst, f, fuel);
    } else if inst.Repeat? {
      var n := GetInt(f, inst.count);
      if n.Done? { RepeatNoOverflow(p, args, inst, n.value, 0, f, fuel); }
    } else {
      SimpleNoOverflow(p, args, inst, f);
    }
  }

  lemma {:induction false} WhileNoOverflow(p: Program, args: seq<Value>, loop: Inst, f: Frame, fuel: nat)
    requires loop.While? && NoRem(p) && RemFreeInst(loop)
    ensures ExecWhile(p, args, loop, f, fuel) != Failed(RemainderOverflow)
    decreases fuel, loop, 0
  {
    SeqNoOverflow(p, args, loop.condInsts, f, fuel);
    var g := ExecSeq(p, args, loop.condInsts, f, fuel);
    if g.Done? {
      SeqNoOverflow(p, args, loop.body, g.value, fuel);
      var h := ExecSeq(p, args, loop.body, g.value, fuel);
      if h.Done? && fuel > 0 { WhileNoOverflow(p, args, loop, h.value, fuel - 1); }
    }
  }

  lemma {:induction false} RepeatNoOverflow(p: Program, args: seq<Value>, loop: Inst, n: int, i: nat, f: Frame,
                                            fuel: nat)
    requires loop.Repeat? && NoRem(p) && RemFreeInst(loop)
    ensures ExecRepeat(p, args, loop, n, i, f, fuel) != Failed(RemainderOverflow)
    decreases fuel, loop, 0
  {
    var g := SetIndex(f, loop.indexSlot, i);
    if i < n && g.Done? {
      SeqNoOverflow(p, args, loop.body, g.value, fuel);
      var h := ExecSeq(p, args, loop.body, g.value, fuel);
      if h.Done? && fuel > 0 { RepeatNoOverflow(p, args, loop, n, i + 1, h.value, fuel - 1); }
    }
  }

  /** In programs without remainders the two machines always meet the same fate. */
  lemma SameFateWithoutRem(p: Program, sigs: Sigs, fn: Function, args: seq<Value>, clock: nat, fuel: nat)
    requires ProgramOk(p, sigs) && fn in p.functions && FunctionOk(sigs, fn) && NoRem(p)
    requires |args| == |sigs[fn.name].params|
    requires forall i :: 0 <= i < |args| ==> HasKind(args[i], sigs[fn.name].params[i])
    ensures var r := RunFunction(p, fn, args, clock, fuel);
            var code := EmitFunction(sigs[fn.name], fn).body;
            var w := W.RunSeq(EmitProgram(p, sigs), code, W.State(W.Params(Words(args)), []), fuel);
            (r.Done? <==> w.Normal?) && (r.Failed? <==> w == W.Trap) && (r.OutOfFuel? <==> w == W.Timeout)
  {
    SeqNoOverflow(p, args, fn.body, Entry(fn, clock), fuel);
    SameFate(p, sigs, fn, args, clock, fuel);
  }

  /** A remainder stops the interpreter for want of a quotient if and only if it is that of the
      least integer by -1, where the emitted code stores zero. */
  lemma RemainderDiffersIff(m: W.Module, p: Program, args: seq<Value>, dest: ValueId, left: ValueId, right: ValueId,
                            a: int, b: int, f: Frame, l: Locals, stack: seq<W.Operand>, fuel: nat)
    requires left < |f.values| && right < |f.values| && f.values[left] == Int(a) && f.values[right] == Int(b)
    requires IsI64(a) && IsI64(b) && W.Read(l, W.Reg(left)) == a && W.Read(l, W.Reg(right)) == b
    ensures ExecInst(p, args, Binary(dest, Rem, left, right), f, fuel) == Failed(RemainderOverflow)
       <==> a == I64_MIN && b == -1
    ensures a == I64_MIN && b == -1 ==>
              W.RunSeq(m, EmitBinary(dest, Rem, left, right), W.State(l, stack), fuel)
              == W.Normal(W.State(l[W.Reg(dest) := 0], stack))
  {
    RunBinary(m, dest, Rem, left, right, l, stack, fuel);
  }

  // ---- The index slot after a counted loop --------------------------------------------------

  /** Nothing in the block writes the slot. */
  predicate KeepsSlot(insts: seq<Inst>, s: SlotId)
    decreases insts
  {
    forall i :: 0 <= i < |insts| ==> KeepsSlotInst(insts[i], s)
  }

  predicate KeepsSlotInst(inst: Inst, s: SlotId)
    decreases inst
  {
    && (inst.StoreLocal? ==> inst.slot != s)
    && (inst.If? ==> KeepsSlot(inst.thenInsts, s) && KeepsSlot(inst.elseInsts, s))
    && (inst.While? ==> KeepsSlot(inst.condInsts, s) && KeepsSlot(inst.body, s))
    && (inst.Repeat? ==> inst.indexSlot != Some(s) && KeepsSlot(inst.body, s))
  }

  /** The slot is the same after a run. */
  predicate SlotAfter(s: SlotId, v: Value, r: Outcome<Frame>) {
    r.Done? ==> s < |r.value.slots| && r.value.slots[s] == v
  }

  lemma {:induction false} SeqKeepsSlot(p: Program, args: seq<Value>, insts: seq<Inst>, s: SlotId, f: Frame, fuel: nat)
    requires KeepsSlot(insts, s) && s < |f.slots|
    ensures SlotAfter(s, f.slots[s], ExecSeq(p, args, insts, f, fuel))
    decreases fuel, insts, 0
  {
    if insts != [] {
      InstKeepsSlot(p, args, insts[0], s, f, fuel);
      var g := ExecInst(p, args, insts[0], f, fuel);
      if g.Done? { SeqKeepsSlot(p, args, insts[1..], s, g.value, fuel); }
    }
  }

  lemma {:induction false} InstKeepsSlot(p: Program, args: seq<Value>, inst: Inst, s: SlotId, f: Frame, fuel: nat)
    requires KeepsSlotInst(inst, s) && s < |f.slots|
    ensures SlotAfter(s, f.slots[s], ExecInst(p, args, inst, f, fuel))
    decreases fuel, inst, 1
  {
    if inst.If? {
      SeqKeepsSlot(p, args, inst.thenInsts, s, f, fuel);
      SeqKeepsSlot(p, args, inst.elseInsts, s, f, fuel);
    } else if inst.While? {
      WhileKeepsSlot(p, args, inst, s, f, fuel);
    } else if inst.Repeat? {
      var n := GetInt(f, inst.count);
      if n.Done? { RepeatKeepsSlot(p, args, inst, s, n.value, 0, f, fuel); }
    }
  }

  lemma {:induction false} WhileKeepsSlot(p: Program, args: seq<Value>, loop: Inst, s: SlotId, f: Frame, fuel: nat)
    requires loop.While? && KeepsSlotInst(loop, s) && s < |f.slots|
    ensures SlotAfter(s, f.slots[s], ExecWhile(p, args, loop, f, fuel))
    decreases fuel, loop, 0
  {
    SeqKeepsSlot(p, args, loop.condInsts, s, f, fuel);
    var g := ExecSeq(p, args, loop.condInsts, f, fuel);
    if g.Done? {
      SeqKeepsSlot(p, args, loop.body, s, g.value, fuel);
      var h := ExecSeq(p, args, loop.body, g.value, fuel);
      if h.Done? && fuel > 0 { WhileKeepsSlot(p, args, loop, s, h.value, fuel - 1); }
    }
  }

  lemma {:induction false} RepeatKeepsSlot(p: Program, args: seq<Value>, loop: Inst, s: SlotId, n: int, i: nat,
                                           f: Frame, fuel: nat)
    requires loop.Repeat? && KeepsSlotInst(loop, s) && s < |f.slots|
    ensures SlotAfter(s, f.slots[s], ExecRepeat(p, args, loop, n, i, f, fuel))
    decreases fuel, loop, 0
  {
    var g := SetIndex(f, loop.indexSlot, i);
    if i < n && g.Done? {
      SeqKeepsSlot(p, args, loop.body, s, g.value, fuel);
      var h := ExecSeq(p, args, loop.body, g.value, fuel);
      if h.Done? && fuel > 0 { RepeatKeepsSlot(p, args, loop, s, n, i + 1, h.value, fuel - 1); }
    }
  }

  /** The interpreter leaves the last index in the slot, or what it held when the loop did not run. */
  lemma {:induction false} InterpreterIndexAfter(p: Program, args: seq<Value>, loop: Inst, n: int, i: nat, f: Frame,
                                                 fuel: nat)
    requires loop.Repeat? && loop.indexSlot.Some? && loop.indexSlot.value < |f.slots|
    requires KeepsSlot(loop.body, loop.indexSlot.value) && ExecRepeat(p, args, loop, n, i, f, fuel).Done?
    ensures var s := loop.indexSlot.value;
            SlotAfter(s, if i < n then Int(n - 1) else f.slots[s], ExecRepeat(p, args, loop, n, i, f, fuel))
    decreases fuel
  {
    if i < n {
      var g := SetIndex(f, loop.indexSlot, i).value;
      SeqKeepsSlot(p, args, loop.body, loop.indexSlot.value, g, fuel);
      InterpreterIndexAfter(p, args, loop, n, i + 1, ExecSeq(p, args, loop.body, g, fuel).value, fuel - 1);
    }
  }

  /** The emitted loop leaves the count in its counter and in the index slot, whatever its body. */
  lemma {:induction false} MachineCountAfter(p: Program, sigs: Sigs, m: W.Module, pl: Place, inst: Inst, n: int, i: nat,
                                             f: Frame, l: Locals, fuel: nat)
    requires inst.Repeat? && World(p, sigs, m, pl) && CheckRepeat(pl.x, inst, pl.sc, pl.active).Some?
    requires Related(pl, f, l) && AtIteration(inst, n, i, f, l) && ExecRepeat(p, pl.args, inst, n, i, f, fuel).Done?
    ensures var loop := RepeatCode(inst.count, inst.indexSlot, EmitSeq(pl.x.sig, inst.body));
            CountLeft(inst, if i < n then n else i, W.RunLoop(m, loop, W.State(l, []), fuel))
    decreases fuel
  {
    RunRepeatPass(m, inst.count, inst.indexSlot, EmitSeq(pl.x.sig, inst.body), l, fuel);
    assert W.Read(l, W.Reg(inst.count)) == n by { assert inst.count in pl.sc.values; }
    if i < n {
      EnterIteration(pl, inst, n, i, f, l);
      var g := SetIndex(f, inst.indexSlot, i).value;
      SeqAgrees(p, sigs, m, Inside(pl, inst), inst.body, g, l, [], fuel);
      var h := ExecSeq(p, pl.args, inst.body, g, fuel).value;
      var o := W.RunSeq(m, EmitSeq(pl.x.sig, inst.body), W.State(l, []), fuel).s.locals;
      var after := CheckSeq(pl.x, inst.body, Inside(pl, inst).sc, Inside(pl, inst).active).value;
      NextIteration(pl, inst, n, i, after, f, l, g, h, o);
      MachineCountAfter(p, sigs, m, pl, inst, n, i + 1, h, Advance(o, inst.count, inst.indexSlot), fuel - 1);
    }
  }

  predicate CountLeft(inst: Inst, n: int, w: W.Result)
    requires inst.Repeat?
  {
    && w.Jump? && w.depth == 0 && w.s.stack == [] && W.Read(w.s.locals, W.Counter(inst.count)) == n
    && (inst.indexSlot.Some? ==> W.Read(w.s.locals, W.Slot(inst.indexSlot.value)) == n)
  }

  /** The same for the whole emitted block, which starts from zero. */
  lemma BlockCountAfter(p: Program, sigs: Sigs, m: W.Module, pl: Place, inst: Inst, n: int, f: Frame, l: Locals,
                        fuel: nat)
    requires inst.Repeat? && World(p, sigs, m, pl) && CheckRepeat(pl.x, inst, pl.sc, pl.active).Some?
    requires Related(pl, f, l)
    requires inst.count < |f.values| && f.values[inst.count] == Int(n)
    requires ExecRepeat(p, pl.args, inst, n, 0, f, fuel).Done?
    ensures var code := RepeatBlock(inst.count, inst.indexSlot, EmitSeq(pl.x.sig, inst.body));
            var w := W.RunSeq(m, code, W.State(l, []), fuel);
            w.Normal? && CountLeft(inst, if n > 0 then n else 0, W.Jump(0, W.State(w.s.locals, [])))
  {
    var body := EmitSeq(pl.x.sig, inst.body);
    var l1 := Cleared(l, inst.indexSlot);
    var l2 := l1[W.Counter(inst.count) := 0];
    var start := [W.I64Const(0), W.LocalSet(W.Counter(inst.count))];
    var loop := RepeatCode(inst.count, inst.indexSlot, body);
    StartIteration(pl, inst, f, l);
    MachineCountAfter(p, sigs, m, pl, inst, n, 0, f, l2, fuel);
    RunRepeatBlock(m, inst.count, inst.indexSlot, body, l, [], fuel);
    RunConst(m, 0, W.Counter(inst.count), W.State(l1, []), fuel);
    W.RunConcat(m, start, [loop], W.State(l1, []), fuel);
    Run1(m, loop, W.State(l2, []), fuel);
  }

  /** After a counted loop the machine's index slot holds the count, or zero when the loop did not
      run.  The interpreter's holds the last index when the body leaves it alone; then they agree if
      and only if the loop did not run and the slot already held zero.  So code after the loop must
      not read the slot, which well-formedness guarantees. */
  lemma IndexSlotAfterLoop(p: Program, sigs: Sigs, m: W.Module, pl: Place, inst: Inst, n: int, f: Frame, l: Locals,
                           fuel: nat)
    requires inst.Repeat? && inst.indexSlot.Some? && World(p, sigs, m, pl) && Related(pl, f, l)
    requires CheckRepeat(pl.x, inst, pl.sc, pl.active).Some?
    requires inst.count < |f.values| && f.values[inst.count] == Int(n)
    requires ExecRepeat(p, pl.args, inst, n, 0, f, fuel).Done?
    ensures var s, r := inst.indexSlot.value, ExecRepeat(p, pl.args, inst, n, 0, f, fuel);
            var code := RepeatBlock(inst.count, inst.indexSlot, EmitSeq(pl.x.sig, inst.body));
            var w := W.RunSeq(m, code, W.State(l, []), fuel);
            && w.Normal? && W.Read(w.s.locals, W.Slot(s)) == (if n > 0 then n else 0)
            && (KeepsSlot(inst.body, s) ==>
                  && s < |f.slots| && s < |r.value.slots|
                  && (r.value.slots[s] == Int(W.Read(w.s.locals, W.Slot(s))) <==> n <= 0 && f.slots[s] == Int(0)))
  {
    BlockCountAfter(p, sigs, m, pl, inst, n, f, l, fuel);
    if KeepsSlot(inst.body, inst.indexSlot.value) {
      InterpreterIndexAfter(p, pl.args, inst, n, 0, f, fuel);
    }
  }

  // ---- Two nested loops that share a count register -----------------------------------------

  lemma {:induction false} ExecConcat(p: Program, args: seq<Value>, a: seq<Inst>, b: seq<Inst>, f: Frame, fuel: nat)
    ensures var r := ExecSeq(p, args, a, f, fuel);
            ExecSeq(p, args, a + b, f, fuel) == if r.Done? then ExecSeq(p, args, b, r.value, fuel) else r
    decreases a
  {
    if a == [] {
      assert a + b == b;
    } else {
      assert (a + b)[1..] == a[1..] + b;
      var g := ExecInst(p, args, a[0], f, fuel);
      if g.Done? { ExecConcat(p, args, a[1..], b, g.value, fuel); }
    }
  }

  lemma {:induction false} EmitConcat(sig: Sig, a: seq<Inst>, b: seq<Inst>)
    ensures EmitSeq(sig, a + b) == EmitSeq(sig, a) + EmitSeq(sig, b)
    decreases a
  {
    if a == [] {
      assert a + b == b;
    } else {
      assert (a + b)[1..] == a[1..] + b;
      EmitConcat(sig, a[1..], b);
    }
  }

  /** A loop body around an inner loop on the same count register; it is well-formed but for that. */
  datatype Nest = Nest(count: ValueId, slot: Option<SlotId>, pre: seq<Inst>, inner: Inst, post: seq<Inst>)

  function BodyOf(o: Nest): seq<Inst> {
    o.pre + ([o.inner] + o.post)
  }

  ghost predicate NestOk(pl: Place, o: Nest) {
    && Has(pl.x, pl.sc, o.count, KInt) && o.count !in pl.active
    && (o.slot.Some? ==> o.slot.value !in pl.sc.slots && SlotKind(pl.x, o.slot.value, KInt))
    && o.inner.Repeat? && o.inner.count == o.count
    && var a := CheckSeq(pl.x, o.pre, RepeatScope(pl.sc, o.slot), pl.active);
       && a.Some? && CheckRepeat(pl.x, o.inner, a.value, pl.active).Some?
       && CheckSeq(pl.x, o.post, Define(a.value, o.inner.dest), pl.active + {o.count}).Some?
  }

  /** The inner loop, from any place that is well-formed for it: afterwards the shared counter holds
      the count. */
  lemma InnerLeavesCount(p: Program, sigs: Sigs, m: W.Module, pl: Place, inner: Inst, n: int, f: Frame, l: Locals,
                         fuel: nat)
    requires inner.Repeat? && World(p, sigs, m, pl) && CheckRepeat(pl.x, inner, pl.sc, pl.active).Some?
    requires Related(pl, f, l)
    requires inner.count < |f.values| && f.values[inner.count] == Int(n) && n > 0
    requires ExecSeq(p, pl.args, [inner], f, fuel).Done?
    ensures var h := ExecSeq(p, pl.args, [inner], f, fuel);
            var w := W.RunSeq(m, EmitSeq(pl.x.sig, [inner]), W.State(l, []), fuel);
            && w.Normal? && w.s.stack == [] && Finished(pl, Define(pl.sc, inner.dest), f, l, h.value, w.s.locals)
            && W.Read(w.s.locals, W.Counter(inner.count)) == n
  {
    SeqAgrees(p, sigs, m, pl, [inner], f, l, [], fuel);
    var r := ExecInst(p, pl.args, inner, f, fuel);
    assert [inner][1..] == [];
    BlockCountAfter(p, sigs, m, pl, inner, n, f, l, fuel);
    var code := EmitInst(pl.x.sig, inner);
    assert EmitSeq(pl.x.sig, [inner]) == code + [] == code;
  }

  /** One pass over the body: the emitted code follows the interpreter, and leaves the count in the
      counter of the outer loop. */
  lemma NestPass(p: Program, sigs: Sigs, m: W.Module, pl: Place, o: Nest, n: int, g: Frame, l: Locals, fuel: nat)
    requires World(p, sigs, m, pl) && NestOk(pl, o) && Related(pl.(sc := RepeatScope(pl.sc, o.slot)), g, l) && n > 0
    requires o.count < |g.values| && g.values[o.count] == Int(n) && ExecSeq(p, pl.args, BodyOf(o), g, fuel).Done?
    ensures var h := ExecSeq(p, pl.args, BodyOf(o), g, fuel).value;
            var w := W.RunSeq(m, EmitSeq(pl.x.sig, BodyOf(o)), W.State(l, []), fuel);
            && w.Normal? && w.s.stack == [] && Related(pl, h, w.s.locals)
            && W.Read(w.s.locals, W.Counter(o.count)) == n && W.Read(w.s.locals, W.Reg(o.count)) == n
  {
    var sig := pl.x.sig;
    var p0 := pl.(sc := RepeatScope(pl.sc, o.slot));
    var p1 := pl.(sc := CheckSeq(pl.x, o.pre, p0.sc, pl.active).value);
    var p2 := pl.(sc := Define(p1.sc, o.inner.dest), active := pl.active + {o.count});
    ExecConcat(p, pl.args, o.pre, [o.inner] + o.post, g, fuel);
    EmitConcat(sig, o.pre, [o.inner] + o.post);
    SeqAgrees(p, sigs, m, p0, o.pre, g, l, [], fuel);
    var g1 := ExecSeq(p, pl.args, o.pre, g, fuel).value;
    var l1 := W.RunSeq(m, EmitSeq(sig, o.pre), W.State(l, []), fuel).s.locals;
    W.RunConcat(m, EmitSeq(sig, o.pre), EmitSeq(sig, [o.inner] + o.post), W.State(l, []), fuel);
    NestTail(p, sigs, m, p1, p2, o, n, g1, l1, fuel);
    var h := ExecSeq(p, pl.args, BodyOf(o), g, fuel).value;
    var w := W.RunSeq(m, EmitSeq(sig, BodyOf(o)), W.State(l, []), fuel);
    Narrow(pl, CheckSeq(pl.x, o.post, p2.sc, p2.active).value, pl.sc, h, w.s.locals);
  }

  /** From the inner loop on. */
  lemma NestTail(p: Program, sigs: Sigs, m: W.Module, p1: Place, p2: Place, o: Nest, n: int, f: Frame, l: Locals,
                 fuel: nat)
    requires World(p, sigs, m, p1) && o.inner.Repeat? && o.inner.count == o.count && n > 0
    requires CheckRepeat(p1.x, o.inner, p1.sc, p1.active).Some? && Related(p1, f, l)
    requires p2 == p1.(sc := Define(p1.sc, o.inner.dest), active := p1.active + {o.count})
    requires CheckSeq(p2.x, o.post, p2.sc, p2.active).Some?
    requires o.count < |f.values| && f.values[o.count] == Int(n)
    requires ExecSeq(p, p1.args, [o.inner] + o.post, f, fuel).Done?
    ensures var h := ExecSeq(p, p1.args, [o.inner] + o.post, f, fuel).value;
            var w := W.RunSeq(m, EmitSeq(p1.x.sig, [o.inner] + o.post), W.State(l, []), fuel);
            && w.Normal? && w.s.stack == []
            && Related(p2.(sc := CheckSeq(p2.x, o.post, p2.sc, p2.active).value), h, w.s.locals)
            && W.Read(w.s.locals, W.Counter(o.count)) == n && h.values[o.count] == Int(n)
  {
    var sig := p1.x.sig;
    ExecConcat(p, p1.args, [o.inner], o.post, f, fuel);
    EmitConcat(sig, [o.inner], o.post);
    InnerLeavesCount(p, sigs, m, p1, o.inner, n, f, l, fuel);
    var g := ExecSeq(p, p1.args, [o.inner], f, fuel).value;
    var w := W.RunSeq(m, EmitSeq(sig, [o.inner]), W.State(l, []), fuel);
    W.RunConcat(m, EmitSeq(sig, [o.inner]), EmitSeq(sig, o.post), W.State(l, []), fuel);
    assert w.s == W.State(w.s.locals, []);
    SeqAgrees(p, sigs, m, p2, o.post, g, w.s.locals, [], fuel);
    assert o.count in p1.sc.values && o.count in p2.sc.values && o.count in p2.active;
  }

  /** The emitted outer loop stops after one pass, whatever the count: it ends in the state that the
      interpreter has reached after its first iteration. */
  lemma SharedCountRunsOnce(p: Program, sigs: Sigs, m: W.Module, pl: Place, o: Nest, n: int, f: Frame, l: Locals,
                            fuel: nat)
    requires World(p, sigs, m, pl) && NestOk(pl, o) && Related(pl, f, l) && fuel > 0
    requires f.values[o.count] == Int(n) && 0 < n < I64_MAX && W.Read(l, W.Counter(o.count)) == 0
    requires o.slot.Some? ==> W.Read(l, W.Slot(o.slot.value)) == 0
    requires SetIndex(f, o.slot, 0).Done? && ExecSeq(p, pl.args, BodyOf(o), SetIndex(f, o.slot, 0).value, fuel).Done?
    ensures var h := ExecSeq(p, pl.args, BodyOf(o), SetIndex(f, o.slot, 0).value, fuel).value;
            var loop := RepeatCode(o.count, o.slot, EmitSeq(pl.x.sig, BodyOf(o)));
            var w := W.RunLoop(m, loop, W.State(l, []), fuel);
            w.Jump? && w.depth == 0 && w.s.stack == [] && Related(pl, h, w.s.locals)
  {
    var code := EmitSeq(pl.x.sig, BodyOf(o));
    var g := SetIndex(f, o.slot, 0).value;
    assert o.count in pl.sc.values;
    NestPass(p, sigs, m, pl, o, n, g, l, fuel);
    OnePass(m, o.count, o.slot, code, n, l, fuel);
    var h := ExecSeq(p, pl.args, BodyOf(o), g, fuel).value;
    AdvanceRelated(pl, o, h, W.RunSeq(m, code, W.State(l, []), fuel).s.locals);
  }

  lemma OnePass(m: W.Module, count: ValueId, slot: Option<SlotId>, code: seq<W.Instr>, n: int, l: Locals, fuel: nat)
    requires 0 < n < I64_MAX && W.Read(l, W.Counter(count)) == 0 && W.Read(l, W.Reg(count)) == n && fuel > 0
    requires var w := W.RunSeq(m, code, W.State(l, []), fuel);
             && w.Normal? && w.s.stack == [] && W.Read(w.s.locals, W.Counter(count)) == n
             && W.Read(w.s.locals, W.Reg(count)) == n
    ensures var q := Advance(W.RunSeq(m, code, W.State(l, []), fuel).s.locals, count, slot);
            W.RunLoop(m, RepeatCode(count, slot, code), W.State(l, []), fuel) == W.Jump(0, W.State(q, []))
  {
    RunRepeatPass(m, count, slot, code, l, fuel);
    var q := W.RunSeq(m, code, W.State(l, []), fuel).s.locals;
    assert Wrap64(n + 1) == n + 1;
    RunRepeatPass(m, count, slot, code, Advance(q, count, slot), fuel - 1);
  }

  lemma AdvanceRelated(pl: Place, o: Nest, h: Frame, q: Locals)
    requires Related(pl, h, q) && (o.slot.Some? ==> o.slot.value !in pl.sc.slots)
    ensures Related(pl, h, Advance(q, o.count, o.slot))
  {
  }

  /** The inner loop does nothing; the outer body then copies its index to slot `t`. */
  function SharedBody(c: ValueId, s: SlotId, t: SlotId, d: ValueId, v: ValueId): seq<Inst> {
    [Repeat(d, c, None, []), LoadLocal(v, s), StoreLocal(t, v)]
  }

  lemma {:induction false} IdleRuns(p: Program, args: seq<Value>, loop: Inst, n: int, i: nat, f: Frame, fuel: nat)
    requires loop.Repeat? && loop.body == [] && loop.indexSlot.None? && fuel + i >= n
    ensures ExecRepeat(p, args, loop, n, i, f, fuel) == Put(f, loop.dest, Unit)
    decreases fuel
  {
    if i < n {
      assert ExecSeq(p, args, [], f, fuel) == Done(f);
      IdleRuns(p, args, loop, n, i + 1, f, fuel - 1);
    }
  }

  /** One interpreted iteration copies the index. */
  lemma SharedBodyRuns(p: Program, args: seq<Value>, c: ValueId, s: SlotId, t: SlotId, d: ValueId, v: ValueId, n: int,
                       f: Frame, fuel: nat)
    requires s < |f.slots| && t < |f.slots| && d < |f.values| && v < |f.values| && c < |f.values|
    requires f.values[c] == Int(n)
    requires c != d && c != v && fuel >= n
    ensures var r := ExecSeq(p, args, SharedBody(c, s, t, d, v), f, fuel);
            && r.Done? && |r.value.slots| == |f.slots| && |r.value.values| == |f.values| && r.value.values[c] == Int(n)
            && r.value.slots == f.slots[t := f.slots[s]]
  {
    var body := SharedBody(c, s, t, d, v);
    IdleRuns(p, args, body[0], n, 0, f, fuel);
    var g := f.(values := f.values[d := Unit]);
    assert ExecInst(p, args, body[0], f, fuel) == Done(g);
    var h := g.(values := g.values[v := f.slots[s]]);
    assert ExecInst(p, args, body[1], g, fuel) == Done(h);
    var k := h.(slots := f.slots[t := f.slots[s]]);
    assert ExecInst(p, args, body[2], h, fuel) == Done(k);
    assert body[1..] == [body[1], body[2]] && body[1..][1..] == [body[2]] && body[1..][1..][1..] == [];
    assert ExecSeq(p, args, body[1..][1..], h, fuel) == Done(k);
    assert ExecSeq(p, args, body[1..], g, fuel) == Done(k);
  }

  lemma {:induction false} SharedInterpreted(p: Program, args: seq<Value>, outer: Inst, c: ValueId, s: SlotId,
                                             t: SlotId, d: ValueId, v: ValueId, n: int, i: nat, f: Frame, fuel: nat)
    requires outer.Repeat? && outer.indexSlot == Some(s) && outer.body == SharedBody(c, s, t, d, v)
    requires outer.dest < |f.values|
    requires s != t && s < |f.slots| && t < |f.slots| && d < |f.values| && v < |f.values| && c < |f.values|
    requires f.values[c] == Int(n)
    requires c != d && c != v && fuel + i >= 2 * n
    ensures var r := ExecRepeat(p, args, outer, n, i, f, fuel);
            && r.Done? && |r.value.slots| == |f.slots|
            && r.value.slots[t] == if i < n then Int(n - 1) else f.slots[t]
    decreases fuel
  {
    if i < n {
      var g := SetIndex(f, Some(s), i).value;
      SharedBodyRuns(p, args, c, s, t, d, v, n, g, fuel);
      var h := ExecSeq(p, args, outer.body, g, fuel).value;
      SharedInterpreted(p, args, outer, c, s, t, d, v, n, i + 1, h, fuel - 1);
    }
  }

  /** The emitted inner loop leaves the shared counter at the count. */
  lemma {:induction false} InnerCounterAfter(m: W.Module, c: ValueId, n: nat, i: nat, l: Locals, fuel: nat)
    requires IsI64(n) && W.Read(l, W.Reg(c)) == n && i <= n && fuel + i >= n
    requires W.Counter(c) in l && W.Read(l, W.Counter(c)) == i
    ensures W.RunLoop(m, RepeatCode(c, None, []), W.State(l, []), fuel) == W.Jump(0, W.State(l[W.Counter(c) := n], []))
    decreases fuel
  {
    RunRepeatPass(m, c, None, [], l, fuel);
    if i < n {
      assert W.RunSeq(m, [], W.State(l, []), fuel) == W.Normal(W.State(l, []));
      assert Wrap64(i + 1) == i + 1;
      var next := l[W.Counter(c) := i + 1];
      InnerCounterAfter(m, c, n, i + 1, next, fuel - 1);
      assert next[W.Counter(c) := n] == l[W.Counter(c) := n];
    } else {
      assert l[W.Counter(c) := n] == l;
    }
  }

  lemma SharedBodyMachine(m: W.Module, sig: Sig, c: ValueId, s: SlotId, t: SlotId, d: ValueId, v: ValueId, n: nat,
                          l: Locals, fuel: nat)
    requires IsI64(n) && W.Read(l, W.Reg(c)) == n && fuel >= n
    ensures W.RunSeq(m, EmitSeq(sig, SharedBody(c, s, t, d, v)), W.State(l, []), fuel)
         == var x := W.Read(l, W.Slot(s)); W.Normal(W.State(l[W.Counter(c) := n][W.Reg(v) := x][W.Slot(t) := x], []))
  {
    var body := SharedBody(c, s, t, d, v);
    var start := [W.I64Const(0), W.LocalSet(W.Counter(c))];
    var loop := RepeatCode(c, None, []);
    var l0 := l[W.Counter(c) := 0];
    var l1 := l[W.Counter(c) := n];
    RunRepeatBlock(m, c, None, [], l, [], fuel);
    RunConst(m, 0, W.Counter(c), W.State(l, []), fuel);
    W.RunConcat(m, start, [loop], W.State(l, []), fuel);
    Run1(m, loop, W.State(l0, []), fuel);
    InnerCounterAfter(m, c, n, 0, l0, fuel);
    assert l0[W.Counter(c) := n] == l1;
    assert body[1..] == [body[1], body[2]] && body[1..][1..] == [body[2]] && body[1..][1..][1..] == [];
    var load, store := EmitScalar(body[1]), EmitScalar(body[2]);
    assert EmitSeq(sig, body[1..][1..]) == store + [] == store;
    assert EmitSeq(sig, body[1..]) == load + store;
    assert EmitSeq(sig, []) == [] && EmitInst(sig, body[0]) == RepeatBlock(c, None, []);
    assert EmitSeq(sig, body) == EmitInst(sig, body[0]) + EmitSeq(sig, body[1..]);
    W.RunConcat(m, RepeatBlock(c, None, []), load + store, W.State(l, []), fuel);
    W.RunConcat(m, load, store, W.State(l1, []), fuel);
    var x := W.Read(l, W.Slot(s));
    RunMove(m, W.Slot(s), W.Reg(v), W.State(l1, []), fuel);
    RunMove(m, W.Reg(v), W.Slot(t), W.State(l1[W.Reg(v) := x], []), fuel);
  }

  /** The emitted outer loop stops after its first iteration. */
  lemma SharedMachine(m: W.Module, sig: Sig, c: ValueId, s: SlotId, t: SlotId, d: ValueId, v: ValueId, n: nat,
                      l: Locals, fuel: nat)
    requires 0 < n < I64_MAX && W.Read(l, W.Reg(c)) == n && c != v && s != t && fuel > n
    requires W.Read(l, W.Counter(c)) == 0 && W.Read(l, W.Slot(s)) == 0
    ensures var code := RepeatCode(c, Some(s), EmitSeq(sig, SharedBody(c, s, t, d, v)));
            var w := W.RunLoop(m, code, W.State(l, []), fuel);
            w.Jump? && w.depth == 0 && W.Read(w.s.locals, W.Slot(t)) == 0
  {
    var code := EmitSeq(sig, SharedBody(c, s, t, d, v));
    RunRepeatPass(m, c, Some(s), code, l, fuel);
    SharedBodyMachine(m, sig, c, s, t, d, v, n, l, fuel);
    var o := l[W.Counter(c) := n][W.Reg(v) := 0][W.Slot(t) := 0];
    assert Wrap64(n + 1) == n + 1;
    var q := Advance(o, c, Some(s));
    assert W.Read(q, W.Counter(c)) == n + 1 && W.Read(q, W.Reg(c)) == n && W.Read(q, W.Slot(t)) == 0;
    RunRepeatPass(m, c, Some(s), code, q, fuel - 1);
  }

  /** With a shared count register the emitted loops copy index 0 where the interpreter copies
      the last index: for a positive count they agree if and only if the count is one. */
  lemma SharedCountDiffers(m: W.Module, p: Program, args: seq<Value>, sig: Sig, dest: ValueId, c: ValueId, s: SlotId,
                           t: SlotId, d: ValueId, v: ValueId, n: nat, f: Frame, l: Locals, fuel: nat)
    requires 0 < n < I64_MAX && fuel > 2 * n && s != t && c != d && c != v
    requires s < |f.slots| && t < |f.slots| && dest < |f.values| && d < |f.values| && v < |f.values| && c < |f.values|
    requires f.values[c] == Int(n) && W.Read(l, W.Reg(c)) == n && W.Read(l, W.Counter(c)) == 0
    requires W.Read(l, W.Slot(s)) == 0
    ensures var body := SharedBody(c, s, t, d, v);
            var r := ExecRepeat(p, args, Repeat(dest, c, Some(s), body), n, 0, f, fuel);
            var w := W.RunLoop(m, RepeatCode(c, Some(s), EmitSeq(sig, body)), W.State(l, []), fuel);
            && r.Done? && t < |r.value.slots| && w.Jump?
            && (r.value.slots[t] == Int(W.Read(w.s.locals, W.Slot(t))) <==> n == 1)
  {
    SharedInterpreted(p, args, Repeat(dest, c, Some(s), SharedBody(c, s, t, d, v)), c, s, t, d, v, n, 0, f, fuel);
    SharedMachine(m, sig, c, s, t, d, v, n, l, fuel);
  }
}
