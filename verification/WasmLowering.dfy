/** Lowering of the scalar fragment of the MIR to WebAssembly, and what the lowering demands of
    a function: the kinds that kind inference assigns, definition before use, loop index slots
    of their own, and a different count register for every enclosing counted loop. */
module WasmLowering {
  import opened Mir
  import W = Wasm

  datatype Kind = KUnit | KInt | KBool

  /** The kinds of a function's parameters, result, registers and slots. */
  datatype Sig = Sig(params: seq<Kind>, result: Kind, values: map<ValueId, Kind>, slots: map<SlotId, Kind>)

  type Sigs = map<string, Sig>

  // ---- Emission ---------------------------------------------------------------------------

  function EmitSeq(sig: Sig, insts: seq<Inst>): seq<W.Instr>
    decreases insts, 0
  {
    if insts == [] then [] else EmitInst(sig, insts[0]) + EmitSeq(sig, insts[1..])
  }

  predicate YieldsValue(sig: Sig, v: ValueId) {
    v in sig.values && sig.values[v] != KUnit
  }

  /** The value that ends a branch: its result register, or zero where a value is expected. */
  function EmitResult(hasResult: bool, r: Option<ValueId>): seq<W.Instr> {
    if r.Some? then [W.LocalGet(W.Reg(r.value))] else if hasResult then [W.I64Const(0)] else []
  }

  function EmitGets(vs: seq<ValueId>): seq<W.Instr> {
    if vs == [] then [] else [W.LocalGet(W.Reg(vs[0]))] + EmitGets(vs[1..])
  }

  function EmitBinary(dest: ValueId, op: BinOp, left: ValueId, right: ValueId): seq<W.Instr> {
    if op.Add? || op.Sub? || op.Mul? || op.Div? || op.Rem? || op.And? || op.Or? then
      [W.LocalGet(W.Reg(left)), W.LocalGet(W.Reg(right)), W.I64Arith(op), W.LocalSet(W.Reg(dest))]
    else
      [W.LocalGet(W.Reg(left)), W.LocalGet(W.Reg(right)), W.I64Compare(op), W.I64ExtendI32U, W.LocalSet(W.Reg(dest))]
  }

  function WhileCode(cond: seq<W.Instr>, condition: ValueId, body: seq<W.Instr>): W.Instr {
    W.Loop(cond + ([W.LocalGet(W.Reg(condition)), W.I32WrapI64, W.I32Eqz, W.BrIf(1)] + (body + [W.Br(0)])))
  }

  function CounterStep(count: ValueId, slot: Option<SlotId>): seq<W.Instr> {
    [W.LocalGet(W.Counter(count)), W.I64Const(1), W.I64Arith(Add), W.LocalTee(W.Counter(count)),
     if slot.Some? then W.LocalSet(W.Slot(slot.value)) else W.Drop,
     W.Br(0)]
  }

  function RepeatCode(count: ValueId, slot: Option<SlotId>, body: seq<W.Instr>): W.Instr {
    W.Loop([W.LocalGet(W.Counter(count)), W.LocalGet(W.Reg(count)), W.I64Compare(Ge), W.BrIf(1)]
           + (body + CounterStep(count, slot)))
  }

  predicate IsScalarInst(inst: Inst) {
    || inst.ConstInt? || inst.ConstBool? || inst.LoadParam? || inst.LoadLocal? || inst.StoreLocal?
    || inst.Binary? || inst.Assert?
  }

  function EmitScalar(inst: Inst): seq<W.Instr>
    requires IsScalarInst(inst)
  {
    match inst
    case ConstInt(dest, n) => [W.I64Const(n), W.LocalSet(W.Reg(dest))]
    case ConstBool(dest, b) => [W.I64Const(if b then 1 else 0), W.LocalSet(W.Reg(dest))]
    case LoadParam(dest, i) => [W.LocalGet(W.Param(i)), W.LocalSet(W.Reg(dest))]
    case LoadLocal(dest, s) => [W.LocalGet(W.Slot(s)), W.LocalSet(W.Reg(dest))]
    case StoreLocal(s, src) => [W.LocalGet(W.Reg(src)), W.LocalSet(W.Slot(s))]
    case Binary(dest, op, l, r) => EmitBinary(dest, op, l, r)
    case Assert(c) =>
      [W.LocalGet(W.Reg(c)), W.I32WrapI64, W.I32Eqz, W.If(false, [W.Unreachable], [])]
  }

  function CallCode(dest: ValueId, callee: string, args: seq<ValueId>): seq<W.Instr> {
    EmitGets(args) + [W.Call(callee), W.LocalSet(W.Reg(dest))]
  }

  function IfCode(hasResult: bool, dest: ValueId, c: ValueId, thenCode: seq<W.Instr>,
                  elseCode: seq<W.Instr>): seq<W.Instr> {
    [W.LocalGet(W.Reg(c)), W.I32WrapI64]
    + ([W.If(hasResult, thenCode, elseCode)] + if hasResult then [W.LocalSet(W.Reg(dest))] else [])
  }

  function RepeatBlock(count: ValueId, slot: Option<SlotId>, body: seq<W.Instr>): seq<W.Instr> {
    (if slot.Some? then [W.I64Const(0), W.LocalSet(W.Slot(slot.value))] else [])
    + [W.Block([W.I64Const(0), W.LocalSet(W.Counter(count))] + [RepeatCode(count, slot, body)])]
  }

  function EmitInst(sig: Sig, inst: Inst): seq<W.Instr>
    decreases inst, 1
  {
    if IsScalarInst(inst) then EmitScalar(inst)
    else if inst.Call? then CallCode(inst.dest, inst.callee, inst.args)
    else if inst.If? then
      var hasResult := YieldsValue(sig, inst.dest);
      IfCode(hasResult, inst.dest, inst.condition,
             EmitSeq(sig, inst.thenInsts) + EmitResult(hasResult, inst.thenResult),
             EmitSeq(sig, inst.elseInsts) + EmitResult(hasResult, inst.elseResult))
    else if inst.While? then
      [W.Block([WhileCode(EmitSeq(sig, inst.condInsts), inst.condition, EmitSeq(sig, inst.body))])]
    else if inst.Repeat? then
      RepeatBlock(inst.count, inst.indexSlot, EmitSeq(sig, inst.body))
    else []
  }

  function EmitFunction(sig: Sig, fn: Function): W.Func {
    W.Func(|sig.params|, sig.result != KUnit,
           EmitSeq(sig, fn.body) + if fn.result.Some? then [W.LocalGet(W.Reg(fn.result.value))] else [])
  }

  function FunctionNames(fs: seq<Function>): set<string> {
    set f | f in fs :: f.name
  }

  function EmitProgram(p: Program, sigs: Sigs): W.Module
    requires FunctionNames(p.functions) <= sigs.Keys
  {
    map name | name in FunctionNames(p.functions) && Lookup(p.functions, name).Some? ::
      EmitFunction(sigs[name], Lookup(p.functions, name).value)
  }

  // ---- Well-formed functions ----------------------------------------------------------------

  /** Registers and slots that hold a value of their kind on every path to this point. */
  datatype Scope = Scope(values: set<ValueId>, slots: set<SlotId>)

  datatype Setting = Setting(sig: Sig, sigs: Sigs, valueCount: nat, slotCount: nat)

  predicate Has(x: Setting, sc: Scope, v: ValueId, k: Kind) {
    v in sc.values && v in x.sig.values && x.sig.values[v] == k
  }

  predicate Fresh(x: Setting, sc: Scope, v: ValueId, k: Kind) {
    v !in sc.values && v < x.valueCount && v in x.sig.values && x.sig.values[v] == k
  }

  predicate SlotKind(x: Setting, s: SlotId, k: Kind) {
    s < x.slotCount && s in x.sig.slots && x.sig.slots[s] == k
  }

  function Define(sc: Scope, v: ValueId): Scope {
    sc.(values := sc.values + {v})
  }

  predicate BinaryOk(x: Setting, sc: Scope, dest: ValueId, op: BinOp, l: ValueId, r: ValueId) {
    match op
    case And => Has(x, sc, l, KBool) && Has(x, sc, r, KBool) && Fresh(x, sc, dest, KBool)
    case Or => Has(x, sc, l, KBool) && Has(x, sc, r, KBool) && Fresh(x, sc, dest, KBool)
    case Eq => ((Has(x, sc, l, KBool) && Has(x, sc, r, KBool)) || (Has(x, sc, l, KInt) && Has(x, sc, r, KInt)))
               && Fresh(x, sc, dest, KBool)
    case Ne => ((Has(x, sc, l, KBool) && Has(x, sc, r, KBool)) || (Has(x, sc, l, KInt) && Has(x, sc, r, KInt)))
               && Fresh(x, sc, dest, KBool)
    case Lt => Has(x, sc, l, KInt) && Has(x, sc, r, KInt) && Fresh(x, sc, dest, KBool)
    case Le => Has(x, sc, l, KInt) && Has(x, sc, r, KInt) && Fresh(x, sc, dest, KBool)
    case Gt => Has(x, sc, l, KInt) && Has(x, sc, r, KInt) && Fresh(x, sc, dest, KBool)
    case Ge => Has(x, sc, l, KInt) && Has(x, sc, r, KInt) && Fresh(x, sc, dest, KBool)
    case _ => Has(x, sc, l, KInt) && Has(x, sc, r, KInt) && Fresh(x, sc, dest, KInt)
  }

  /** A branch result is present exactly when the conditional has a value, and has its kind. */
  predicate BranchOk(x: Setting, sc: Scope, dest: ValueId, r: Option<ValueId>)
    requires dest in x.sig.values
  {
    if x.sig.values[dest] == KUnit then r.None? else r.Some? && Has(x, sc, r.value, x.sig.values[dest])
  }

  predicate CallOk(x: Setting, sc: Scope, dest: ValueId, callee: string, args: seq<ValueId>) {
    && callee in x.sigs && x.sigs[callee].result != KUnit && Fresh(x, sc, dest, x.sigs[callee].result)
    && |args| == |x.sigs[callee].params|
    && forall i :: 0 <= i < |args| ==>
         x.sigs[callee].params[i] != KUnit && Has(x, sc, args[i], x.sigs[callee].params[i])
  }

  /** The scope after a block, if the block is well-formed. `active` holds the count registers of
      the enclosing counted loops. */
  function CheckSeq(x: Setting, insts: seq<Inst>, sc: Scope, active: set<ValueId>): (r: Option<Scope>)
    ensures r.Some? ==> sc.values <= r.value.values && sc.slots <= r.value.slots
    decreases insts, 0
  {
    if insts == [] then Some(sc) else
    var r := CheckInst(x, insts[0], sc, active);
    if r.None? then None else CheckSeq(x, insts[1..], r.value, active)
  }

  function CheckInst(x: Setting, inst: Inst, sc: Scope, active: set<ValueId>): (r: Option<Scope>)
    ensures r.Some? ==> sc.values <= r.value.values && sc.slots <= r.value.slots
    decreases inst, 1
  {
    if IsScalarInst(inst) then CheckScalar(x, inst, sc)
    else if inst.Call? then
      if CallOk(x, sc, inst.dest, inst.callee, inst.args) then Some(Define(sc, inst.dest)) else None
    else if inst.If? then CheckIf(x, inst, sc, active)
    else if inst.While? then CheckWhile(x, inst, sc, active)
    else if inst.Repeat? then CheckRepeat(x, inst, sc, active)
    else None
  }

  function CheckScalar(x: Setting, inst: Inst, sc: Scope): (r: Option<Scope>)
    requires IsScalarInst(inst)
    ensures r.Some? ==> sc.values <= r.value.values && sc.slots <= r.value.slots
  {
    match inst
    case ConstInt(dest, n) =>
      if IsI64(n) && Fresh(x, sc, dest, KInt) then Some(Define(sc, dest)) else None
    case ConstBool(dest, _) =>
      if Fresh(x, sc, dest, KBool) then Some(Define(sc, dest)) else None
    case LoadParam(dest, i) =>
      if i < |x.sig.params| && x.sig.params[i] != KUnit && Fresh(x, sc, dest, x.sig.params[i])
      then Some(Define(sc, dest)) else None
    case LoadLocal(dest, s) =>
      if s in sc.slots && s in x.sig.slots && x.sig.slots[s] != KUnit && Fresh(x, sc, dest, x.sig.slots[s])
      then Some(Define(sc, dest)) else None
    case StoreLocal(s, src) =>
      if src in sc.values && YieldsValue(x.sig, src) && SlotKind(x, s, x.sig.values[src])
      then Some(sc.(slots := sc.slots + {s})) else None
    case Binary(dest, op, l, r) =>
      if BinaryOk(x, sc, dest, op, l, r) then Some(Define(sc, dest)) else None
    case Assert(c) =>
      if Has(x, sc, c, KBool) then Some(sc) else None
  }

  function CheckIf(x: Setting, inst: Inst, sc: Scope, active: set<ValueId>): (r: Option<Scope>)
    requires inst.If?
    ensures r.Some? ==> sc.values <= r.value.values && sc.slots <= r.value.slots
    decreases inst, 0
  {
    var t := CheckSeq(x, inst.thenInsts, sc, active);
    var e := CheckSeq(x, inst.elseInsts, sc, active);
    if && Has(x, sc, inst.condition, KBool) && inst.dest in x.sig.values
       && Fresh(x, sc, inst.dest, x.sig.values[inst.dest]) && t.Some? && e.Some?
       && BranchOk(x, t.value, inst.dest, inst.thenResult) && BranchOk(x, e.value, inst.dest, inst.elseResult)
    then Some(Scope(sc.values + {inst.dest}, t.value.slots * e.value.slots)) else None
  }

  function CheckWhile(x: Setting, inst: Inst, sc: Scope, active: set<ValueId>): (r: Option<Scope>)
    requires inst.While?
    ensures r.Some? ==> sc.values <= r.value.values && sc.slots <= r.value.slots
    decreases inst, 0
  {
    var t := CheckSeq(x, inst.condInsts, sc, active);
    if t.Some? && Has(x, t.value, inst.condition, KBool) && Fresh(x, sc, inst.dest, KUnit)
       && CheckSeq(x, inst.body, t.value, active).Some?
    then Some(Scope(sc.values + {inst.dest}, t.value.slots)) else None
  }

  function CheckRepeat(x: Setting, inst: Inst, sc: Scope, active: set<ValueId>): (r: Option<Scope>)
    requires inst.Repeat?
    ensures r.Some? ==> sc.values <= r.value.values && sc.slots <= r.value.slots
    decreases inst, 0
  {
    if Has(x, sc, inst.count, KInt) && inst.count !in active && Fresh(x, sc, inst.dest, KUnit)
       && (inst.indexSlot.Some? ==> inst.indexSlot.value !in sc.slots && SlotKind(x, inst.indexSlot.value, KInt))
       && CheckSeq(x, inst.body, RepeatScope(sc, inst.indexSlot), active + {inst.count}).Some?
    then Some(Define(sc, inst.dest)) else None
  }

  function RepeatScope(sc: Scope, slot: Option<SlotId>): Scope {
    if slot.Some? then sc.(slots := sc.slots + {slot.value}) else sc
  }

  function SettingOf(sigs: Sigs, fn: Function): Setting
    requires fn.name in sigs
  {
    Setting(sigs[fn.name], sigs, fn.valueCount, fn.slotCount)
  }

  predicate FunctionOk(sigs: Sigs, fn: Function) {
    && fn.name in sigs
    && var x := SettingOf(sigs, fn);
       var sc := CheckSeq(x, fn.body, Scope({}, {}), {});
       && sc.Some?
       && (forall i :: 0 <= i < |x.sig.params| ==> x.sig.params[i] != KUnit)
       && (if x.sig.result == KUnit then fn.result.None?
           else fn.result.Some? && Has(x, sc.value, fn.result.value, x.sig.result))
  }

  /** Every signature is that of a well-formed function of the program. */
  predicate ProgramOk(p: Program, sigs: Sigs) {
    && sigs.Keys == FunctionNames(p.functions)
    && forall fn {:trigger FunctionOk(sigs, fn)} :: fn in p.functions ==> FunctionOk(sigs, fn)
  }
}
