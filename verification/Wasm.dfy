/** The WebAssembly fragment that the back end emits: structured control with branch labels
    (section 4.4.5 of the WebAssembly Core Specification 1.0), 64-bit arithmetic and locals. */
module Wasm {
  import Bits
  import Mir

  /** The four families of locals in an emitted function. */
  datatype Local = Param(index: nat) | Reg(value: nat) | Slot(slot: nat) | Counter(count: nat)

  datatype Operand = I32(bits: nat) | I64(n: int)

  datatype Instr =
    | I64Const(n: int)
    | LocalGet(x: Local)
    | LocalSet(x: Local)
    | LocalTee(x: Local)
    | I64Arith(op: Mir.BinOp)
    | I64Compare(op: Mir.BinOp)
    | I64ExtendI32U
    | I32WrapI64
    | I32Eqz
    | Drop
    | Unreachable
    | Br(depth: nat)
    | BrIf(depth: nat)
    | Block(body: seq<Instr>)
    | Loop(body: seq<Instr>)
    | If(hasResult: bool, thenCode: seq<Instr>, elseCode: seq<Instr>)
    | Call(callee: string)

  datatype Func = Func(params: nat, hasResult: bool, body: seq<Instr>)

  type Module = map<string, Func>

  datatype State = State(locals: map<Local, int>, stack: seq<Operand>)

  /** `Jump` is a branch on its way to its label; `Invalid` is code that validation rejects. */
  datatype Result = Normal(s: State) | Jump(depth: nat, s: State) | Trap | Timeout | Invalid

  /** Declared locals start at zero. */
  function Read(locals: map<Local, int>, x: Local): int {
    if x in locals then locals[x] else 0
  }

  function Top(s: State): Operand
    requires |s.stack| > 0
  {
    s.stack[|s.stack| - 1]
  }

  function Pop(s: State, n: nat): State
    requires n <= |s.stack|
  {
    s.(stack := s.stack[..|s.stack| - n])
  }

  function Push(s: State, x: Operand): State {
    s.(stack := s.stack + [x])
  }

  predicate OneI64(s: State) {
    |s.stack| >= 1 && Top(s).I64?
  }

  predicate TwoI64(s: State) {
    |s.stack| >= 2 && Top(s).I64? && s.stack[|s.stack| - 2].I64?
  }

  predicate AllI64(xs: seq<Operand>) {
    forall k :: 0 <= k < |xs| ==> xs[k].I64?
  }

  // ---- Integer operations -----------------------------------------------------------------

  function Unsigned64(n: int): nat {
    n % 0x1_0000_0000_0000_0000
  }

  function Arith(op: Mir.BinOp, a: int, b: int): (r: Mir.Option<int>) {
    match op
    case Add => Mir.Some(Mir.Wrap64(a + b))
    case Sub => Mir.Some(Mir.Wrap64(a - b))
    case Mul => Mir.Some(Mir.Wrap64(a * b))
    case Div =>
      if b == 0 || (a == Mir.I64_MIN && b == -1) then Mir.None else Mir.Some(Mir.TruncDiv(a, b))
    case Rem =>
      if b == 0 then Mir.None
      else if a == Mir.I64_MIN && b == -1 then Mir.Some(0)
      else Mir.Some(Mir.TruncRem(a, b))
    case And => Mir.Some(Mir.Wrap64(Bits.BitAnd(Unsigned64(a), Unsigned64(b))))
    case Or => Mir.Some(Mir.Wrap64(Bits.BitOr(Unsigned64(a), Unsigned64(b))))
    case _ => Mir.None
  }

  predicate Compare(op: Mir.BinOp, a: int, b: int) {
    match op
    case Eq => a == b
    case Ne => a != b
    case Lt => a < b
    case Le => a <= b
    case Gt => a > b
    case Ge => a >= b
    case _ => false
  }

  // ---- Execution --------------------------------------------------------------------------

  /** Instructions that neither branch, nest nor call. */
  function RunPlain(i: Instr, s: State): Result
    requires !i.Block? && !i.Loop? && !i.If? && !i.Call?
  {
    match i
    case I64Const(n) => Normal(Push(s, I64(n)))
    case LocalGet(x) => Normal(Push(s, I64(Read(s.locals, x))))
    case LocalSet(x) =>
      if !OneI64(s) then Invalid else Normal(Pop(s, 1).(locals := s.locals[x := Top(s).n]))
    case LocalTee(x) =>
      if !OneI64(s) then Invalid else Normal(s.(locals := s.locals[x := Top(s).n]))
    case I64Arith(op) =>
      if !TwoI64(s) then Invalid else
      var r := Arith(op, s.stack[|s.stack| - 2].n, Top(s).n);
      if r.None? then Trap else Normal(Push(Pop(s, 2), I64(r.value)))
    case I64Compare(op) =>
      if !TwoI64(s) then Invalid else
      Normal(Push(Pop(s, 2), I32(if Compare(op, s.stack[|s.stack| - 2].n, Top(s).n) then 1 else 0)))
    case I64ExtendI32U =>
      if |s.stack| == 0 || !Top(s).I32? then Invalid else Normal(Push(Pop(s, 1), I64(Top(s).bits)))
    case I32WrapI64 =>
      if !OneI64(s) then Invalid else Normal(Push(Pop(s, 1), I32(Top(s).n % 0x1_0000_0000)))
    case I32Eqz =>
      if |s.stack| == 0 || !Top(s).I32? then Invalid
      else Normal(Push(Pop(s, 1), I32(if Top(s).bits == 0 then 1 else 0)))
    case Drop => if |s.stack| == 0 then Invalid else Normal(Pop(s, 1))
    case Unreachable => Trap
    case Br(n) => Jump(n, s)
    case BrIf(n) =>
      if |s.stack| == 0 || !Top(s).I32? then Invalid
      else if Top(s).bits != 0 then Jump(n, Pop(s, 1)) else Normal(Pop(s, 1))
  }

  /** Leaving a block: fall through or branch to its end with `arity` results, or keep jumping. */
  function Leave(r: Result, outer: seq<Operand>, arity: nat): Result {
    match r
    case Normal(s) => if |s.stack| == arity then Normal(State(s.locals, outer + s.stack)) else Invalid
    case Jump(n, s) =>
      if n > 0 then Jump(n - 1, State(s.locals, s.stack))
      else if |s.stack| >= arity then Normal(State(s.locals, outer + s.stack[|s.stack| - arity..]))
      else Invalid
    case _ => r
  }

  function RunSeq(m: Module, code: seq<Instr>, s: State, fuel: nat): Result
    decreases fuel, code, 0
  {
    if code == [] then Normal(s) else
    var r := RunInstr(m, code[0], s, fuel);
    if r.Normal? then RunSeq(m, code[1..], r.s, fuel) else r
  }

  function RunInstr(m: Module, i: Instr, s: State, fuel: nat): Result
    decreases fuel, i, 1
  {
    if i.Block? then
      Leave(RunSeq(m, i.body, State(s.locals, []), fuel), s.stack, 0)
    else if i.Loop? then
      RunLoop(m, i, s, fuel)
    else if i.If? then
      if |s.stack| == 0 || !Top(s).I32? then Invalid else
      var code := if Top(s).bits != 0 then i.thenCode else i.elseCode;
      Leave(RunSeq(m, code, State(s.locals, []), fuel), Pop(s, 1).stack, if i.hasResult then 1 else 0)
    else if i.Call? then
      if i.callee !in m || |s.stack| < m[i.callee].params then Invalid else
      var f := m[i.callee];
      var args := s.stack[|s.stack| - f.params..];
      if !AllI64(args) then Invalid
      else if fuel == 0 then Timeout else
      Leave(Forget(RunSeq(m, f.body, State(Params(args), []), fuel - 1), s.locals),
            Pop(s, f.params).stack, if f.hasResult then 1 else 0)
    else
      RunPlain(i, s)
  }

  /** A branch to a loop's label starts its next iteration. */
  function RunLoop(m: Module, i: Instr, s: State, fuel: nat): Result
    requires i.Loop?
    decreases fuel, i, 0
  {
    var r := RunSeq(m, i.body, State(s.locals, []), fuel);
    if r.Jump? && r.depth == 0 then
      if fuel == 0 then Timeout else RunLoop(m, i, State(r.s.locals, s.stack), fuel - 1)
    else Leave(r, s.stack, 0)
  }

  /** A callee's locals end with its frame. */
  function Forget(r: Result, locals: map<Local, int>): Result {
    match r
    case Normal(s) => Normal(s.(locals := locals))
    case Jump(n, s) => if n == 0 then Jump(0, s.(locals := locals)) else Invalid
    case _ => r
  }

  function Params(args: seq<Operand>): map<Local, int>
    requires AllI64(args)
  {
    map i: nat | i < |args| :: Param(i) := args[i].n
  }

  // ---- Code is composed by concatenation ---------------------------------------------------

  lemma {:induction false} RunConcat(m: Module, a: seq<Instr>, b: seq<Instr>, s: State, fuel: nat)
    ensures var r := RunSeq(m, a, s, fuel);
            RunSeq(m, a + b, s, fuel) == if r.Normal? then RunSeq(m, b, r.s, fuel) else r
    decreases a
  {
    if a == [] {
      assert a + b == b;
    } else {
      assert (a + b)[0] == a[0] && (a + b)[1..] == a[1..] + b;
      var r := RunInstr(m, a[0], s, fuel);
      if r.Normal? { RunConcat(m, a[1..], b, r.s, fuel); }
    }
  }

  lemma RunCons(m: Module, i: Instr, rest: seq<Instr>, s: State, fuel: nat)
    ensures var r := RunInstr(m, i, s, fuel);
            RunSeq(m, [i] + rest, s, fuel) == if r.Normal? then RunSeq(m, rest, r.s, fuel) else r
  {
    assert ([i] + rest)[1..] == rest;
  }
}
