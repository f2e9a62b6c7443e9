/** The emitted WebAssembly computes what the MIR interpreter computes.  Both machines spend
    their step budget on loop back edges and calls only, so the correspondence is step for step:
    same results, same traps, and the same runs that go on forever. */
module WasmCorrectness {
  import opened Mir
  import opened WasmLowering
  import Bits
  import W = Wasm

  // ---- The correspondence -------------------------------------------------------------------

  predicate HasKind(v: Value, k: Kind) {
    match k
    case KUnit => true
    case KInt => v.Int? && IsI64(v.n)
    case KBool => v.Bool?
  }

  /** The 64-bit word that stands for a scalar. */
  function Word(v: Value): int {
    match v
    case Int(n) => n
    case Bool(b) => if b then 1 else 0
    case _ => 0
  }

  predicate Holds(v: Value, k: Kind, word: int) {
    HasKind(v, k) && (k != KUnit ==> word == Word(v))
  }

  type Locals = map<W.Local, int>

  /** A place in a function: its setting, arguments, scope and enclosing counted loops. */
  datatype Place = Place(x: Setting, args: seq<Value>, sc: Scope, active: set<ValueId>)

  ghost predicate Related(pl: Place, f: Frame, l: Locals) {
    && pl.x.valueCount <= |f.values| && pl.x.slotCount <= |f.slots|
    && (forall v :: v in pl.sc.values ==>
          v < pl.x.valueCount && v in pl.x.sig.values && Holds(f.values[v], pl.x.sig.values[v], W.Read(l, W.Reg(v))))
    && (forall s :: s in pl.sc.slots ==>
          s < pl.x.slotCount && s in pl.x.sig.slots && Holds(f.slots[s], pl.x.sig.slots[s], W.Read(l, W.Slot(s))))
    && |pl.args| == |pl.x.sig.params|
    && (forall i :: 0 <= i < |pl.args| ==> Holds(pl.args[i], pl.x.sig.params[i], W.Read(l, W.Param(i))))
  }

  /** What a well-formed block leaves alone: frame sizes, registers in scope, active counters. */
  ghost predicate Kept(pl: Place, f: Frame, l: Locals, g: Frame, n: Locals) {
    && |g.values| == |f.values| && |g.slots| == |f.slots|
    && (forall v :: v in pl.sc.values && v < |f.values| ==> g.values[v] == f.values[v])
    && (forall c :: c in pl.active ==> W.Read(n, W.Counter(c)) == W.Read(l, W.Counter(c)))
  }

  ghost predicate Finished(pl: Place, after: Scope, f: Frame, l: Locals, g: Frame, n: Locals) {
    Related(pl.(sc := after), g, n) && Kept(pl, f, l, g, n)
  }

  /** The faults of well-formed code; each stops the WebAssembly machine with a trap, except the
      one remainder that WebAssembly defines and the interpreter does not. */
  predicate Traps(e: Fault) {
    e.AssertFailed? || e.DivisionByZero? || e.DivisionOverflow?
  }

  /** Interpreter outcome `r` against machine result `w`; code falls through with its stack. */
  ghost predicate Agree(pl: Place, after: Scope, f: Frame, l: Locals, stack: seq<W.Operand>, r: Outcome<Frame>,
                        w: W.Result) {
    match r
    case Done(g) => w.Normal? && w.s.stack == stack && Finished(pl, after, f, l, g, w.s.locals)
    case OutOfFuel => w == W.Timeout
    case Failed(e) => e.RemainderOverflow? || (Traps(e) && w == W.Trap)
  }

  // ---- Straight-line code ---------------------------------------------------------------------

  lemma Run2(m: W.Module, a: W.Instr, b: W.Instr, s: W.State, fuel: nat)
    ensures var r := W.RunInstr(m, a, s, fuel);
            W.RunSeq(m, [a, b], s, fuel) == if r.Normal? then W.RunInstr(m, b, r.s, fuel) else r
  {
    assert [a, b] == [a] + [b] && [b] == [b] + [];
    W.RunCons(m, a, [b], s, fuel);
    var r := W.RunInstr(m, a, s, fuel);
    if r.Normal? { W.RunCons(m, b, [], r.s, fuel); }
  }

  lemma Run1(m: W.Module, a: W.Instr, s: W.State, fuel: nat)
    ensures W.RunSeq(m, [a], s, fuel) == W.RunInstr(m, a, s, fuel)
  {
    assert [a] == [a] + [];
    W.RunCons(m, a, [], s, fuel);
  }

  /** Two reads leave both words on the stack. */
  lemma RunGets(m: W.Module, a: W.Local, b: W.Local, rest: seq<W.Instr>, s: W.State, fuel: nat)
    ensures W.RunSeq(m, [W.LocalGet(a), W.LocalGet(b)] + rest, s, fuel)
         == W.RunSeq(m, rest, W.State(s.locals, s.stack + [W.I64(W.Read(s.locals, a)), W.I64(W.Read(s.locals, b))]),
                     fuel)
  {
    assert [W.LocalGet(a), W.LocalGet(b)] + rest == [W.LocalGet(a)] + ([W.LocalGet(b)] + rest);
    W.RunCons(m, W.LocalGet(a), [W.LocalGet(b)] + rest, s, fuel);
    var t := W.Push(s, W.I64(W.Read(s.locals, a)));
    W.RunCons(m, W.LocalGet(b), rest, t, fuel);
    assert t.stack + [W.I64(W.Read(s.locals, b))]
        == s.stack + [W.I64(W.Read(s.locals, a)), W.I64(W.Read(s.locals, b))];
  }

  /** `x` is read and stored to `y`. */
  lemma RunMove(m: W.Module, x: W.Local, y: W.Local, s: W.State, fuel: nat)
    ensures W.RunSeq(m, [W.LocalGet(x), W.LocalSet(y)], s, fuel)
         == W.Normal(s.(locals := s.locals[y := W.Read(s.locals, x)]))
  {
    Run2(m, W.LocalGet(x), W.LocalSet(y), s, fuel);
    assert (s.stack + [W.I64(W.Read(s.locals, x))])[..|s.stack|] == s.stack;
  }

  lemma RunConst(m: W.Module, n: int, y: W.Local, s: W.State, fuel: nat)
    ensures W.RunSeq(m, [W.I64Const(n), W.LocalSet(y)], s, fuel) == W.Normal(s.(locals := s.locals[y := n]))
  {
    Run2(m, W.I64Const(n), W.LocalSet(y), s, fuel);
    assert (s.stack + [W.I64(n)])[..|s.stack|] == s.stack;
  }

  /** A flag register is brought to the stack as a 32-bit word. */
  lemma RunFlag(m: W.Module, c: ValueId, rest: seq<W.Instr>, s: W.State, fuel: nat)
    requires 0 <= W.Read(s.locals, W.Reg(c)) <= 1
    ensures W.RunSeq(m, [W.LocalGet(W.Reg(c)), W.I32WrapI64] + rest, s, fuel)
         == W.RunSeq(m, rest, W.Push(s, W.I32(W.Read(s.locals, W.Reg(c)))), fuel)
  {
    var word := W.Read(s.locals, W.Reg(c));
    assert [W.LocalGet(W.Reg(c)), W.I32WrapI64] + rest == [W.LocalGet(W.Reg(c))] + ([W.I32WrapI64] + rest);
    W.RunCons(m, W.LocalGet(W.Reg(c)), [W.I32WrapI64] + rest, s, fuel);
    var t := W.Push(s, W.I64(word));
    WrapFlag(m, word, s, fuel);
    W.RunCons(m, W.I32WrapI64, rest, t, fuel);
  }

  lemma WrapFlag(m: W.Module, word: nat, s: W.State, fuel: nat)
    requires word <= 1
    ensures W.RunInstr(m, W.I32WrapI64, W.Push(s, W.I64(word)), fuel) == W.Normal(W.Push(s, W.I32(word)))
  {
    assert W.Push(s, W.I64(word)).stack[..|s.stack|] == s.stack;
  }

  /** ... and negated. */
  lemma RunNotFlag(m: W.Module, c: ValueId, rest: seq<W.Instr>, s: W.State, fuel: nat)
    requires 0 <= W.Read(s.locals, W.Reg(c)) <= 1
    ensures W.RunSeq(m, [W.LocalGet(W.Reg(c)), W.I32WrapI64, W.I32Eqz] + rest, s, fuel)
         == W.RunSeq(m, rest, W.Push(s, W.I32(1 - W.Read(s.locals, W.Reg(c)))), fuel)
  {
    assert [W.LocalGet(W.Reg(c)), W.I32WrapI64, W.I32Eqz] + rest
        == [W.LocalGet(W.Reg(c)), W.I32WrapI64] + ([W.I32Eqz] + rest);
    RunFlag(m, c, [W.I32Eqz] + rest, s, fuel);
    var t := W.Push(s, W.I32(W.Read(s.locals, W.Reg(c))));
    NegateFlag(m, W.Read(s.locals, W.Reg(c)), s, fuel);
    W.RunCons(m, W.I32Eqz, rest, t, fuel);
  }

  lemma NegateFlag(m: W.Module, word: nat, s: W.State, fuel: nat)
    requires word <= 1
    ensures W.RunInstr(m, W.I32Eqz, W.Push(s, W.I32(word)), fuel) == W.Normal(W.Push(s, W.I32(1 - word)))
  {
    assert W.Push(s, W.I32(word)).stack[..|s.stack|] == s.stack;
  }

  // ---- Writing a register or a slot -----------------------------------------------------------

  lemma DefineRegister(pl: Place, f: Frame, l: Locals, dest: ValueId, v: Value, word: int)
    requires Related(pl, f, l) && dest in pl.x.sig.values && Fresh(pl.x, pl.sc, dest, pl.x.sig.values[dest])
    requires Holds(v, pl.x.sig.values[dest], word)
    ensures Put(f, dest, v).Done?
    ensures Finished(pl, Define(pl.sc, dest), f, l, Put(f, dest, v).value, l[W.Reg(dest) := word])
  {
  }

  lemma DefineSlot(pl: Place, f: Frame, l: Locals, s: SlotId, v: Value, word: int)
    requires Related(pl, f, l) && s in pl.x.sig.slots && SlotKind(pl.x, s, pl.x.sig.slots[s])
    requires Holds(v, pl.x.sig.slots[s], word)
    ensures SetSlot(f, s, v).Done?
    ensures Finished(pl, pl.sc.(slots := pl.sc.slots + {s}), f, l, SetSlot(f, s, v).value, l[W.Slot(s) := word])
  {
  }

  // ---- Arithmetic -----------------------------------------------------------------------------

  lemma FlagLogic(a: nat, b: nat)
    requires a <= 1 && b <= 1
    ensures W.Arith(And, a, b) == Some(if a == 1 && b == 1 then 1 else 0)
    ensures W.Arith(Or, a, b) == Some(if a == 1 || b == 1 then 1 else 0)
  {
    assert W.Unsigned64(0) == 0 && W.Unsigned64(1) == 1;
    assert Bits.BitAnd(1, 1) == 1 && Bits.BitOr(1, 1) == 1;
  }

  lemma ProductBound(q: nat, n: nat, r: nat)
    requires n > 0
    ensures q <= q * n + r && (n > 1 && q * n + r > 0 ==> q < q * n + r)
  {
    if n > 1 {
      assert q * n == q + q * (n - 1);
      assert q * (n - 1) >= q by { MulAtLeast(q, n - 1); }
    }
  }

  lemma MulAtLeast(q: nat, k: nat)
    requires k > 0
    ensures q * k >= q
  {
  }

  lemma QuotientBound(m: nat, n: nat)
    requires n > 0
    ensures m / n <= m && m % n <= m && (n > 1 && m > 0 ==> m / n < m)
  {
    ProductBound(m / n, n, m % n);
  }

  lemma QuotientRange(a: int, b: int)
    requires IsI64(a) && IsI64(b) && b != 0 && !(a == I64_MIN && b == -1)
    ensures IsI64(TruncDiv(a, b)) && IsI64(TruncRem(a, b))
  {
    QuotientBound(Abs(a), Abs(b));
    assert Abs(a) % Abs(b) < Abs(b);
  }

  /** The machine's 64-bit operations against the interpreter's, operation by operation.  They
      differ on exactly one input: the remainder of the least integer by minus one. */
  lemma BinaryAgrees(op: BinOp, a: Value, b: Value)
    requires if op.And? || op.Or? then a.Bool? && b.Bool? else a.Int? && b.Int? && IsI64(a.n) && IsI64(b.n)
    requires op.Add? || op.Sub? || op.Mul? || op.Div? || op.Rem? || op.And? || op.Or?
    ensures var r, w := EvalBinary(op, a, b), W.Arith(op, Word(a), Word(b));
            match r
            case Done(v) => w == Some(Word(v)) && (if op.And? || op.Or? then v.Bool? else v.Int? && IsI64(v.n))
            case Failed(e) => if e.RemainderOverflow? then w == Some(0) && op.Rem? && a.n == I64_MIN && b.n == -1
                              else Traps(e) && w.None?
            case OutOfFuel => false
  {
    if op.And? || op.Or? {
      FlagLogic(Word(a), Word(b));
    } else if (op.Div? || op.Rem?) && b.n != 0 && !(a.n == I64_MIN && b.n == -1) {
      QuotientRange(a.n, b.n);
    }
  }

  // ---- Instructions without blocks ------------------------------------------------------------

  /** What both machines leave for a quotient and a remainder: truncation towards zero, and a
      remainder that is smaller than the divisor and has the sign of the dividend. */
  lemma QuotientAndRemainder(a: int, b: int)
    requires IsI64(a) && IsI64(b) && b != 0 && !(a == -0x8000_0000_0000_0000 && b == -1)
    ensures var q, r := W.Arith(Div, a, b), W.Arith(Rem, a, b);
            && q.Some? && r.Some?
            && EvalBinary(Div, Int(a), Int(b)) == Done(Int(q.value))
            && EvalBinary(Rem, Int(a), Int(b)) == Done(Int(r.value))
            && a == q.value * b + r.value
            && (if b > 0 then -b < r.value < b else b < r.value < -b)
            && (r.value > 0 ==> a > 0) && (r.value < 0 ==> a < 0)
  {
    TruncationLaw(a, b);
    BinaryAgrees(Div, Int(a), Int(b));
    BinaryAgrees(Rem, Int(a), Int(b));
  }

  /** Sums, differences and products are right up to multiples of 2^64, and in range. */
  lemma ModularArithmetic(a: int, b: int)
    requires IsI64(a) && IsI64(b)
    ensures forall op :: op in {Add, Sub, Mul} ==>
              && W.Arith(op, a, b).Some? && IsI64(W.Arith(op, a, b).value)
              && EvalBinary(op, Int(a), Int(b)) == Done(Int(W.Arith(op, a, b).value))
    ensures (W.Arith(Add, a, b).value - (a + b)) % 0x1_0000_0000_0000_0000 == 0
    ensures (W.Arith(Sub, a, b).value - (a - b)) % 0x1_0000_0000_0000_0000 == 0
    ensures (W.Arith(Mul, a, b).value - a * b) % 0x1_0000_0000_0000_0000 == 0
  {
  }

  /** The order of two integers, as both machines see it. */
  lemma OrderOfIntegers(a: int, b: int)
    requires IsI64(a) && IsI64(b)
    ensures W.Compare(Lt, a, b) == (a < b) && EvalBinary(Lt, Int(a), Int(b)) == Done(Bool(a < b))
    ensures W.Compare(Le, a, b) == (a < b || a == b) && EvalBinary(Le, Int(a), Int(b)) == Done(Bool(a < b || a == b))
    ensures W.Compare(Gt, a, b) == (b < a) && EvalBinary(Gt, Int(a), Int(b)) == Done(Bool(b < a))
    ensures W.Compare(Ge, a, b) == !(a < b) && EvalBinary(Ge, Int(a), Int(b)) == Done(Bool(!(a < b)))
    ensures W.Compare(Eq, a, b) == (a == b) && EvalBinary(Eq, Int(a), Int(b)) == Done(Bool(a == b))
    ensures W.Compare(Ne, a, b) == !(a == b) && EvalBinary(Ne, Int(a), Int(b)) == Done(Bool(!(a == b)))
  {
  }

  ghost function Stored(r: Option<int>, dest: ValueId, l: Locals, stack: seq<W.Operand>): W.Result {
    if r.None? then W.Trap else W.Normal(W.State(l[W.Reg(dest) := r.value], stack))
  }

  lemma RunArith(m: W.Module, op: BinOp, a: int, b: int, dest: ValueId, l: Locals, stack: seq<W.Operand>, fuel: nat)
    ensures W.RunSeq(m, [W.I64Arith(op), W.LocalSet(W.Reg(dest))], W.State(l, stack + [W.I64(a), W.I64(b)]), fuel)
         == Stored(W.Arith(op, a, b), dest, l, stack)
  {
    var s := W.State(l, stack + [W.I64(a), W.I64(b)]);
    Run2(m, W.I64Arith(op), W.LocalSet(W.Reg(dest)), s, fuel);
    assert s.stack[..|s.stack| - 2] == stack;
    var r := W.Arith(op, a, b);
    if r.Some? { assert (stack + [W.I64(r.value)])[..|stack|] == stack; }
  }

  lemma RunCompare(m: W.Module, op: BinOp, a: int, b: int, dest: ValueId, l: Locals, stack: seq<W.Operand>, fuel: nat)
    ensures W.RunSeq(m, [W.I64Compare(op), W.I64ExtendI32U, W.LocalSet(W.Reg(dest))],
                     W.State(l, stack + [W.I64(a), W.I64(b)]), fuel)
         == W.Normal(W.State(l[W.Reg(dest) := if W.Compare(op, a, b) then 1 else 0], stack))
  {
    var s := W.State(l, stack + [W.I64(a), W.I64(b)]);
    var bit := if W.Compare(op, a, b) then 1 else 0;
    assert [W.I64Compare(op), W.I64ExtendI32U, W.LocalSet(W.Reg(dest))]
        == [W.I64Compare(op)] + [W.I64ExtendI32U, W.LocalSet(W.Reg(dest))];
    W.RunCons(m, W.I64Compare(op), [W.I64ExtendI32U, W.LocalSet(W.Reg(dest))], s, fuel);
    assert s.stack[..|s.stack| - 2] == stack;
    var t := W.State(l, stack + [W.I32(bit)]);
    Run2(m, W.I64ExtendI32U, W.LocalSet(W.Reg(dest)), t, fuel);
    assert t.stack[..|stack|] == stack && (stack + [W.I64(bit)])[..|stack|] == stack;
  }

  predicate IsArith(op: BinOp) {
    op.Add? || op.Sub? || op.Mul? || op.Div? || op.Rem? || op.And? || op.Or?
  }

  lemma RunBinary(m: W.Module, dest: ValueId, op: BinOp, left: ValueId, right: ValueId, l: Locals,
                  stack: seq<W.Operand>, fuel: nat)
    ensures var a, b := W.Read(l, W.Reg(left)), W.Read(l, W.Reg(right));
      W.RunSeq(m, EmitBinary(dest, op, left, right), W.State(l, stack), fuel)
      == Stored(if IsArith(op) then W.Arith(op, a, b) else Some(if W.Compare(op, a, b) then 1 else 0), dest, l, stack)
  {
    var a, b := W.Read(l, W.Reg(left)), W.Read(l, W.Reg(right));
    var rest := if IsArith(op) then [W.I64Arith(op), W.LocalSet(W.Reg(dest))]
                else [W.I64Compare(op), W.I64ExtendI32U, W.LocalSet(W.Reg(dest))];
    assert EmitBinary(dest, op, left, right) == [W.LocalGet(W.Reg(left)), W.LocalGet(W.Reg(right))] + rest;
    RunGets(m, W.Reg(left), W.Reg(right), rest, W.State(l, stack), fuel);
    RunArith(m, op, a, b, dest, l, stack, fuel);
    RunCompare(m, op, a, b, dest, l, stack, fuel);
  }

  /** A comparison of two scalars of one kind. */
  lemma CompareAgrees(op: BinOp, a: Value, b: Value)
    requires !IsArith(op)
    requires (a.Int? && b.Int?) || (a.Bool? && b.Bool? && (op.Eq? || op.Ne?))
    ensures EvalBinary(op, a, b) == Done(Bool(W.Compare(op, Word(a), Word(b))))
  {
  }

  ghost function BinaryOutcome(f: Frame, dest: ValueId, op: BinOp, left: ValueId, right: ValueId): Outcome<Frame>
    requires left < |f.values| && right < |f.values|
  {
    var v :- EvalBinary(op, f.values[left], f.values[right]);
    Put(f, dest, v)
  }

  lemma BinaryInstAgrees(m: W.Module, pl: Place, dest: ValueId, op: BinOp, left: ValueId, right: ValueId,
                         f: Frame, l: Locals, stack: seq<W.Operand>, fuel: nat)
    requires BinaryOk(pl.x, pl.sc, dest, op, left, right) && Related(pl, f, l)
    ensures Agree(pl, Define(pl.sc, dest), f, l, stack, BinaryOutcome(f, dest, op, left, right),
                  W.RunSeq(m, EmitBinary(dest, op, left, right), W.State(l, stack), fuel))
  {
    var a, b := f.values[left], f.values[right];
    RunBinary(m, dest, op, left, right, l, stack, fuel);
    if IsArith(op) {
      BinaryAgrees(op, a, b);
    } else {
      CompareAgrees(op, a, b);
    }
    var r := EvalBinary(op, a, b);
    if r.Done? { DefineRegister(pl, f, l, dest, r.value, Word(r.value)); }
  }

  lemma AssertAgrees(m: W.Module, pl: Place, c: ValueId, f: Frame, l: Locals, stack: seq<W.Operand>, fuel: nat)
    requires Has(pl.x, pl.sc, c, KBool) && Related(pl, f, l)
    ensures Agree(pl, pl.sc, f, l, stack, if f.values[c].b then Done(f) else Failed(AssertFailed),
                  W.RunSeq(m, [W.LocalGet(W.Reg(c)), W.I32WrapI64, W.I32Eqz, W.If(false, [W.Unreachable], [])],
                           W.State(l, stack), fuel))
  {
    RunAssert(m, c, l, stack, fuel);
  }

  /** The emitted assertion falls through on one and traps on zero. */
  lemma RunAssert(m: W.Module, c: ValueId, l: Locals, stack: seq<W.Operand>, fuel: nat)
    requires 0 <= W.Read(l, W.Reg(c)) <= 1
    ensures W.RunSeq(m, [W.LocalGet(W.Reg(c)), W.I32WrapI64, W.I32Eqz, W.If(false, [W.Unreachable], [])],
                     W.State(l, stack), fuel)
         == if W.Read(l, W.Reg(c)) == 0 then W.Trap else W.Normal(W.State(l, stack))
  {
    var s := W.State(l, stack);
    var test := W.If(false, [W.Unreachable], []);
    assert [W.LocalGet(W.Reg(c)), W.I32WrapI64, W.I32Eqz, test]
        == [W.LocalGet(W.Reg(c)), W.I32WrapI64, W.I32Eqz] + [test];
    RunNotFlag(m, c, [test], s, fuel);
    var t := W.Push(s, W.I32(1 - W.Read(l, W.Reg(c))));
    Run1(m, test, t, fuel);
    assert t.stack[..|stack|] == stack;
    Run1(m, W.Unreachable, W.State(l, []), fuel);
  }

  lemma ConstAgrees(m: W.Module, pl: Place, dest: ValueId, v: Value, word: int, f: Frame, l: Locals,
                    stack: seq<W.Operand>, fuel: nat)
    requires Related(pl, f, l) && dest in pl.x.sig.values && Fresh(pl.x, pl.sc, dest, pl.x.sig.values[dest])
    requires Holds(v, pl.x.sig.values[dest], word)
    ensures Agree(pl, Define(pl.sc, dest), f, l, stack, Put(f, dest, v),
                  W.RunSeq(m, [W.I64Const(word), W.LocalSet(W.Reg(dest))], W.State(l, stack), fuel))
  {
    RunConst(m, word, W.Reg(dest), W.State(l, stack), fuel);
    DefineRegister(pl, f, l, dest, v, word);
  }

  lemma CopyAgrees(m: W.Module, pl: Place, dest: ValueId, v: Value, from: W.Local, f: Frame, l: Locals,
                   stack: seq<W.Operand>, fuel: nat)
    requires Related(pl, f, l) && dest in pl.x.sig.values && Fresh(pl.x, pl.sc, dest, pl.x.sig.values[dest])
    requires Holds(v, pl.x.sig.values[dest], W.Read(l, from))
    ensures Agree(pl, Define(pl.sc, dest), f, l, stack, Put(f, dest, v),
                  W.RunSeq(m, [W.LocalGet(from), W.LocalSet(W.Reg(dest))], W.State(l, stack), fuel))
  {
    RunMove(m, from, W.Reg(dest), W.State(l, stack), fuel);
    DefineRegister(pl, f, l, dest, v, W.Read(l, from));
  }

  lemma StoreAgrees(m: W.Module, pl: Place, slot: SlotId, src: ValueId, f: Frame, l: Locals, stack: seq<W.Operand>,
                    fuel: nat)
    requires Related(pl, f, l) && src in pl.sc.values && YieldsValue(pl.x.sig, src)
    requires SlotKind(pl.x, slot, pl.x.sig.values[src])
    ensures Agree(pl, pl.sc.(slots := pl.sc.slots + {slot}), f, l, stack, SetSlot(f, slot, f.values[src]),
                  W.RunSeq(m, [W.LocalGet(W.Reg(src)), W.LocalSet(W.Slot(slot))], W.State(l, stack), fuel))
  {
    RunMove(m, W.Reg(src), W.Slot(slot), W.State(l, stack), fuel);
    DefineSlot(pl, f, l, slot, f.values[src], W.Read(l, W.Reg(src)));
  }

  lemma MoveInstAgrees(m: W.Module, p: Program, pl: Place, inst: Inst, f: Frame, l: Locals, stack: seq<W.Operand>,
                       fuel: nat)
    requires IsScalarInst(inst) && !inst.Binary? && !inst.Assert?
    requires CheckScalar(pl.x, inst, pl.sc).Some? && Related(pl, f, l)
    ensures Agree(pl, CheckScalar(pl.x, inst, pl.sc).value, f, l, stack,
                  ExecSimple(p, pl.args, inst, f), W.RunSeq(m, EmitScalar(inst), W.State(l, stack), fuel))
  {
    match inst
    case ConstInt(dest, n) => ConstAgrees(m, pl, dest, Int(n), n, f, l, stack, fuel);
    case ConstBool(dest, b) => ConstAgrees(m, pl, dest, Bool(b), if b then 1 else 0, f, l, stack, fuel);
    case LoadParam(dest, i) => CopyAgrees(m, pl, dest, pl.args[i], W.Param(i), f, l, stack, fuel);
    case LoadLocal(dest, slot) => CopyAgrees(m, pl, dest, f.slots[slot], W.Slot(slot), f, l, stack, fuel);
    case StoreLocal(slot, src) => StoreAgrees(m, pl, slot, src, f, l, stack, fuel);
  }

  lemma ScalarInstAgrees(m: W.Module, p: Program, pl: Place, inst: Inst, f: Frame, l: Locals, stack: seq<W.Operand>,
                         fuel: nat)
    requires IsScalarInst(inst) && CheckScalar(pl.x, inst, pl.sc).Some? && Related(pl, f, l)
    ensures Agree(pl, CheckScalar(pl.x, inst, pl.sc).value, f, l, stack,
                  ExecSimple(p, pl.args, inst, f), W.RunSeq(m, EmitScalar(inst), W.State(l, stack), fuel))
  {
    if inst.Binary? {
      BinaryInstAgrees(m, pl, inst.dest, inst.op, inst.left, inst.right, f, l, stack, fuel);
    } else if inst.Assert? {
      AssertAgrees(m, pl, inst.condition, f, l, stack, fuel);
    } else {
      MoveInstAgrees(m, p, pl, inst, f, l, stack, fuel);
    }
  }

  // ---- Composition ------------------------------------------------------------------------------

  /** The program, its signatures and the emitted module belong together. */
  ghost predicate World(p: Program, sigs: Sigs, m: W.Module, pl: Place) {
    ProgramOk(p, sigs) && m == EmitProgram(p, sigs) && pl.x.sigs == sigs
  }

  lemma Narrow(pl: Place, wide: Scope, narrow: Scope, f: Frame, l: Locals)
    requires Related(pl.(sc := wide), f, l) && narrow.values <= wide.values && narrow.slots <= wide.slots
    ensures Related(pl.(sc := narrow), f, l)
  {
  }

  lemma KeptTwice(pl: Place, sc: Scope, active: set<ValueId>, f: Frame, l: Locals, g: Frame, n: Locals, h: Frame,
                  o: Locals)
    requires Kept(pl, f, l, g, n) && Kept(pl.(sc := sc, active := active), g, n, h, o)
    requires pl.sc.values <= sc.values && pl.active <= active
    ensures Kept(pl, f, l, h, o)
  {
  }

  lemma DefineUnit(pl: Place, f: Frame, l: Locals, dest: ValueId, v: Value)
    requires Related(pl, f, l) && Fresh(pl.x, pl.sc, dest, KUnit)
    ensures Put(f, dest, v).Done?
    ensures Finished(pl, Define(pl.sc, dest), f, l, Put(f, dest, v).value, l)
  {
  }

  lemma {:induction false} SeqAgrees(p: Program, sigs: Sigs, m: W.Module, pl: Place, insts: seq<Inst>, f: Frame,
                                     l: Locals, stack: seq<W.Operand>, fuel: nat)
    requires World(p, sigs, m, pl) && CheckSeq(pl.x, insts, pl.sc, pl.active).Some? && Related(pl, f, l)
    ensures Agree(pl, CheckSeq(pl.x, insts, pl.sc, pl.active).value, f, l, stack,
                  ExecSeq(p, pl.args, insts, f, fuel), W.RunSeq(m, EmitSeq(pl.x.sig, insts), W.State(l, stack), fuel))
    decreases fuel, insts, 0
  {
    if insts != [] {
      InstAgrees(p, sigs, m, pl, insts[0], f, l, stack, fuel);
      var r := ExecInst(p, pl.args, insts[0], f, fuel);
      var w := W.RunSeq(m, EmitInst(pl.x.sig, insts[0]), W.State(l, stack), fuel);
      W.RunConcat(m, EmitInst(pl.x.sig, insts[0]), EmitSeq(pl.x.sig, insts[1..]), W.State(l, stack), fuel);
      if r.Done? {
        var next := pl.(sc := CheckInst(pl.x, insts[0], pl.sc, pl.active).value);
        SeqAgrees(p, sigs, m, next, insts[1..], r.value, w.s.locals, stack, fuel);
        var r' := ExecSeq(p, pl.args, insts[1..], r.value, fuel);
        if r'.Done? {
          var w' := W.RunSeq(m, EmitSeq(pl.x.sig, insts[1..]), w.s, fuel);
          KeptTwice(pl, next.sc, pl.active, f, l, r.value, w.s.locals, r'.value, w'.s.locals);
        }
      }
    }
  }

  lemma {:induction false} InstAgrees(p: Program, sigs: Sigs, m: W.Module, pl: Place, inst: Inst, f: Frame, l: Locals,
                                      stack: seq<W.Operand>, fuel: nat)
    requires World(p, sigs, m, pl) && CheckInst(pl.x, inst, pl.sc, pl.active).Some? && Related(pl, f, l)
    ensures Agree(pl, CheckInst(pl.x, inst, pl.sc, pl.active).value, f, l, stack,
                  ExecInst(p, pl.args, inst, f, fuel), W.RunSeq(m, EmitInst(pl.x.sig, inst), W.State(l, stack), fuel))
    decreases fuel, inst, 3
  {
    if IsScalarInst(inst) {
      ScalarInstAgrees(m, p, pl, inst, f, l, stack, fuel);
    } else if inst.Call? {
      CallAgrees(p, sigs, m, pl, inst, f, l, stack, fuel);
    } else if inst.If? {
      IfAgrees(p, sigs, m, pl, inst, f, l, stack, fuel);
    } else if inst.While? {
      WhileAgrees(p, sigs, m, pl, inst, f, l, stack, fuel);
    } else {
      RepeatAgrees(p, sigs, m, pl, inst, f, l, stack, fuel);
    }
  }

  // ---- Conditionals -----------------------------------------------------------------------------

  /** The code of one branch: its instructions, then its value if the conditional has one. */
  lemma RunBranch(m: W.Module, code: seq<W.Instr>, hasResult: bool, r: Option<ValueId>, s: W.State, fuel: nat)
    requires hasResult == r.Some?
    ensures var w := W.RunSeq(m, code, s, fuel);
      W.RunSeq(m, code + EmitResult(hasResult, r), s, fuel)
      == if !w.Normal? then w
         else if hasResult then W.Normal(W.Push(w.s, W.I64(W.Read(w.s.locals, W.Reg(r.value))))) else w
  {
    W.RunConcat(m, code, EmitResult(hasResult, r), s, fuel);
    var w := W.RunSeq(m, code, s, fuel);
    if w.Normal? && hasResult { Run1(m, W.LocalGet(W.Reg(r.value)), w.s, fuel); }
  }

  /** The whole conditional, given what the chosen branch does on an empty stack. */
  lemma RunIf(m: W.Module, hasResult: bool, dest: ValueId, c: ValueId, thenCode: seq<W.Instr>, elseCode: seq<W.Instr>,
              s: W.State, fuel: nat)
    requires 0 <= W.Read(s.locals, W.Reg(c)) <= 1
    ensures
      var code := if W.Read(s.locals, W.Reg(c)) == 1 then thenCode else elseCode;
      var w := W.RunSeq(m, code, W.State(s.locals, []), fuel);
      var whole := W.RunSeq(m, IfCode(hasResult, dest, c, thenCode, elseCode), s, fuel);
      && (w == W.Trap || w == W.Timeout ==> whole == w)
      && (w.Normal? && !hasResult && w.s.stack == [] ==> whole == W.Normal(W.State(w.s.locals, s.stack)))
      && (w.Normal? && hasResult && |w.s.stack| == 1 && w.s.stack[0].I64? ==>
            whole == W.Normal(W.State(w.s.locals[W.Reg(dest) := w.s.stack[0].n], s.stack)))
  {
    var test := W.If(hasResult, thenCode, elseCode);
    var store := if hasResult then [W.LocalSet(W.Reg(dest))] else [];
    RunFlag(m, c, [test] + store, s, fuel);
    var t := W.Push(s, W.I32(W.Read(s.locals, W.Reg(c))));
    W.RunCons(m, test, store, t, fuel);
    assert t.stack[..|s.stack|] == s.stack;
    var code := if W.Read(s.locals, W.Reg(c)) == 1 then thenCode else elseCode;
    var w := W.RunSeq(m, code, W.State(s.locals, []), fuel);
    var v := W.RunInstr(m, test, t, fuel);
    assert v == W.Leave(w, s.stack, if hasResult then 1 else 0);
    if hasResult && v.Normal? {
      Run1(m, W.LocalSet(W.Reg(dest)), v.s, fuel);
      if w.Normal? && |w.s.stack| == 1 {
        assert (s.stack + w.s.stack)[..|s.stack|] == s.stack;
      }
    }
    assert s.stack + [] == s.stack;
  }

  lemma {:induction false} IfAgrees(p: Program, sigs: Sigs, m: W.Module, pl: Place, inst: Inst, f: Frame, l: Locals,
                                    stack: seq<W.Operand>, fuel: nat)
    requires inst.If? && World(p, sigs, m, pl) && CheckIf(pl.x, inst, pl.sc, pl.active).Some? && Related(pl, f, l)
    ensures Agree(pl, CheckIf(pl.x, inst, pl.sc, pl.active).value, f, l, stack,
                  ExecInst(p, pl.args, inst, f, fuel), W.RunSeq(m, EmitInst(pl.x.sig, inst), W.State(l, stack), fuel))
    decreases fuel, inst, 1
  {
    var b := f.values[inst.condition].b;
    var insts := if b then inst.thenInsts else inst.elseInsts;
    var result := if b then inst.thenResult else inst.elseResult;
    var hasResult := YieldsValue(pl.x.sig, inst.dest);
    RunIf(m, hasResult, inst.dest, inst.condition,
          EmitSeq(pl.x.sig, inst.thenInsts) + EmitResult(hasResult, inst.thenResult),
          EmitSeq(pl.x.sig, inst.elseInsts) + EmitResult(hasResult, inst.elseResult), W.State(l, stack), fuel);
    SeqAgrees(p, sigs, m, pl, insts, f, l, [], fuel);
    RunBranch(m, EmitSeq(pl.x.sig, insts), hasResult, result, W.State(l, []), fuel);
    var r := ExecSeq(p, pl.args, insts, f, fuel);
    if r.Done? {
      var w := W.RunSeq(m, EmitSeq(pl.x.sig, insts), W.State(l, []), fuel);
      BranchFinished(pl, inst, b, f, l, r.value, w.s.locals);
    }
  }

  lemma BranchFinished(pl: Place, inst: Inst, b: bool, f: Frame, l: Locals, g: Frame, n: Locals)
    requires inst.If? && CheckIf(pl.x, inst, pl.sc, pl.active).Some?
    requires var insts := if b then inst.thenInsts else inst.elseInsts;
             Finished(pl, CheckSeq(pl.x, insts, pl.sc, pl.active).value, f, l, g, n)
    ensures
      var result := if b then inst.thenResult else inst.elseResult;
      var h := Put(g, inst.dest, ResultOf(g, result));
      && (YieldsValue(pl.x.sig, inst.dest) == result.Some?)
      && h.Done?
      && Finished(pl, CheckIf(pl.x, inst, pl.sc, pl.active).value, f, l, h.value,
                  if result.Some? then n[W.Reg(inst.dest) := W.Read(n, W.Reg(result.value))] else n)
  {
    var after := CheckIf(pl.x, inst, pl.sc, pl.active).value;
    var branch := CheckSeq(pl.x, if b then inst.thenInsts else inst.elseInsts, pl.sc, pl.active).value;
    var result := if b then inst.thenResult else inst.elseResult;
    var common := Scope(pl.sc.values, after.slots);
    Narrow(pl, branch, common, g, n);
    var at := pl.(sc := common);
    if result.Some? {
      DefineRegister(at, g, n, inst.dest, ResultOf(g, result), W.Read(n, W.Reg(result.value)));
    } else {
      DefineUnit(at, g, n, inst.dest, ResultOf(g, result));
    }
    assert Define(common, inst.dest) == after;
  }

  // ---- Loops ------------------------------------------------------------------------------------

  /** A loop inside its block ends by a branch to the block's end, with nothing on the stack. */
  ghost predicate LoopAgree(pl: Place, after: Scope, f: Frame, l: Locals, r: Outcome<Frame>, w: W.Result) {
    match r
    case Done(g) => w.Jump? && w.depth == 0 && w.s.stack == [] && Finished(pl, after, f, l, g, w.s.locals)
    case OutOfFuel => w == W.Timeout
    case Failed(e) => e.RemainderOverflow? || (Traps(e) && w == W.Trap)
  }

  lemma BlockAgrees(m: W.Module, prefix: seq<W.Instr>, loop: W.Instr, pl: Place, after: Scope, f: Frame, l: Locals,
                    n: Locals, stack: seq<W.Operand>, r: Outcome<Frame>, fuel: nat)
    requires loop.Loop? && W.RunSeq(m, prefix, W.State(l, []), fuel) == W.Normal(W.State(n, []))
    requires LoopAgree(pl, after, f, l, r, W.RunLoop(m, loop, W.State(n, []), fuel))
    ensures Agree(pl, after, f, l, stack, r, W.RunInstr(m, W.Block(prefix + [loop]), W.State(l, stack), fuel))
  {
    W.RunConcat(m, prefix, [loop], W.State(l, []), fuel);
    Run1(m, loop, W.State(n, []), fuel);
    assert stack + [] == stack;
  }

  /** The exit test of a while loop and what follows it. */
  lemma RunWhileTest(m: W.Module, c: ValueId, body: seq<W.Instr>, l: Locals, fuel: nat)
    requires 0 <= W.Read(l, W.Reg(c)) <= 1
    ensures
      var code := [W.LocalGet(W.Reg(c)), W.I32WrapI64, W.I32Eqz, W.BrIf(1)] + (body + [W.Br(0)]);
      var w := W.RunSeq(m, body, W.State(l, []), fuel);
      W.RunSeq(m, code, W.State(l, []), fuel)
      == if W.Read(l, W.Reg(c)) == 0 then W.Jump(1, W.State(l, []))
         else if w.Normal? then W.Jump(0, w.s) else w
  {
    var rest := body + [W.Br(0)];
    assert [W.LocalGet(W.Reg(c)), W.I32WrapI64, W.I32Eqz, W.BrIf(1)] + rest
        == [W.LocalGet(W.Reg(c)), W.I32WrapI64, W.I32Eqz] + ([W.BrIf(1)] + rest);
    RunNotFlag(m, c, [W.BrIf(1)] + rest, W.State(l, []), fuel);
    var flag := 1 - W.Read(l, W.Reg(c));
    assert W.Push(W.State(l, []), W.I32(flag)) == W.State(l, [W.I32(flag)]);
    RunLeaveIf(m, flag, rest, l, fuel);
    W.RunConcat(m, body, [W.Br(0)], W.State(l, []), fuel);
    var w := W.RunSeq(m, body, W.State(l, []), fuel);
    if w.Normal? { Run1(m, W.Br(0), w.s, fuel); }
  }

  /** One pass through the emitted loop: the condition fails or stops, the test leaves the loop,
      or the body runs and the loop starts over. */
  lemma RunWhilePass(m: W.Module, cond: seq<W.Instr>, c: ValueId, body: seq<W.Instr>, l: Locals, fuel: nat)
    ensures
      var loop := WhileCode(cond, c, body);
      var w := W.RunSeq(m, cond, W.State(l, []), fuel);
      var whole := W.RunLoop(m, loop, W.State(l, []), fuel);
      && (w == W.Trap || w == W.Timeout ==> whole == w)
      && (w.Normal? && w.s.stack == [] && 0 <= W.Read(w.s.locals, W.Reg(c)) <= 1 ==>
            var v := W.RunSeq(m, body, w.s, fuel);
            if W.Read(w.s.locals, W.Reg(c)) == 0 then whole == W.Jump(0, w.s)
            else
              && (v == W.Trap || v == W.Timeout ==> whole == v)
              && (v.Normal? && v.s.stack == [] ==>
                    whole == if fuel == 0 then W.Timeout else W.RunLoop(m, loop, v.s, fuel - 1)))
  {
    var rest := [W.LocalGet(W.Reg(c)), W.I32WrapI64, W.I32Eqz, W.BrIf(1)] + (body + [W.Br(0)]);
    W.RunConcat(m, cond, rest, W.State(l, []), fuel);
    var w := W.RunSeq(m, cond, W.State(l, []), fuel);
    if w.Normal? && w.s.stack == [] && 0 <= W.Read(w.s.locals, W.Reg(c)) <= 1 {
      RunWhileTest(m, c, body, w.s.locals, fuel);
      assert w.s == W.State(w.s.locals, []);
    }
  }

  lemma {:induction false} WhileLoopAgrees(p: Program, sigs: Sigs, m: W.Module, pl: Place, inst: Inst, f: Frame,
                                           l: Locals, fuel: nat)
    requires inst.While? && World(p, sigs, m, pl) && CheckWhile(pl.x, inst, pl.sc, pl.active).Some? && Related(pl, f, l)
    ensures LoopAgree(pl, CheckWhile(pl.x, inst, pl.sc, pl.active).value, f, l, ExecWhile(p, pl.args, inst, f, fuel),
                      W.RunLoop(m, WhileCode(EmitSeq(pl.x.sig, inst.condInsts), inst.condition,
                                             EmitSeq(pl.x.sig, inst.body)), W.State(l, []), fuel))
    decreases fuel, inst, 1
  {
    var cond, body := EmitSeq(pl.x.sig, inst.condInsts), EmitSeq(pl.x.sig, inst.body);
    RunWhilePass(m, cond, inst.condition, body, l, fuel);
    SeqAgrees(p, sigs, m, pl, inst.condInsts, f, l, [], fuel);
    var r := ExecSeq(p, pl.args, inst.condInsts, f, fuel);
    if r.Done? {
      var n := W.RunSeq(m, cond, W.State(l, []), fuel).s.locals;
      ConditionHeld(pl, inst, f, l, r.value, n);
      if r.value.values[inst.condition].b {
        WhileBody(p, sigs, m, pl, inst, f, l, r.value, n, fuel);
      } else {
        WhileExit(pl, inst, f, l, r.value, n);
      }
    }
  }

  /** The condition register is a flag on both sides. */
  lemma ConditionHeld(pl: Place, inst: Inst, f: Frame, l: Locals, g: Frame, n: Locals)
    requires inst.While? && CheckWhile(pl.x, inst, pl.sc, pl.active).Some?
    requires Finished(pl, CheckSeq(pl.x, inst.condInsts, pl.sc, pl.active).value, f, l, g, n)
    ensures inst.condition < |g.values| && g.values[inst.condition].Bool?
    ensures W.Read(n, W.Reg(inst.condition)) == if g.values[inst.condition].b then 1 else 0
  {
    assert Has(pl.x, CheckSeq(pl.x, inst.condInsts, pl.sc, pl.active).value, inst.condition, KBool);
  }

  /** What a pass through the body leaves, and the rounds after it. */
  lemma {:induction false} WhileBody(p: Program, sigs: Sigs, m: W.Module, pl: Place, inst: Inst,
                                     f: Frame, l: Locals, g: Frame, n: Locals, fuel: nat)
    requires inst.While? && World(p, sigs, m, pl) && CheckWhile(pl.x, inst, pl.sc, pl.active).Some?
    requires Finished(pl, CheckSeq(pl.x, inst.condInsts, pl.sc, pl.active).value, f, l, g, n)
    ensures var loop := WhileCode(EmitSeq(pl.x.sig, inst.condInsts), inst.condition, EmitSeq(pl.x.sig, inst.body));
            var h := ExecSeq(p, pl.args, inst.body, g, fuel);
            var v := W.RunSeq(m, EmitSeq(pl.x.sig, inst.body), W.State(n, []), fuel);
            if h.Done? then
              && v.Normal? && v.s.stack == []
              && (fuel > 0 ==>
                    LoopAgree(pl, CheckWhile(pl.x, inst, pl.sc, pl.active).value, f, l,
                              ExecWhile(p, pl.args, inst, h.value, fuel - 1), W.RunLoop(m, loop, v.s, fuel - 1)))
            else if h.OutOfFuel? then v == W.Timeout
            else h.fault.RemainderOverflow? || (Traps(h.fault) && v == W.Trap)
    decreases fuel, inst, 0
  {
    var test := pl.(sc := CheckSeq(pl.x, inst.condInsts, pl.sc, pl.active).value);
    SeqAgrees(p, sigs, m, test, inst.body, g, n, [], fuel);
    var h := ExecSeq(p, pl.args, inst.body, g, fuel);
    if h.Done? && fuel > 0 {
      var v := W.RunSeq(m, EmitSeq(pl.x.sig, inst.body), W.State(n, []), fuel);
      assert v.s == W.State(v.s.locals, []);
      WhileRound(p, sigs, m, pl, inst, f, l, g, n, h.value, v.s.locals, fuel - 1);
    }
  }

  lemma WhileExit(pl: Place, inst: Inst, f: Frame, l: Locals, g: Frame, n: Locals)
    requires inst.While? && CheckWhile(pl.x, inst, pl.sc, pl.active).Some?
    requires Finished(pl, CheckSeq(pl.x, inst.condInsts, pl.sc, pl.active).value, f, l, g, n)
    ensures Put(g, inst.dest, Unit).Done?
    ensures Finished(pl, CheckWhile(pl.x, inst, pl.sc, pl.active).value, f, l, Put(g, inst.dest, Unit).value, n)
  {
    var t := CheckSeq(pl.x, inst.condInsts, pl.sc, pl.active).value;
    var at := pl.(sc := Scope(pl.sc.values, t.slots));
    Narrow(pl, t, at.sc, g, n);
    DefineUnit(at, g, n, inst.dest, Unit);
  }

  /** After one round the loop goes on from a state related at its head. */
  lemma {:induction false} WhileRound(p: Program, sigs: Sigs, m: W.Module, pl: Place, inst: Inst, f: Frame, l: Locals,
                                      g: Frame, n: Locals, h: Frame, o: Locals, fuel: nat)
    requires inst.While? && World(p, sigs, m, pl) && CheckWhile(pl.x, inst, pl.sc, pl.active).Some?
    requires var t := CheckSeq(pl.x, inst.condInsts, pl.sc, pl.active).value;
             && Finished(pl, t, f, l, g, n)
             && Finished(pl.(sc := t), CheckSeq(pl.x, inst.body, t, pl.active).value, g, n, h, o)
    ensures var loop := WhileCode(EmitSeq(pl.x.sig, inst.condInsts), inst.condition, EmitSeq(pl.x.sig, inst.body));
            LoopAgree(pl, CheckWhile(pl.x, inst, pl.sc, pl.active).value, f, l,
                      ExecWhile(p, pl.args, inst, h, fuel), W.RunLoop(m, loop, W.State(o, []), fuel))
    decreases fuel, inst, 2
  {
    var t := CheckSeq(pl.x, inst.condInsts, pl.sc, pl.active).value;
    Narrow(pl, CheckSeq(pl.x, inst.body, t, pl.active).value, pl.sc, h, o);
    assert pl.(sc := pl.sc) == pl;
    KeptTwice(pl, t, pl.active, f, l, g, n, h, o);
    WhileLoopAgrees(p, sigs, m, pl, inst, h, o, fuel);
    var r := ExecWhile(p, pl.args, inst, h, fuel);
    if r.Done? {
      var loop := WhileCode(EmitSeq(pl.x.sig, inst.condInsts), inst.condition, EmitSeq(pl.x.sig, inst.body));
      KeptTwice(pl, pl.sc, pl.active, f, l, h, o, r.value, W.RunLoop(m, loop, W.State(o, []), fuel).s.locals);
    }
  }

  lemma {:induction false} WhileAgrees(p: Program, sigs: Sigs, m: W.Module, pl: Place, inst: Inst, f: Frame, l: Locals,
                                       stack: seq<W.Operand>, fuel: nat)
    requires inst.While? && World(p, sigs, m, pl) && CheckWhile(pl.x, inst, pl.sc, pl.active).Some? && Related(pl, f, l)
    ensures Agree(pl, CheckWhile(pl.x, inst, pl.sc, pl.active).value, f, l, stack,
                  ExecWhile(p, pl.args, inst, f, fuel), W.RunSeq(m, EmitInst(pl.x.sig, inst), W.State(l, stack), fuel))
    decreases fuel, inst, 2
  {
    var loop := WhileCode(EmitSeq(pl.x.sig, inst.condInsts), inst.condition, EmitSeq(pl.x.sig, inst.body));
    WhileLoopAgrees(p, sigs, m, pl, inst, f, l, fuel);
    BlockAgrees(m, [], loop, pl, CheckWhile(pl.x, inst, pl.sc, pl.active).value, f, l, l, stack,
                ExecWhile(p, pl.args, inst, f, fuel), fuel);
    assert [] + [loop] == [loop];
    Run1(m, W.Block([loop]), W.State(l, stack), fuel);
  }

  /** The head of a counted loop: leave it, or go on with `rest`. */
  lemma RunRepeatHead(m: W.Module, count: ValueId, rest: seq<W.Instr>, l: Locals, fuel: nat)
    ensures
      var head := [W.LocalGet(W.Counter(count)), W.LocalGet(W.Reg(count)), W.I64Compare(Ge), W.BrIf(1)];
      W.RunSeq(m, head + rest, W.State(l, []), fuel)
      == if W.Read(l, W.Counter(count)) >= W.Read(l, W.Reg(count)) then W.Jump(1, W.State(l, []))
         else W.RunSeq(m, rest, W.State(l, []), fuel)
  {
    var i, n := W.Read(l, W.Counter(count)), W.Read(l, W.Reg(count));
    var tail := [W.I64Compare(Ge)] + ([W.BrIf(1)] + rest);
    assert [W.LocalGet(W.Counter(count)), W.LocalGet(W.Reg(count)), W.I64Compare(Ge), W.BrIf(1)] + rest
        == [W.LocalGet(W.Counter(count)), W.LocalGet(W.Reg(count))] + tail;
    RunGets(m, W.Counter(count), W.Reg(count), tail, W.State(l, []), fuel);
    assert [] + [W.I64(i), W.I64(n)] == [W.I64(i), W.I64(n)];
    RunGeBranch(m, i, n, rest, l, fuel);
  }

  lemma RunGeBranch(m: W.Module, i: int, n: int, rest: seq<W.Instr>, l: Locals, fuel: nat)
    ensures W.RunSeq(m, [W.I64Compare(Ge)] + ([W.BrIf(1)] + rest), W.State(l, [W.I64(i), W.I64(n)]), fuel)
         == if i >= n then W.Jump(1, W.State(l, [])) else W.RunSeq(m, rest, W.State(l, []), fuel)
  {
    var s := W.State(l, [W.I64(i), W.I64(n)]);
    var flag := if i >= n then 1 else 0;
    W.RunCons(m, W.I64Compare(Ge), [W.BrIf(1)] + rest, s, fuel);
    assert s.stack[..0] + [W.I32(flag)] == [W.I32(flag)];
    RunLeaveIf(m, flag, rest, l, fuel);
  }

  /** A conditional branch out of the loop, on the one operand. */
  lemma RunLeaveIf(m: W.Module, flag: nat, rest: seq<W.Instr>, l: Locals, fuel: nat)
    ensures W.RunSeq(m, [W.BrIf(1)] + rest, W.State(l, [W.I32(flag)]), fuel)
         == if flag != 0 then W.Jump(1, W.State(l, [])) else W.RunSeq(m, rest, W.State(l, []), fuel)
  {
    var t := W.State(l, [W.I32(flag)]);
    W.RunCons(m, W.BrIf(1), rest, t, fuel);
    assert t.stack[..0] == [];
  }

  function Advance(l: Locals, count: ValueId, slot: Option<SlotId>): Locals {
    var next := Wrap64(W.Read(l, W.Counter(count)) + 1);
    var n := l[W.Counter(count) := next];
    if slot.Some? then n[W.Slot(slot.value) := next] else n
  }

  lemma RunPushOne(m: W.Module, x: W.Local, rest: seq<W.Instr>, l: Locals, fuel: nat)
    ensures W.RunSeq(m, [W.LocalGet(x), W.I64Const(1)] + rest, W.State(l, []), fuel)
         == W.RunSeq(m, rest, W.State(l, [W.I64(W.Read(l, x)), W.I64(1)]), fuel)
  {
    var i := W.I64(W.Read(l, x));
    assert [W.LocalGet(x), W.I64Const(1)] + rest == [W.LocalGet(x)] + ([W.I64Const(1)] + rest);
    W.RunCons(m, W.LocalGet(x), [W.I64Const(1)] + rest, W.State(l, []), fuel);
    assert [] + [i] == [i];
    W.RunCons(m, W.I64Const(1), rest, W.State(l, [i]), fuel);
    assert [i] + [W.I64(1)] == [i, W.I64(1)];
  }

  lemma RunAdd(m: W.Module, i: int, next: int, tail: seq<W.Instr>, l: Locals, fuel: nat)
    requires W.Arith(Add, i, 1) == Some(next)
    ensures W.RunSeq(m, [W.I64Arith(Add)] + tail, W.State(l, [W.I64(i), W.I64(1)]), fuel)
         == W.RunSeq(m, tail, W.State(l, [W.I64(next)]), fuel)
  {
    var s := W.State(l, [W.I64(i), W.I64(1)]);
    W.RunCons(m, W.I64Arith(Add), tail, s, fuel);
    assert s.stack[..0] + [W.I64(next)] == [W.I64(next)];
  }

  lemma RunTee(m: W.Module, x: W.Local, n: int, rest: seq<W.Instr>, l: Locals, fuel: nat)
    ensures W.RunSeq(m, [W.LocalTee(x)] + rest, W.State(l, [W.I64(n)]), fuel)
         == W.RunSeq(m, rest, W.State(l[x := n], [W.I64(n)]), fuel)
  {
    W.RunCons(m, W.LocalTee(x), rest, W.State(l, [W.I64(n)]), fuel);
  }

  lemma RunCounterStep(m: W.Module, count: ValueId, slot: Option<SlotId>, l: Locals, fuel: nat)
    ensures W.RunSeq(m, CounterStep(count, slot), W.State(l, []), fuel)
         == W.Jump(0, W.State(Advance(l, count, slot), []))
  {
    var x := W.Counter(count);
    var next := Wrap64(W.Read(l, x) + 1);
    var last := if slot.Some? then W.LocalSet(W.Slot(slot.value)) else W.Drop;
    var tee := [W.LocalTee(x)] + [last, W.Br(0)];
    var tail := [W.I64Arith(Add)] + tee;
    assert CounterStep(count, slot) == [W.LocalGet(x), W.I64Const(1)] + tail;
    RunPushOne(m, x, tail, l, fuel);
    RunAdd(m, W.Read(l, x), next, tee, l, fuel);
    RunTee(m, x, next, [last, W.Br(0)], l, fuel);
    RunCounterTail(m, slot, next, l[x := next], fuel);
  }

  /** The new count goes to the index slot, if there is one, and the loop starts over. */
  lemma RunCounterTail(m: W.Module, slot: Option<SlotId>, next: int, l: Locals, fuel: nat)
    ensures W.RunSeq(m, [if slot.Some? then W.LocalSet(W.Slot(slot.value)) else W.Drop, W.Br(0)],
                     W.State(l, [W.I64(next)]), fuel)
         == W.Jump(0, W.State(if slot.Some? then l[W.Slot(slot.value) := next] else l, []))
  {
    var s := W.State(l, [W.I64(next)]);
    Run2(m, if slot.Some? then W.LocalSet(W.Slot(slot.value)) else W.Drop, W.Br(0), s, fuel);
    assert s.stack[..0] == [];
  }

  /** One pass through a counted loop. */
  lemma RunRepeatPass(m: W.Module, count: ValueId, slot: Option<SlotId>, body: seq<W.Instr>, l: Locals, fuel: nat)
    ensures
      var loop := RepeatCode(count, slot, body);
      var w := W.RunSeq(m, body, W.State(l, []), fuel);
      var whole := W.RunLoop(m, loop, W.State(l, []), fuel);
      if W.Read(l, W.Counter(count)) >= W.Read(l, W.Reg(count)) then whole == W.Jump(0, W.State(l, []))
      else
        && (w == W.Trap || w == W.Timeout ==> whole == w)
        && (w.Normal? && w.s.stack == [] ==>
              whole == if fuel == 0 then W.Timeout
                       else W.RunLoop(m, loop, W.State(Advance(w.s.locals, count, slot), []), fuel - 1))
  {
    RunRepeatHead(m, count, body + CounterStep(count, slot), l, fuel);
    W.RunConcat(m, body, CounterStep(count, slot), W.State(l, []), fuel);
    var w := W.RunSeq(m, body, W.State(l, []), fuel);
    if w.Normal? && w.s.stack == [] {
      assert w.s == W.State(w.s.locals, []);
      RunCounterStep(m, count, slot, w.s.locals, fuel);
    }
  }

  /** The place inside the body of a counted loop. */
  function Inside(pl: Place, inst: Inst): Place
    requires inst.Repeat?
  {
    pl.(sc := RepeatScope(pl.sc, inst.indexSlot), active := pl.active + {inst.count})
  }

  /** Before iteration `i`: counter and index slot hold `i`, the count register holds the count. */
  ghost predicate AtIteration(inst: Inst, n: int, i: nat, f: Frame, l: Locals)
    requires inst.Repeat?
  {
    && inst.count < |f.values| && f.values[inst.count] == Int(n)
    && W.Read(l, W.Counter(inst.count)) == i
    && (inst.indexSlot.Some? ==> W.Read(l, W.Slot(inst.indexSlot.value)) == i)
  }

  lemma EnterIteration(pl: Place, inst: Inst, n: int, i: nat, f: Frame, l: Locals)
    requires inst.Repeat? && CheckRepeat(pl.x, inst, pl.sc, pl.active).Some? && Related(pl, f, l)
    requires AtIteration(inst, n, i, f, l)
    requires i < n
    ensures SetIndex(f, inst.indexSlot, i).Done?
    ensures var g := SetIndex(f, inst.indexSlot, i).value; Related(Inside(pl, inst), g, l) && Kept(pl, f, l, g, l)
  {
  }

  lemma NextIteration(pl: Place, inst: Inst, n: int, i: nat, after: Scope, f: Frame, l: Locals, g: Frame, h: Frame,
                      o: Locals)
    requires inst.Repeat? && CheckRepeat(pl.x, inst, pl.sc, pl.active).Some? && Related(pl, f, l)
    requires AtIteration(inst, n, i, f, l)
    requires i < n && SetIndex(f, inst.indexSlot, i) == Done(g)
    requires Finished(Inside(pl, inst), after, g, l, h, o) && pl.sc.values <= after.values && pl.sc.slots <= after.slots
    ensures var q := Advance(o, inst.count, inst.indexSlot);
            Related(pl, h, q) && Kept(pl, f, l, h, q) && AtIteration(inst, n, i + 1, h, q)
  {
    assert IsI64(n) by { assert inst.count in pl.sc.values; }
    assert W.Read(o, W.Counter(inst.count)) == i by { assert inst.count in Inside(pl, inst).active; }
    assert Wrap64(i + 1) == i + 1;
  }

  lemma {:induction false} RepeatLoopAgrees(p: Program, sigs: Sigs, m: W.Module, pl: Place, inst: Inst, n: int, i: nat,
                                            f: Frame, l: Locals, fuel: nat)
    requires inst.Repeat? && World(p, sigs, m, pl) && CheckRepeat(pl.x, inst, pl.sc, pl.active).Some?
    requires Related(pl, f, l) && AtIteration(inst, n, i, f, l)
    ensures LoopAgree(pl, Define(pl.sc, inst.dest), f, l, ExecRepeat(p, pl.args, inst, n, i, f, fuel),
                      W.RunLoop(m, RepeatCode(inst.count, inst.indexSlot, EmitSeq(pl.x.sig, inst.body)),
                                W.State(l, []), fuel))
    decreases fuel, inst, 0
  {
    var body := EmitSeq(pl.x.sig, inst.body);
    RunRepeatPass(m, inst.count, inst.indexSlot, body, l, fuel);
    assert W.Read(l, W.Reg(inst.count)) == n by { assert inst.count in pl.sc.values; }
    if i >= n {
      DefineUnit(pl, f, l, inst.dest, Unit);
    } else {
      EnterIteration(pl, inst, n, i, f, l);
      var g := SetIndex(f, inst.indexSlot, i).value;
      SeqAgrees(p, sigs, m, Inside(pl, inst), inst.body, g, l, [], fuel);
      var h := ExecSeq(p, pl.args, inst.body, g, fuel);
      if h.Done? && fuel > 0 {
        var o := W.RunSeq(m, body, W.State(l, []), fuel).s.locals;
        RepeatRound(p, sigs, m, pl, inst, n, i, f, l, g, h.value, o, fuel - 1);
      }
    }
  }

  lemma {:induction false} RepeatRound(p: Program, sigs: Sigs, m: W.Module, pl: Place, inst: Inst, n: int, i: nat,
                                       f: Frame, l: Locals, g: Frame, h: Frame, o: Locals, fuel: nat)
    requires inst.Repeat? && World(p, sigs, m, pl) && CheckRepeat(pl.x, inst, pl.sc, pl.active).Some?
    requires Related(pl, f, l) && AtIteration(inst, n, i, f, l) && i < n && SetIndex(f, inst.indexSlot, i) == Done(g)
    requires var q := Inside(pl, inst); Finished(q, CheckSeq(pl.x, inst.body, q.sc, q.active).value, g, l, h, o)
    ensures LoopAgree(pl, Define(pl.sc, inst.dest), f, l, ExecRepeat(p, pl.args, inst, n, i + 1, h, fuel),
                      W.RunLoop(m, RepeatCode(inst.count, inst.indexSlot, EmitSeq(pl.x.sig, inst.body)),
                                W.State(Advance(o, inst.count, inst.indexSlot), []), fuel))
    decreases fuel, inst, 1
  {
    var q := Advance(o, inst.count, inst.indexSlot);
    var after := CheckSeq(pl.x, inst.body, Inside(pl, inst).sc, Inside(pl, inst).active).value;
    NextIteration(pl, inst, n, i, after, f, l, g, h, o);
    RepeatLoopAgrees(p, sigs, m, pl, inst, n, i + 1, h, q, fuel);
    var r := ExecRepeat(p, pl.args, inst, n, i + 1, h, fuel);
    if r.Done? {
      var loop := RepeatCode(inst.count, inst.indexSlot, EmitSeq(pl.x.sig, inst.body));
      KeptTwice(pl, pl.sc, pl.active, f, l, h, q, r.value, W.RunLoop(m, loop, W.State(q, []), fuel).s.locals);
    }
  }

  /** Both counters are cleared before the block is entered. */
  function Cleared(l: Locals, slot: Option<SlotId>): Locals {
    if slot.Some? then l[W.Slot(slot.value) := 0] else l
  }

  lemma RunRepeatBlock(m: W.Module, count: ValueId, slot: Option<SlotId>, body: seq<W.Instr>, l: Locals,
                       stack: seq<W.Operand>, fuel: nat)
    ensures W.RunSeq(m, RepeatBlock(count, slot, body), W.State(l, stack), fuel)
         == W.RunInstr(m, W.Block([W.I64Const(0), W.LocalSet(W.Counter(count))] + [RepeatCode(count, slot, body)]),
                       W.State(Cleared(l, slot), stack), fuel)
  {
    var reset := if slot.Some? then [W.I64Const(0), W.LocalSet(W.Slot(slot.value))] else [];
    var block := W.Block([W.I64Const(0), W.LocalSet(W.Counter(count))] + [RepeatCode(count, slot, body)]);
    W.RunConcat(m, reset, [block], W.State(l, stack), fuel);
    if slot.Some? { RunConst(m, 0, W.Slot(slot.value), W.State(l, stack), fuel); }
    Run1(m, block, W.State(Cleared(l, slot), stack), fuel);
  }

  lemma StartIteration(pl: Place, inst: Inst, f: Frame, l: Locals)
    requires inst.Repeat? && CheckRepeat(pl.x, inst, pl.sc, pl.active).Some? && Related(pl, f, l)
    ensures var l1 := Cleared(l, inst.indexSlot);
            var l2 := l1[W.Counter(inst.count) := 0];
            && f.values[inst.count].Int? && AtIteration(inst, f.values[inst.count].n, 0, f, l2)
            && Related(pl, f, l2) && Kept(pl, f, l, f, l2) && Kept(pl, f, l1, f, l2)
  {
    assert inst.count in pl.sc.values;
  }

  lemma {:induction false} RepeatAgrees(p: Program, sigs: Sigs, m: W.Module, pl: Place, inst: Inst, f: Frame,
                                        l: Locals, stack: seq<W.Operand>, fuel: nat)
    requires inst.Repeat? && World(p, sigs, m, pl) && CheckRepeat(pl.x, inst, pl.sc, pl.active).Some?
    requires Related(pl, f, l)
    ensures f.values[inst.count].Int?
    ensures Agree(pl, Define(pl.sc, inst.dest), f, l, stack,
                  ExecRepeat(p, pl.args, inst, f.values[inst.count].n, 0, f, fuel),
                  W.RunSeq(m, RepeatBlock(inst.count, inst.indexSlot, EmitSeq(pl.x.sig, inst.body)),
                           W.State(l, stack), fuel))
    decreases fuel, inst, 1
  {
    var body := EmitSeq(pl.x.sig, inst.body);
    var start := [W.I64Const(0), W.LocalSet(W.Counter(inst.count))];
    var loop := RepeatCode(inst.count, inst.indexSlot, body);
    var l1 := Cleared(l, inst.indexSlot);
    var l2 := l1[W.Counter(inst.count) := 0];
    RunRepeatBlock(m, inst.count, inst.indexSlot, body, l, stack, fuel);
    RunConst(m, 0, W.Counter(inst.count), W.State(l1, []), fuel);
    StartIteration(pl, inst, f, l);
    var n := f.values[inst.count].n;
    RepeatLoopAgrees(p, sigs, m, pl, inst, n, 0, f, l2, fuel);
    var r := ExecRepeat(p, pl.args, inst, n, 0, f, fuel);
    if r.Done? {
      var o := W.RunLoop(m, loop, W.State(l2, []), fuel).s.locals;
      KeptTwice(pl, pl.sc, pl.active, f, l1, f, l2, r.value, o);
      KeptTwice(pl, pl.sc, pl.active, f, l, f, l2, r.value, o);
    }
    BlockAgrees(m, start, loop, pl, Define(pl.sc, inst.dest), f, l1, l2, stack, r, fuel);
  }

  // ---- Calls ------------------------------------------------------------------------------------

  function Words(vs: seq<Value>): (r: seq<W.Operand>)
    ensures |r| == |vs| && forall i :: 0 <= i < |vs| ==> r[i] == W.I64(Word(vs[i]))
  {
    if vs == [] then [] else [W.I64(Word(vs[0]))] + Words(vs[1..])
  }

  ghost predicate Fits(f: Frame, l: Locals, vs: seq<ValueId>) {
    forall i :: 0 <= i < |vs| ==> vs[i] < |f.values| && W.Read(l, W.Reg(vs[i])) == Word(f.values[vs[i]])
  }

  lemma {:induction false} RunArguments(m: W.Module, f: Frame, l: Locals, vs: seq<ValueId>, xs: seq<Value>,
                                        rest: seq<W.Instr>, stack: seq<W.Operand>, fuel: nat)
    requires Fits(f, l, vs) && |xs| == |vs| && forall i :: 0 <= i < |vs| ==> xs[i] == f.values[vs[i]]
    ensures W.RunSeq(m, EmitGets(vs) + rest, W.State(l, stack), fuel)
         == W.RunSeq(m, rest, W.State(l, stack + Words(xs)), fuel)
    decreases vs
  {
    if vs == [] {
      assert EmitGets(vs) + rest == rest && stack + Words(xs) == stack;
    } else {
      var w := W.I64(Word(xs[0]));
      var tail := EmitGets(vs[1..]) + rest;
      assert EmitGets(vs) + rest == [W.LocalGet(W.Reg(vs[0]))] + tail;
      W.RunCons(m, W.LocalGet(W.Reg(vs[0])), tail, W.State(l, stack), fuel);
      RunArguments(m, f, l, vs[1..], xs[1..], rest, stack + [w], fuel);
      assert (stack + [w]) + Words(xs[1..]) == stack + Words(xs);
    }
  }

  lemma {:induction false} GetAllDone(f: Frame, vs: seq<ValueId>)
    requires forall i :: 0 <= i < |vs| ==> vs[i] < |f.values|
    ensures GetAll(f, vs).Done?
  {
    if vs != [] { GetAllDone(f, vs[1..]); }
  }

  /** A callee's outcome against what its code leaves on an empty stack. */
  ghost predicate CallAgree(sig: Sig, r: Outcome<(Value, nat)>, w: W.Result) {
    match r
    case Done((v, _)) =>
      HasKind(v, sig.result) && w.Normal? && w.s.stack == (if sig.result == KUnit then [] else [W.I64(Word(v))])
    case OutOfFuel => w == W.Timeout
    case Failed(e) => e.RemainderOverflow? || (Traps(e) && w == W.Trap)
  }

  lemma ModuleLookup(p: Program, sigs: Sigs, name: string)
    requires ProgramOk(p, sigs) && name in sigs
    ensures var fn := Lookup(p.functions, name);
            fn.Some? && fn.value in p.functions && FunctionOk(sigs, fn.value) && fn.value.name == name
            && name in EmitProgram(p, sigs) && EmitProgram(p, sigs)[name] == EmitFunction(sigs[name], fn.value)
  {
    var fn :| fn in p.functions && fn.name == name;
  }

  lemma EntryRelated(sigs: Sigs, fn: Function, args: seq<Value>, clock: nat)
    requires fn.name in sigs && |args| == |sigs[fn.name].params|
    requires forall i :: 0 <= i < |args| ==> HasKind(args[i], sigs[fn.name].params[i])
    ensures Related(Place(SettingOf(sigs, fn), args, Scope({}, {}), {}), Entry(fn, clock), W.Params(Words(args)))
  {
    forall i | 0 <= i < |args|
      ensures Holds(args[i], sigs[fn.name].params[i], W.Read(W.Params(Words(args)), W.Param(i)))
    {
      ParamRead(Words(args), i);
    }
  }

  lemma ParamRead(words: seq<W.Operand>, i: nat)
    requires W.AllI64(words) && i < |words|
    ensures W.Read(W.Params(words), W.Param(i)) == words[i].n
  {
  }

  /** The function's result is read after its body. */
  lemma ResultAgrees(m: W.Module, sigs: Sigs, fn: Function, args: seq<Value>, f: Frame, l: Locals, g: Frame, n: Locals,
                     fuel: nat)
    requires FunctionOk(sigs, fn)
    requires var pl := Place(SettingOf(sigs, fn), args, Scope({}, {}), {});
             Finished(pl, CheckSeq(pl.x, fn.body, Scope({}, {}), {}).value, f, l, g, n)
    ensures var last := if fn.result.Some? then [W.LocalGet(W.Reg(fn.result.value))] else [];
            CallAgree(sigs[fn.name], Done((ResultOf(g, fn.result), g.clock)), W.RunSeq(m, last, W.State(n, []), fuel))
  {
    if fn.result.Some? {
      Run1(m, W.LocalGet(W.Reg(fn.result.value)), W.State(n, []), fuel);
    }
  }

  /** Whole functions: for every well-formed program, function and arguments of the parameter
      kinds, the emitted function returns the word of the interpreter's result, traps when the
      interpreter fails, and runs out of budget when the interpreter does. */
  lemma {:induction false} FunctionAgrees(p: Program, sigs: Sigs, m: W.Module, fn: Function, args: seq<Value>,
                                          clock: nat, fuel: nat)
    requires ProgramOk(p, sigs) && m == EmitProgram(p, sigs) && fn in p.functions && FunctionOk(sigs, fn)
    requires |args| == |sigs[fn.name].params|
    requires forall i :: 0 <= i < |args| ==> HasKind(args[i], sigs[fn.name].params[i])
    ensures CallAgree(sigs[fn.name], RunFunction(p, fn, args, clock, fuel),
                      W.RunSeq(m, EmitFunction(sigs[fn.name], fn).body, W.State(W.Params(Words(args)), []), fuel))
    decreases fuel, fn, 0
  {
    var x := SettingOf(sigs, fn);
    var pl := Place(x, args, Scope({}, {}), {});
    var l := W.Params(Words(args));
    var f := Entry(fn, clock);
    var last := if fn.result.Some? then [W.LocalGet(W.Reg(fn.result.value))] else [];
    EntryRelated(sigs, fn, args, clock);
    SeqAgrees(p, sigs, m, pl, fn.body, f, l, [], fuel);
    W.RunConcat(m, EmitSeq(x.sig, fn.body), last, W.State(l, []), fuel);
    var r := ExecSeq(p, args, fn.body, f, fuel);
    if r.Done? {
      var w := W.RunSeq(m, EmitSeq(x.sig, fn.body), W.State(l, []), fuel);
      ResultAgrees(m, sigs, fn, args, f, l, r.value, w.s.locals, fuel);
    }
  }

  /** The call instruction itself, given what the callee's code does. */
  lemma RunCall(m: W.Module, callee: string, dest: ValueId, words: seq<W.Operand>, l: Locals, stack: seq<W.Operand>,
                fuel: nat)
    requires callee in m && m[callee].params == |words| && m[callee].hasResult
    requires forall i :: 0 <= i < |words| ==> words[i].I64?
    ensures
      var whole := W.RunSeq(m, [W.Call(callee), W.LocalSet(W.Reg(dest))], W.State(l, stack + words), fuel);
      if fuel == 0 then whole == W.Timeout
      else
        var w := W.RunSeq(m, m[callee].body, W.State(W.Params(words), []), fuel - 1);
        && (w == W.Trap || w == W.Timeout ==> whole == w)
        && (w.Normal? && |w.s.stack| == 1 && w.s.stack[0].I64? ==>
              whole == W.Normal(W.State(l[W.Reg(dest) := w.s.stack[0].n], stack)))
  {
    var s := W.State(l, stack + words);
    Run2(m, W.Call(callee), W.LocalSet(W.Reg(dest)), s, fuel);
    assert s.stack[|s.stack| - |words|..] == words && s.stack[..|s.stack| - |words|] == stack;
    if fuel > 0 {
      var w := W.RunSeq(m, m[callee].body, W.State(W.Params(words), []), fuel - 1);
      if w.Normal? && |w.s.stack| == 1 {
        assert (stack + w.s.stack)[..|stack|] == stack;
      }
    }
  }

  lemma ArgumentsFit(pl: Place, inst: Inst, f: Frame, l: Locals)
    requires inst.Call? && CallOk(pl.x, pl.sc, inst.dest, inst.callee, inst.args) && Related(pl, f, l)
    ensures Fits(f, l, inst.args) && GetAll(f, inst.args).Done?
    ensures var sig, xs := pl.x.sigs[inst.callee], GetAll(f, inst.args).value;
            forall i :: 0 <= i < |xs| ==> HasKind(xs[i], sig.params[i])
  {
    var sig := pl.x.sigs[inst.callee];
    forall i | 0 <= i < |inst.args|
      ensures inst.args[i] < |f.values| && HasKind(f.values[inst.args[i]], sig.params[i])
      ensures W.Read(l, W.Reg(inst.args[i])) == Word(f.values[inst.args[i]])
    {
      assert Has(pl.x, pl.sc, inst.args[i], sig.params[i]);
    }
    GetAllDone(f, inst.args);
  }

  /** What the machine does on a call, in terms of the callee's code. */
  ghost predicate CallRuns(m: W.Module, callee: string, dest: ValueId, xs: seq<Value>, l: Locals,
                           stack: seq<W.Operand>, fuel: nat, whole: W.Result)
    requires callee in m
  {
    if fuel == 0 then whole == W.Timeout
    else
      var w := W.RunSeq(m, m[callee].body, W.State(W.Params(Words(xs)), []), fuel - 1);
      && (w == W.Trap || w == W.Timeout ==> whole == w)
      && (w.Normal? && |w.s.stack| == 1 && w.s.stack[0].I64? ==>
            whole == W.Normal(W.State(l[W.Reg(dest) := w.s.stack[0].n], stack)))
  }

  lemma RunCallCode(m: W.Module, inst: Inst, f: Frame, l: Locals, stack: seq<W.Operand>, fuel: nat)
    requires inst.Call? && Fits(f, l, inst.args) && GetAll(f, inst.args).Done?
    requires inst.callee in m && m[inst.callee].params == |inst.args| && m[inst.callee].hasResult
    ensures CallRuns(m, inst.callee, inst.dest, GetAll(f, inst.args).value, l, stack, fuel,
                     W.RunSeq(m, CallCode(inst.dest, inst.callee, inst.args), W.State(l, stack), fuel))
  {
    var xs := GetAll(f, inst.args).value;
    RunArguments(m, f, l, inst.args, xs, [W.Call(inst.callee), W.LocalSet(W.Reg(inst.dest))], stack, fuel);
    RunCall(m, inst.callee, inst.dest, Words(xs), l, stack, fuel);
  }

  lemma CallOutOfFuel(m: W.Module, inst: Inst, f: Frame, l: Locals, stack: seq<W.Operand>)
    requires inst.Call? && Fits(f, l, inst.args) && GetAll(f, inst.args).Done?
    requires inst.callee in m && m[inst.callee].params == |inst.args| && m[inst.callee].hasResult
    ensures W.RunSeq(m, CallCode(inst.dest, inst.callee, inst.args), W.State(l, stack), 0) == W.Timeout
  {
    RunCallCode(m, inst, f, l, stack, 0);
  }

  /** What the interpreter does on a call, in terms of the callee's run. */
  ghost function CallOutcome(inst: Inst, f: Frame, r: Outcome<(Value, nat)>): Outcome<Frame>
    requires inst.Call?
  {
    var (x, clock) :- r;
    var g :- Put(f, inst.dest, x);
    Done(g.(clock := clock))
  }

  lemma ExecCall(p: Program, args: seq<Value>, inst: Inst, f: Frame, fuel: nat)
    requires inst.Call? && Lookup(p.functions, inst.callee).Some? && GetAll(f, inst.args).Done?
    ensures ExecInst(p, args, inst, f, fuel)
         == if fuel == 0 then OutOfFuel
            else CallOutcome(inst, f, RunFunction(p, Lookup(p.functions, inst.callee).value,
                                                  GetAll(f, inst.args).value, f.clock, fuel - 1))
  {
  }

  lemma {:induction false} CallAgrees(p: Program, sigs: Sigs, m: W.Module, pl: Place, inst: Inst, f: Frame, l: Locals,
                                      stack: seq<W.Operand>, fuel: nat)
    requires inst.Call? && World(p, sigs, m, pl) && CallOk(pl.x, pl.sc, inst.dest, inst.callee, inst.args)
    requires Related(pl, f, l)
    ensures Agree(pl, Define(pl.sc, inst.dest), f, l, stack,
                  ExecInst(p, pl.args, inst, f, fuel),
                  W.RunSeq(m, CallCode(inst.dest, inst.callee, inst.args), W.State(l, stack), fuel))
    decreases fuel, inst, 1
  {
    CalleeShape(p, sigs, inst.callee);
    ArgumentsFit(pl, inst, f, l);
    if fuel == 0 {
      ExecCall(p, pl.args, inst, f, fuel);
      CallOutOfFuel(m, inst, f, l, stack);
    } else {
      var fn, xs := Lookup(p.functions, inst.callee).value, GetAll(f, inst.args).value;
      CallGoesOn(p, sigs, m, pl, inst, fn, xs, f, l, stack, fuel);
    }
  }

  lemma {:induction false} CallGoesOn(p: Program, sigs: Sigs, m: W.Module, pl: Place, inst: Inst, fn: Function,
                                      xs: seq<Value>, f: Frame, l: Locals, stack: seq<W.Operand>, fuel: nat)
    requires inst.Call? && ProgramOk(p, sigs) && m == EmitProgram(p, sigs) && pl.x.sigs == sigs && fuel > 0
    requires CallOk(pl.x, pl.sc, inst.dest, inst.callee, inst.args) && Related(pl, f, l) && Fits(f, l, inst.args)
    requires GetAll(f, inst.args) == Done(xs) && Lookup(p.functions, inst.callee) == Some(fn)
    requires fn in p.functions && fn.name == inst.callee && fn.name in m
    requires m[fn.name] == EmitFunction(sigs[fn.name], fn)
    requires m[fn.name].params == |inst.args| && m[fn.name].hasResult
    requires |xs| == |sigs[fn.name].params|
    requires forall i :: 0 <= i < |xs| ==> HasKind(xs[i], sigs[fn.name].params[i])
    ensures Agree(pl, Define(pl.sc, inst.dest), f, l, stack, ExecInst(p, pl.args, inst, f, fuel),
                  W.RunSeq(m, CallCode(inst.dest, inst.callee, inst.args), W.State(l, stack), fuel))
    decreases fuel, inst, 0
  {
    CalleeAgrees(p, sigs, m, fn, xs, f.clock, fuel - 1);
    CallFromCallee(p, m, pl, inst, sigs[fn.name], fn, xs, f, l, stack, fuel);
  }

  /** A call agrees when its callee does. */
  lemma CallFromCallee(p: Program, m: W.Module, pl: Place, inst: Inst, sig: Sig, fn: Function, xs: seq<Value>,
                       f: Frame, l: Locals, stack: seq<W.Operand>, fuel: nat)
    requires inst.Call? && CallOk(pl.x, pl.sc, inst.dest, inst.callee, inst.args) && Related(pl, f, l) && fuel > 0
    requires Fits(f, l, inst.args) && GetAll(f, inst.args) == Done(xs) && Lookup(p.functions, inst.callee) == Some(fn)
    requires inst.callee in m && m[inst.callee].params == |inst.args| && m[inst.callee].hasResult
    requires fn.name == inst.callee && sig == pl.x.sigs[fn.name]
    requires CallAgree(sig, RunFunction(p, fn, xs, f.clock, fuel - 1),
                       W.RunSeq(m, m[fn.name].body, W.State(W.Params(Words(xs)), []), fuel - 1))
    ensures Agree(pl, Define(pl.sc, inst.dest), f, l, stack, ExecInst(p, pl.args, inst, f, fuel),
                  W.RunSeq(m, CallCode(inst.dest, inst.callee, inst.args), W.State(l, stack), fuel))
  {
    ExecCall(p, pl.args, inst, f, fuel);
    CallCombined(m, pl, inst, f, l, stack, fuel, RunFunction(p, fn, xs, f.clock, fuel - 1));
  }

  lemma CalleeShape(p: Program, sigs: Sigs, name: string)
    requires ProgramOk(p, sigs) && name in sigs
    ensures Lookup(p.functions, name).Some? && name in EmitProgram(p, sigs)
    ensures var fn, func := Lookup(p.functions, name).value, EmitProgram(p, sigs)[name];
            && fn in p.functions && fn.name == name && func == EmitFunction(sigs[name], fn)
            && func.params == |sigs[name].params| && func.hasResult == (sigs[name].result != KUnit)
  {
    ModuleLookup(p, sigs, name);
  }

  lemma {:induction false} CalleeAgrees(p: Program, sigs: Sigs, m: W.Module, fn: Function, args: seq<Value>,
                                        clock: nat, fuel: nat)
    requires ProgramOk(p, sigs) && m == EmitProgram(p, sigs) && fn in p.functions && fn.name in sigs && fn.name in m
    requires m[fn.name] == EmitFunction(sigs[fn.name], fn)
    requires |args| == |sigs[fn.name].params|
    requires forall i :: 0 <= i < |args| ==> HasKind(args[i], sigs[fn.name].params[i])
    ensures CallAgree(sigs[fn.name], RunFunction(p, fn, args, clock, fuel),
                      W.RunSeq(m, m[fn.name].body, W.State(W.Params(Words(args)), []), fuel))
    decreases fuel, fn, 1
  {
    assert FunctionOk(sigs, fn);
    FunctionAgrees(p, sigs, m, fn, args, clock, fuel);
  }

  lemma CallCombined(m: W.Module, pl: Place, inst: Inst, f: Frame, l: Locals, stack: seq<W.Operand>, fuel: nat,
                     r: Outcome<(Value, nat)>)
    requires inst.Call? && CallOk(pl.x, pl.sc, inst.dest, inst.callee, inst.args) && Related(pl, f, l) && fuel > 0
    requires Fits(f, l, inst.args) && GetAll(f, inst.args).Done?
    requires inst.callee in m && m[inst.callee].params == |inst.args| && m[inst.callee].hasResult
    requires CallAgree(pl.x.sigs[inst.callee], r,
                       W.RunSeq(m, m[inst.callee].body, W.State(W.Params(Words(GetAll(f, inst.args).value)), []),
                                fuel - 1))
    ensures Agree(pl, Define(pl.sc, inst.dest), f, l, stack, CallOutcome(inst, f, r),
                  W.RunSeq(m, CallCode(inst.dest, inst.callee, inst.args), W.State(l, stack), fuel))
  {
    RunCallCode(m, inst, f, l, stack, fuel);
    if r.Done? { CallFinished(pl, inst, f, l, r); }
  }

  lemma CallFinished(pl: Place, inst: Inst, f: Frame, l: Locals, r: Outcome<(Value, nat)>)
    requires inst.Call? && CallOk(pl.x, pl.sc, inst.dest, inst.callee, inst.args) && Related(pl, f, l)
    requires r.Done? && HasKind(r.value.0, pl.x.sigs[inst.callee].result)
    ensures Put(f, inst.dest, r.value.0).Done?
    ensures Finished(pl, Define(pl.sc, inst.dest), f, l, Put(f, inst.dest, r.value.0).value.(clock := r.value.1),
                     l[W.Reg(inst.dest) := Word(r.value.0)])
  {
    DefineRegister(pl, f, l, inst.dest, r.value.0, Word(r.value.0));
  }
}
