/** The mid-level IR and its reference interpreter.
    Blocks are nested instruction lists, values are write-anywhere registers, slots are the
    mutable locals.  The interpreter is a big-step evaluator with a step budget: the budget is
    spent on loop back edges and calls only, and `MoreFuelSameOutcome` shows that it never
    changes an outcome, so "the program terminates" means "some budget suffices". */
module Mir {
  type ValueId = nat
  type SlotId = nat

  datatype Option<+T> = None | Some(value: T)

  /** Where a text or list was made: in read-only data, or in the arena.  The stamp is the
      reading of a clock that ticks on every arena creation, so it identifies the object. */
  datatype Origin = Static | Arena(stamp: nat)

  datatype Value =
    | Unit
    | Int(n: int)
    | Bool(b: bool)
    | Text(chars: string, origin: Origin)
    | List(elems: seq<Value>, origin: Origin)
    | Record(fields: seq<Value>)
    | Enum(tag: int, payload: Option<Value>)

  datatype BinOp = Add | Sub | Mul | Div | Rem | And | Or | Eq | Ne | Lt | Le | Gt | Ge

  datatype Inst =
    | ConstInt(dest: ValueId, value: int)
    | ConstBool(dest: ValueId, flag: bool)
    | ConstText(dest: ValueId, text: string)
    | LoadParam(dest: ValueId, index: nat)
    | LoadLocal(dest: ValueId, slot: SlotId)
    | StoreLocal(slot: SlotId, src: ValueId)
    | Binary(dest: ValueId, op: BinOp, left: ValueId, right: ValueId)
    | ArgText(dest: ValueId, arg: ValueId)
    | TextConcat(dest: ValueId, left: ValueId, right: ValueId)
    | ListNew(dest: ValueId, len: ValueId, fill: ValueId)
    | ListLen(dest: ValueId, list: ValueId)
    | ListGet(dest: ValueId, list: ValueId, at: ValueId)
    | ListSet(dest: ValueId, list: ValueId, at: ValueId, elem: ValueId)
    | MakeRecord(dest: ValueId, parts: seq<ValueId>)
    | Field(dest: ValueId, base: ValueId, field: nat)
    | MakeEnum(dest: ValueId, tag: int, part: Option<ValueId>)
    | EnumTagEq(dest: ValueId, base: ValueId, tag: int)
    | EnumPayload(dest: ValueId, base: ValueId)
    | Call(dest: ValueId, callee: string, args: seq<ValueId>)
    | Assert(condition: ValueId)
    | If(dest: ValueId, condition: ValueId,
         thenInsts: seq<Inst>, thenResult: Option<ValueId>,
         elseInsts: seq<Inst>, elseResult: Option<ValueId>)
    | While(dest: ValueId, condInsts: seq<Inst>, condition: ValueId, body: seq<Inst>)
    | Repeat(dest: ValueId, count: ValueId, indexSlot: Option<SlotId>, body: seq<Inst>)

  datatype Function = Function(
    name: string,
    returnType: Option<string>,
    effects: seq<string>,
    body: seq<Inst>,
    result: Option<ValueId>,
    valueCount: nat,
    slotCount: nat)

  /** A program together with the command line it is run with. */
  datatype Program = Program(functions: seq<Function>, commandLine: seq<string>)

  datatype Fault =
    | BadOperand
    | AssertFailed
    | DivisionByZero
    | DivisionOverflow
    | RemainderOverflow
    | UnknownCallee
    | WildAccess  // an unchecked access outside its list; native code only

  datatype Outcome<+T> = Done(value: T) | Failed(fault: Fault) | OutOfFuel {
    predicate IsFailure() { !Done? }
    function PropagateFailure<U>(): Outcome<U>
      requires IsFailure()
    {
      match this
      case Failed(e) => Failed(e)
      case OutOfFuel => OutOfFuel
    }
    function Extract(): T
      requires Done?
    {
      value
    }
  }

  /** The registers and slots of one activation, and the arena clock. */
  datatype Frame = Frame(values: seq<Value>, slots: seq<Value>, clock: nat)

  // ---- 64-bit integers --------------------------------------------------------------------

  const I64_MIN: int := -0x8000_0000_0000_0000
  const I64_MAX: int := 0x7FFF_FFFF_FFFF_FFFF

  predicate IsI64(n: int) { I64_MIN <= n <= I64_MAX }

  /** Two's complement wrap-around to 64 bits. */
  function Wrap64(n: int): (r: int)
    ensures IsI64(r) && (IsI64(n) ==> r == n) && (r - n) % 0x1_0000_0000_0000_0000 == 0
  {
    (n + 0x8000_0000_0000_0000) % 0x1_0000_0000_0000_0000 - 0x8000_0000_0000_0000
  }

  function Abs(n: int): nat { if n >= 0 then n else -n }

  /** Division that truncates toward zero, as Rust and WebAssembly do. */
  function TruncDiv(a: int, b: int): int
    requires b != 0
  {
    if (a >= 0) == (b > 0) then Abs(a) / Abs(b) else -(Abs(a) / Abs(b))
  }

  /** Its remainder, which takes the sign of the dividend. */
  function TruncRem(a: int, b: int): int
    requires b != 0
  {
    if a >= 0 then Abs(a) % Abs(b) else -(Abs(a) % Abs(b))
  }

  /** Quotient and remainder give the dividend back; the remainder is smaller than the divisor and is
      zero or has the sign of the dividend. */
  lemma TruncationLaw(a: int, b: int)
    requires b != 0
    ensures a == TruncDiv(a, b) * b + TruncRem(a, b)
    ensures if b > 0 then -b < TruncRem(a, b) < b else b < TruncRem(a, b) < -b
    ensures (TruncRem(a, b) > 0 ==> a > 0) && (TruncRem(a, b) < 0 ==> a < 0)
  {
    var q, r := Divided(Abs(a), Abs(b));
    SignedLaw(a, b, q, r, TruncDiv(a, b), TruncRem(a, b));
  }

  lemma Divided(x: nat, y: nat) returns (q: nat, r: nat)
    requires y > 0
    ensures q == x / y && r == x % y && x == q * y + r && r < y
  {
    q, r := x / y, x % y;
  }

  lemma SignedLaw(a: int, b: int, q: nat, r: nat, d: int, m: int)
    requires b != 0 && Abs(a) == q * Abs(b) + r && r < Abs(b)
    requires d == (if (a >= 0) == (b > 0) then q else -(q as int)) && m == if a >= 0 then r else -(r as int)
    ensures a == d * b + m && (if b > 0 then -b < m < b else b < m < -b) && (m > 0 ==> a > 0) && (m < 0 ==> a < 0)
  {
    var p := q * Abs(b);
    SignedProduct(a, b, q, d, p);
    assert Abs(a) == p + r;
  }

  lemma SignedProduct(a: int, b: int, q: nat, d: int, p: int)
    requires b != 0 && p == q * Abs(b) && d == if (a >= 0) == (b > 0) then q else -(q as int)
    ensures p >= 0 && d * b == if a >= 0 then p else -p
  {
    if b > 0 {
      assert d * b == if a >= 0 then q * b else -(q * b);
    } else {
      assert q * -b == -(q * b);
      assert d * b == if a >= 0 then -(q * b) else q * b;
    }
  }

  // ---- Registers and slots ----------------------------------------------------------------

  function Get(f: Frame, v: ValueId): Outcome<Value> {
    if v < |f.values| then Done(f.values[v]) else Failed(BadOperand)
  }

  function Put(f: Frame, v: ValueId, x: Value): (r: Outcome<Frame>)
    ensures r.Done? ==> |r.value.values| == |f.values| && r.value.slots == f.slots && r.value.clock == f.clock
  {
    if v < |f.values| then Done(f.(values := f.values[v := x])) else Failed(BadOperand)
  }

  function GetInt(f: Frame, v: ValueId): Outcome<int> {
    var x :- Get(f, v);
    if x.Int? then Done(x.n) else Failed(BadOperand)
  }

  function GetBool(f: Frame, v: ValueId): Outcome<bool> {
    var x :- Get(f, v);
    if x.Bool? then Done(x.b) else Failed(BadOperand)
  }

  function GetAll(f: Frame, vs: seq<ValueId>): (r: Outcome<seq<Value>>)
    ensures r.Done? ==> |r.value| == |vs|
    ensures r.Done? ==> forall i :: 0 <= i < |vs| ==> vs[i] < |f.values| && r.value[i] == f.values[vs[i]]
  {
    if vs == [] then Done([]) else
    var x :- Get(f, vs[0]);
    var xs :- GetAll(f, vs[1..]);
    Done([x] + xs)
  }

  /** A block's optional result register; a missing one reads as unit. */
  function ResultOf(f: Frame, r: Option<ValueId>): Value {
    if r.Some? && r.value < |f.values| then f.values[r.value] else Unit
  }

  function SetSlot(f: Frame, slot: SlotId, x: Value): (r: Outcome<Frame>)
    ensures r.Done? ==> |r.value.slots| == |f.slots| && r.value.values == f.values && r.value.clock == f.clock
  {
    if slot < |f.slots| then Done(f.(slots := f.slots[slot := x])) else Failed(BadOperand)
  }

  function SetIndex(f: Frame, slot: Option<SlotId>, i: int): Outcome<Frame> {
    if slot.Some? then SetSlot(f, slot.value, Int(i)) else Done(f)
  }

  // ---- Scalar operations ------------------------------------------------------------------

  /** Equality of run-time values: texts by content, lists by identity, aggregates by parts. */
  predicate SameValue(x: Value, y: Value)
    decreases x
  {
    match (x, y)
    case (Unit, Unit) => true
    case (Int(m), Int(n)) => m == n
    case (Bool(a), Bool(b)) => a == b
    case (Text(s, _), Text(t, _)) => s == t
    case (List(_, o), List(_, o')) => o == o'
    case (Record(fs), Record(gs)) =>
      |fs| == |gs| && forall i :: 0 <= i < |fs| ==> SameValue(fs[i], gs[i])
    case (Enum(t, p), Enum(t', p')) =>
      t == t' && (match (p, p')
                  case (None, None) => true
                  case (Some(a), Some(b)) => SameValue(a, b)
                  case _ => false)
    case _ => false
  }

  function Arith(op: BinOp, l: int, r: int): Outcome<Value> {
    match op
    case Add => Done(Int(Wrap64(l + r)))
    case Sub => Done(Int(Wrap64(l - r)))
    case Mul => Done(Int(Wrap64(l * r)))
    case Div =>
      if r == 0 then Failed(DivisionByZero)
      else if l == I64_MIN && r == -1 then Failed(DivisionOverflow)
      else Done(Int(TruncDiv(l, r)))
    case Rem =>
      if r == 0 then Failed(DivisionByZero)
      else if l == I64_MIN && r == -1 then Failed(RemainderOverflow)
      else Done(Int(TruncRem(l, r)))
    case Lt => Done(Bool(l < r))
    case Le => Done(Bool(l <= r))
    case Gt => Done(Bool(l > r))
    case Ge => Done(Bool(l >= r))
    case _ => Failed(BadOperand)
  }

  function EvalBinary(op: BinOp, x: Value, y: Value): Outcome<Value> {
    match op
    case Eq => Done(Bool(SameValue(x, y)))
    case Ne => Done(Bool(!SameValue(x, y)))
    case And => if x.Bool? && y.Bool? then Done(Bool(x.b && y.b)) else Failed(BadOperand)
    case Or => if x.Bool? && y.Bool? then Done(Bool(x.b || y.b)) else Failed(BadOperand)
    case _ => if x.Int? && y.Int? then Arith(op, x.n, y.n) else Failed(BadOperand)
  }

  // ---- The interpreter --------------------------------------------------------------------

  /** The function a call by `name` reaches; of two definitions the later one wins. */
  function Lookup(fs: seq<Function>, name: string): (r: Option<Function>)
    ensures r.Some? ==> r.value in fs && r.value.name == name
    ensures r.None? ==> forall g :: g in fs ==> g.name != name
  {
    if fs == [] then None
    else
      var n := |fs| - 1;
      assert forall g :: g in fs ==> g == fs[n] || g in fs[..n];
      if fs[n].name == name then Some(fs[n]) else Lookup(fs[..n], name)
  }

  function Repeated(x: Value, n: nat): (s: seq<Value>) {
    seq(n, _ => x)
  }

  /** Instructions that compute one value from the frame and write it to their register. */
  predicate IsPlain(inst: Inst) {
    !inst.StoreLocal? && !inst.Assert? && !inst.Call? && !inst.If? && !inst.While? && !inst.Repeat?
  }

  /** Instructions that make a new arena object. */
  predicate Creates(inst: Inst) {
    inst.ArgText? || inst.TextConcat? || inst.ListNew?
  }

  function Compute(p: Program, args: seq<Value>, inst: Inst, f: Frame): Outcome<Value>
    requires IsPlain(inst)
  {
    match inst
    case ConstInt(_, n) => Done(Int(n))
    case ConstBool(_, b) => Done(Bool(b))
    case ConstText(_, s) => Done(Text(s, Static))
    case LoadParam(_, i) => if i < |args| then Done(args[i]) else Failed(BadOperand)
    case LoadLocal(_, s) => if s < |f.slots| then Done(f.slots[s]) else Failed(BadOperand)
    case Binary(_, op, l, r) =>
      var x :- Get(f, l);
      var y :- Get(f, r);
      EvalBinary(op, x, y)
    case ArgText(_, a) =>
      var i :- GetInt(f, a);
      Done(Text(if 0 <= i < |p.commandLine| then p.commandLine[i] else "", Arena(f.clock)))
    case TextConcat(_, l, r) =>
      var x :- Get(f, l);
      var y :- Get(f, r);
      if x.Text? && y.Text? then Done(Text(x.chars + y.chars, Arena(f.clock))) else Failed(BadOperand)
    case ListNew(_, len, fill) =>
      var n :- GetInt(f, len);
      var x :- Get(f, fill);
      if n < 0 then Failed(BadOperand) else Done(List(Repeated(x, n), Arena(f.clock)))
    case ListLen(_, l) =>
      var x :- Get(f, l);
      if x.List? then Done(Int(|x.elems|)) else Failed(BadOperand)
    case ListGet(_, l, at) =>
      var x :- Get(f, l);
      var i :- GetInt(f, at);
      if !x.List? then Failed(BadOperand)
      else Done(if 0 <= i < |x.elems| then x.elems[i] else Int(0))
    case ListSet(_, l, at, e) =>
      var x :- Get(f, l);
      var i :- GetInt(f, at);
      var y :- Get(f, e);
      if !x.List? then Failed(BadOperand)
      else Done(if 0 <= i < |x.elems| then x.(elems := x.elems[i := y]) else x)
    case MakeRecord(_, parts) =>
      var xs :- GetAll(f, parts);
      Done(Record(xs))
    case Field(_, base, k) =>
      var x :- Get(f, base);
      if x.Record? && k < |x.fields| then Done(x.fields[k]) else Failed(BadOperand)
    case MakeEnum(_, tag, part) =>
      if part.None? then Done(Enum(tag, None)) else
      var x :- Get(f, part.value);
      Done(Enum(tag, Some(x)))
    case EnumTagEq(_, base, tag) =>
      var x :- Get(f, base);
      if x.Enum? then Done(Bool(x.tag == tag))
      else if x.Int? then Done(Bool(x.n == tag)) else Failed(BadOperand)
    case EnumPayload(_, base) =>
      var x :- Get(f, base);
      if x.Enum? && x.payload.Some? then Done(x.payload.value) else Failed(BadOperand)
  }

  /** Instructions without nested blocks and without calls. */
  function ExecSimple(p: Program, args: seq<Value>, inst: Inst, f: Frame): Outcome<Frame>
    requires !inst.Call? && !inst.If? && !inst.While? && !inst.Repeat?
  {
    if inst.StoreLocal? then
      var x :- Get(f, inst.src);
      SetSlot(f, inst.slot, x)
    else if inst.Assert? then
      var b :- GetBool(f, inst.condition);
      if b then Done(f) else Failed(AssertFailed)
    else
      var x :- Compute(p, args, inst, f);
      var g :- Put(f, inst.dest, x);
      Done(g.(clock := if Creates(inst) then f.clock + 1 else f.clock))
  }

  function ExecSeq(p: Program, args: seq<Value>, insts: seq<Inst>, f: Frame, fuel: nat): Outcome<Frame>
    decreases fuel, insts, 0
  {
    if insts == [] then Done(f) else
    var g :- ExecInst(p, args, insts[0], f, fuel);
    ExecSeq(p, args, insts[1..], g, fuel)
  }

  function ExecInst(p: Program, args: seq<Value>, inst: Inst, f: Frame, fuel: nat): Outcome<Frame>
    decreases fuel, inst, 1
  {
    if inst.Call? then
      var fn := Lookup(p.functions, inst.callee);
      if fn.None? then Failed(UnknownCallee) else
      var xs :- GetAll(f, inst.args);
      if fuel == 0 then OutOfFuel else
      var (x, clock) :- RunFunction(p, fn.value, xs, f.clock, fuel - 1);
      var g :- Put(f, inst.dest, x);
      Done(g.(clock := clock))
    else if inst.If? then
      var b :- GetBool(f, inst.condition);
      var g :- if b then ExecSeq(p, args, inst.thenInsts, f, fuel)
               else ExecSeq(p, args, inst.elseInsts, f, fuel);
      Put(g, inst.dest, ResultOf(g, if b then inst.thenResult else inst.elseResult))
    else if inst.While? then
      ExecWhile(p, args, inst, f, fuel)
    else if inst.Repeat? then
      var n :- GetInt(f, inst.count);
      ExecRepeat(p, args, inst, n, 0, f, fuel)
    else
      ExecSimple(p, args, inst, f)
  }

  function ExecWhile(p: Program, args: seq<Value>, loop: Inst, f: Frame, fuel: nat): Outcome<Frame>
    requires loop.While?
    decreases fuel, loop, 0
  {
    var g :- ExecSeq(p, args, loop.condInsts, f, fuel);
    var b :- GetBool(g, loop.condition);
    if !b then Put(g, loop.dest, Unit) else
    var h :- ExecSeq(p, args, loop.body, g, fuel);
    if fuel == 0 then OutOfFuel else ExecWhile(p, args, loop, h, fuel - 1)
  }

  /** Iterations `i`, `i + 1`, ... of a counted loop; the count was read once, on entry. */
  function ExecRepeat(p: Program, args: seq<Value>, loop: Inst, n: int, i: nat, f: Frame, fuel: nat): Outcome<Frame>
    requires loop.Repeat?
    decreases fuel, loop, 0
  {
    if i >= n then Put(f, loop.dest, Unit) else
    var g :- SetIndex(f, loop.indexSlot, i);
    var h :- ExecSeq(p, args, loop.body, g, fuel);
    if fuel == 0 then OutOfFuel else ExecRepeat(p, args, loop, n, i + 1, h, fuel - 1)
  }

  function AtLeastOne(n: nat): nat { if n == 0 then 1 else n }

  function Entry(fn: Function, clock: nat): Frame {
    Frame(Repeated(Unit, AtLeastOne(fn.valueCount)), Repeated(Unit, AtLeastOne(fn.slotCount)), clock)
  }

  /** One activation: the returned value and the clock afterwards. */
  function RunFunction(p: Program, fn: Function, args: seq<Value>, clock: nat, fuel: nat): Outcome<(Value, nat)>
    decreases fuel, fn
  {
    var f :- ExecSeq(p, args, fn.body, Entry(fn, clock), fuel);
    Done((ResultOf(f, fn.result), f.clock))
  }

  // ---- The budget never changes an outcome --------------------------------------------------

  ghost predicate Extends<T>(a: Outcome<T>, b: Outcome<T>) {
    a.OutOfFuel? || a == b
  }

  lemma {:induction false} MoreFuelSeq(p: Program, args: seq<Value>, insts: seq<Inst>, f: Frame, fuel: nat, more: nat)
    requires fuel <= more
    ensures Extends(ExecSeq(p, args, insts, f, fuel), ExecSeq(p, args, insts, f, more))
    decreases fuel, insts, 0
  {
    if insts != [] {
      MoreFuelInst(p, args, insts[0], f, fuel, more);
      var r := ExecInst(p, args, insts[0], f, fuel);
      if r.Done? {
        MoreFuelSeq(p, args, insts[1..], r.value, fuel, more);
      }
    }
  }

  lemma {:induction false} MoreFuelInst(p: Program, args: seq<Value>, inst: Inst, f: Frame, fuel: nat, more: nat)
    requires fuel <= more
    ensures Extends(ExecInst(p, args, inst, f, fuel), ExecInst(p, args, inst, f, more))
    decreases fuel, inst, 1
  {
    if inst.Call? {
      var fn := Lookup(p.functions, inst.callee);
      var xs := GetAll(f, inst.args);
      if fn.Some? && xs.Done? && fuel > 0 {
        MoreFuelSameOutcome(p, fn.value, xs.value, f.clock, fuel - 1, more - 1);
      }
    } else if inst.If? {
      MoreFuelSeq(p, args, inst.thenInsts, f, fuel, more);
      MoreFuelSeq(p, args, inst.elseInsts, f, fuel, more);
    } else if inst.While? {
      MoreFuelWhile(p, args, inst, f, fuel, more);
    } else if inst.Repeat? {
      var n := GetInt(f, inst.count);
      if n.Done? {
        MoreFuelRepeat(p, args, inst, n.value, 0, f, fuel, more);
      }
    }
  }

  lemma {:induction false} MoreFuelWhile(p: Program, args: seq<Value>, loop: Inst, f: Frame, fuel: nat, more: nat)
    requires loop.While? && fuel <= more
    ensures Extends(ExecWhile(p, args, loop, f, fuel), ExecWhile(p, args, loop, f, more))
    decreases fuel, loop, 0
  {
    MoreFuelSeq(p, args, loop.condInsts, f, fuel, more);
    var g := ExecSeq(p, args, loop.condInsts, f, fuel);
    if g.Done? {
      MoreFuelSeq(p, args, loop.body, g.value, fuel, more);
      var h := ExecSeq(p, args, loop.body, g.value, fuel);
      if h.Done? && fuel > 0 {
        MoreFuelWhile(p, args, loop, h.value, fuel - 1, more - 1);
      }
    }
  }

  lemma {:induction false} MoreFuelRepeat(p: Program, args: seq<Value>, loop: Inst, n: int, i: nat, f: Frame,
                                          fuel: nat, more: nat)
    requires loop.Repeat? && fuel <= more
    ensures Extends(ExecRepeat(p, args, loop, n, i, f, fuel), ExecRepeat(p, args, loop, n, i, f, more))
    decreases fuel, loop, 0
  {
    if i < n {
      var g := SetIndex(f, loop.indexSlot, i);
      if g.Done? {
        MoreFuelSeq(p, args, loop.body, g.value, fuel, more);
        var h := ExecSeq(p, args, loop.body, g.value, fuel);
        if h.Done? && fuel > 0 {
          MoreFuelRepeat(p, args, loop, n, i + 1, h.value, fuel - 1, more - 1);
        }
      }
    }
  }

  /** A run that ends, ends the same way under every larger budget. */
  lemma {:induction false} MoreFuelSameOutcome(p: Program, fn: Function, args: seq<Value>, clock: nat, fuel: nat,
                                               more: nat)
    requires fuel <= more
    ensures Extends(RunFunction(p, fn, args, clock, fuel), RunFunction(p, fn, args, clock, more))
    decreases fuel, fn
  {
    MoreFuelSeq(p, args, fn.body, Entry(fn, clock), fuel, more);
  }
}
