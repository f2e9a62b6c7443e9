/** Programs that the lowering accepts, and what they compute in the interpreter and as emitted
    code, for every argument. */
module WasmExamples {
  import opened Mir
  import opened WasmLowering
  import opened WasmCorrectness
  import W = Wasm

  function Addition(): seq<Inst> {
    [LoadLocal(3, 0), LoadLocal(4, 1), Binary(5, Add, 3, 4), StoreLocal(0, 5)]
  }

  /** Adds up the index of a counted loop. */
  function Triangle(): Function {
    Function("triangle", None, [], TriangleBody(), Some(6), 7, 2)
  }

  function TriangleBody(): seq<Inst> {
    [ConstInt(0, 0), StoreLocal(0, 0), LoadParam(1, 0), AddingLoop(), LoadLocal(6, 0)]
  }

  function AddingLoop(): Inst {
    Repeat(2, 1, Some(1), Addition())
  }

  /** Multiplies with what it returns for one less. */
  function Factorial(): Function {
    Function("factorial", None, [], FactorialBody(), Some(3), 8, 0)
  }

  function FactorialBody(): seq<Inst> {
    [LoadParam(0, 0), ConstInt(1, 1), Binary(2, Le, 0, 1), Choice()]
  }

  function Choice(): Inst {
    If(3, 2, One(), Some(4), Recursion(), Some(7))
  }

  function One(): seq<Inst> {
    [ConstInt(4, 1)]
  }

  function Recursion(): seq<Inst> {
    [Binary(5, Sub, 0, 1), Call(6, "factorial", [5]), Binary(7, Mul, 0, 6)]
  }

  /** Takes remainders until one is zero. */
  function Euclid(): Function {
    Function("euclid", None, [], EuclidBody(), Some(9), 10, 2)
  }

  function EuclidBody(): seq<Inst> {
    [LoadParam(0, 0), StoreLocal(0, 0), LoadParam(1, 1), StoreLocal(1, 1), ConstInt(2, 0), Dividing(), LoadLocal(9, 0)]
  }

  function Dividing(): Inst {
    While(3, NotZero(), 5, Division())
  }

  function NotZero(): seq<Inst> {
    [LoadLocal(4, 1), Binary(5, Ne, 4, 2)]
  }

  function Division(): seq<Inst> {
    [LoadLocal(6, 0), LoadLocal(7, 1), Binary(8, Rem, 6, 7), StoreLocal(0, 7), StoreLocal(1, 8)]
  }

  function Examples(): seq<Function> {
    [Triangle(), Factorial(), Euclid()]
  }

  function Registers(kinds: seq<Kind>): map<ValueId, Kind> {
    map v: ValueId | v < |kinds| :: kinds[v]
  }

  function TriangleSig(): Sig {
    Sig([KInt], KInt, Registers([KInt, KInt, KUnit, KInt, KInt, KInt, KInt]), Registers([KInt, KInt]))
  }

  function FactorialSig(): Sig {
    Sig([KInt], KInt, Registers([KInt, KInt, KBool, KInt, KInt, KInt, KInt, KInt]), map[])
  }

  function EuclidSig(): Sig {
    Sig([KInt, KInt], KInt, Registers([KInt, KInt, KInt, KUnit, KInt, KBool, KInt, KInt, KInt, KInt]),
        Registers([KInt, KInt]))
  }

  function ExampleSigs(): Sigs {
    map["triangle" := TriangleSig(), "factorial" := FactorialSig(), "euclid" := EuclidSig()]
  }

  // ---- Well-formedness ----------------------------------------------------------------------

  /** A block is well-formed when each instruction leads from one scope to the next. */
  lemma {:induction false} Chain(x: Setting, insts: seq<Inst>, scs: seq<Scope>, active: set<ValueId>)
    requires |scs| == |insts| + 1
    requires forall i :: 0 <= i < |insts| ==> CheckInst(x, insts[i], scs[i], active) == Some(scs[i + 1])
    ensures CheckSeq(x, insts, scs[0], active) == Some(scs[|insts|])
    decreases |insts|
  {
    if insts != [] {
      assert CheckInst(x, insts[0], scs[0], active) == Some(scs[1]);
      Chain(x, insts[1..], scs[1..], active);
    }
  }

  lemma AdditionOk(x: Setting, sc: Scope, active: set<ValueId>)
    requires x.sig == TriangleSig() && x.valueCount == 7 && x.slotCount == 2
    requires 3 !in sc.values && 4 !in sc.values && 5 !in sc.values && 0 in sc.slots && 1 in sc.slots
    ensures CheckSeq(x, Addition(), sc, active).Some?
  {
    var a, b, c := Define(sc, 3), Define(Define(sc, 3), 4), Define(Define(Define(sc, 3), 4), 5);
    var d := c.(slots := c.slots + {0});
    assert CheckInst(x, Addition()[0], sc, active) == Some(a);
    assert CheckInst(x, Addition()[1], a, active) == Some(b);
    assert CheckInst(x, Addition()[2], b, active) == Some(c);
    assert CheckInst(x, Addition()[3], c, active) == Some(d);
    Chain(x, Addition(), [sc, a, b, c, d], active);
  }

  lemma TriangleStartsOk(x: Setting, s0: Scope) returns (s1: Scope, s2: Scope, s3: Scope)
    requires x.sig == TriangleSig() && x.valueCount == 7 && x.slotCount == 2 && s0 == Scope({}, {})
    ensures CheckInst(x, TriangleBody()[0], s0, {}) == Some(s1)
    ensures CheckInst(x, TriangleBody()[1], s1, {}) == Some(s2)
    ensures CheckInst(x, TriangleBody()[2], s2, {}) == Some(s3)
    ensures s3 == Scope({0, 1}, {0})
  {
    s1 := Define(s0, 0);
    s2 := s1.(slots := s1.slots + {0});
    s3 := Define(s2, 1);
  }

  lemma TriangleEndsOk(x: Setting, s3: Scope) returns (s4: Scope, s5: Scope)
    requires x.sig == TriangleSig() && x.valueCount == 7 && x.slotCount == 2 && s3 == Scope({0, 1}, {0})
    ensures CheckInst(x, TriangleBody()[3], s3, {}) == Some(s4)
    ensures CheckInst(x, TriangleBody()[4], s4, {}) == Some(s5)
    ensures Has(x, s5, 6, KInt)
  {
    s4, s5 := Define(s3, 2), Define(Define(s3, 2), 6);
    AdditionOk(x, RepeatScope(s3, Some(1)), {} + {1});
  }

  lemma TriangleBodyOk(x: Setting, s0: Scope)
    requires x.sig == TriangleSig() && x.valueCount == 7 && x.slotCount == 2 && s0 == Scope({}, {})
    ensures var r := CheckSeq(x, TriangleBody(), s0, {}); r.Some? && Has(x, r.value, 6, KInt)
  {
    var s1, s2, s3 := TriangleStartsOk(x, s0);
    var s4, s5 := TriangleEndsOk(x, s3);
    Chain(x, TriangleBody(), [s0, s1, s2, s3, s4, s5], {});
  }

  lemma RecursionOk(x: Setting, sc: Scope)
    requires x.sig == FactorialSig() && x.sigs == ExampleSigs() && x.valueCount == 8
    requires sc.values == {0, 1, 2}
    ensures CheckSeq(x, Recursion(), sc, {}) == Some(Define(Define(Define(sc, 5), 6), 7))
  {
    var a, b, c := Define(sc, 5), Define(Define(sc, 5), 6), Define(Define(Define(sc, 5), 6), 7);
    assert CheckInst(x, Recursion()[0], sc, {}) == Some(a);
    assert CheckInst(x, Recursion()[1], a, {}) == Some(b);
    assert CheckInst(x, Recursion()[2], b, {}) == Some(c);
    Chain(x, Recursion(), [sc, a, b, c], {});
  }

  lemma ChoiceOk(x: Setting, sc: Scope)
    requires x.sig == FactorialSig() && x.sigs == ExampleSigs() && x.valueCount == 8
    requires sc.values == {0, 1, 2} && sc.slots == {}
    ensures CheckIf(x, Choice(), sc, {}) == Some(Define(sc, 3))
  {
    RecursionOk(x, sc);
    Chain(x, One(), [sc, Define(sc, 4)], {});
    assert sc.slots * sc.slots == sc.slots;
  }

  lemma FactorialStartsOk(x: Setting, s0: Scope) returns (s1: Scope, s2: Scope, s3: Scope)
    requires x.sig == FactorialSig() && x.valueCount == 8 && s0 == Scope({}, {})
    ensures CheckInst(x, FactorialBody()[0], s0, {}) == Some(s1)
    ensures CheckInst(x, FactorialBody()[1], s1, {}) == Some(s2)
    ensures CheckInst(x, FactorialBody()[2], s2, {}) == Some(s3)
    ensures s3 == Scope({0, 1, 2}, {})
  {
    s1, s2 := Define(s0, 0), Define(Define(s0, 0), 1);
    s3 := Define(s2, 2);
  }

  lemma FactorialBodyOk(x: Setting, s0: Scope)
    requires x.sig == FactorialSig() && x.sigs == ExampleSigs() && x.valueCount == 8 && s0 == Scope({}, {})
    ensures var r := CheckSeq(x, FactorialBody(), s0, {}); r.Some? && Has(x, r.value, 3, KInt)
  {
    var s1, s2, s3 := FactorialStartsOk(x, s0);
    var s4 := Define(s3, 3);
    ChoiceOk(x, s3);
    assert CheckInst(x, FactorialBody()[3], s3, {}) == Some(s4);
    Chain(x, FactorialBody(), [s0, s1, s2, s3, s4], {});
  }

  lemma DividingOk(x: Setting, sc: Scope)
    requires x.sig == EuclidSig() && x.valueCount == 10 && x.slotCount == 2
    requires sc.values == {0, 1, 2} && sc.slots == {0, 1}
    ensures CheckWhile(x, Dividing(), sc, {}) == Some(Define(sc, 3))
  {
    var a, b := Define(sc, 4), Define(Define(sc, 4), 5);
    assert CheckInst(x, NotZero()[0], sc, {}) == Some(a);
    assert CheckInst(x, NotZero()[1], a, {}) == Some(b);
    Chain(x, NotZero(), [sc, a, b], {});
    DivisionOk(x, b);
  }

  lemma DivisionOk(x: Setting, sc: Scope)
    requires x.sig == EuclidSig() && x.valueCount == 10 && x.slotCount == 2
    requires sc.values == {0, 1, 2, 4, 5} && sc.slots == {0, 1}
    ensures CheckSeq(x, Division(), sc, {}).Some?
  {
    var a, b, c := Define(sc, 6), Define(Define(sc, 6), 7), Define(Define(Define(sc, 6), 7), 8);
    var d := c.(slots := c.slots + {0});
    var e := d.(slots := d.slots + {1});
    assert CheckInst(x, Division()[0], sc, {}) == Some(a);
    assert CheckInst(x, Division()[1], a, {}) == Some(b);
    assert CheckInst(x, Division()[2], b, {}) == Some(c);
    assert CheckInst(x, Division()[3], c, {}) == Some(d);
    assert CheckInst(x, Division()[4], d, {}) == Some(e);
    Chain(x, Division(), [sc, a, b, c, d, e], {});
  }

  lemma EuclidStartsOk(x: Setting, s0: Scope) returns (s1: Scope, s2: Scope, s3: Scope, s4: Scope, s5: Scope)
    requires x.sig == EuclidSig() && x.valueCount == 10 && x.slotCount == 2 && s0 == Scope({}, {})
    ensures CheckInst(x, EuclidBody()[0], s0, {}) == Some(s1)
    ensures CheckInst(x, EuclidBody()[1], s1, {}) == Some(s2)
    ensures CheckInst(x, EuclidBody()[2], s2, {}) == Some(s3)
    ensures CheckInst(x, EuclidBody()[3], s3, {}) == Some(s4)
    ensures CheckInst(x, EuclidBody()[4], s4, {}) == Some(s5)
    ensures s5 == Scope({0, 1, 2}, {0, 1})
  {
    s1 := Define(s0, 0);
    s2 := s1.(slots := s1.slots + {0});
    s3 := Define(s2, 1);
    s4 := s3.(slots := s3.slots + {1});
    s5 := Define(s4, 2);
  }

  lemma EuclidEndsOk(x: Setting, s5: Scope) returns (s6: Scope, s7: Scope)
    requires x.sig == EuclidSig() && x.valueCount == 10 && x.slotCount == 2 && s5 == Scope({0, 1, 2}, {0, 1})
    ensures CheckInst(x, EuclidBody()[5], s5, {}) == Some(s6)
    ensures CheckInst(x, EuclidBody()[6], s6, {}) == Some(s7)
    ensures Has(x, s7, 9, KInt)
  {
    s6, s7 := Define(s5, 3), Define(Define(s5, 3), 9);
    DividingOk(x, s5);
  }

  lemma EuclidBodyOk(x: Setting, s0: Scope)
    requires x.sig == EuclidSig() && x.valueCount == 10 && x.slotCount == 2 && s0 == Scope({}, {})
    ensures var r := CheckSeq(x, EuclidBody(), s0, {}); r.Some? && Has(x, r.value, 9, KInt)
  {
    var s1, s2, s3, s4, s5 := EuclidStartsOk(x, s0);
    var s6, s7 := EuclidEndsOk(x, s5);
    Chain(x, EuclidBody(), [s0, s1, s2, s3, s4, s5, s6, s7], {});
  }

  lemma TriangleOk()
    ensures FunctionOk(ExampleSigs(), Triangle())
  {
    TriangleBodyOk(SettingOf(ExampleSigs(), Triangle()), Scope({}, {}));
  }

  lemma FactorialOk()
    ensures FunctionOk(ExampleSigs(), Factorial())
  {
    FactorialBodyOk(SettingOf(ExampleSigs(), Factorial()), Scope({}, {}));
  }

  lemma EuclidOk()
    ensures FunctionOk(ExampleSigs(), Euclid())
  {
    EuclidBodyOk(SettingOf(ExampleSigs(), Euclid()), Scope({}, {}));
  }

  /** The lowering accepts counted loops, conditional loops, conditionals with a value and recursive
      calls. */
  lemma ExamplesOk(p: Program)
    requires p.functions == Examples()
    ensures ProgramOk(p, ExampleSigs())
  {
    TriangleOk();
    FactorialOk();
    EuclidOk();
  }

  // ---- What they compute ----------------------------------------------------------------------

  lemma {:induction false} RunChain(p: Program, args: seq<Value>, insts: seq<Inst>, fs: seq<Frame>, fuel: nat)
    requires |fs| == |insts| + 1
    requires forall i :: 0 <= i < |insts| ==> ExecInst(p, args, insts[i], fs[i], fuel) == Done(fs[i + 1])
    ensures ExecSeq(p, args, insts, fs[0], fuel) == Done(fs[|insts|])
    decreases |insts|
  {
    if insts != [] {
      assert ExecInst(p, args, insts[0], fs[0], fuel) == Done(fs[1]);
      RunChain(p, args, insts[1..], fs[1..], fuel);
    }
  }

  function With(f: Frame, v: ValueId, n: int): Frame
    requires v < |f.values|
  {
    f.(values := f.values[v := Int(n)])
  }

  lemma GetOne(f: Frame, v: ValueId)
    requires v < |f.values|
    ensures GetAll(f, [v]) == Done([f.values[v]])
  {
    var vs := [v];
    assert vs[1..] == [];
    assert [f.values[v]] + [] == [f.values[v]];
  }

  function Product(n: int): int
    decreases if n > 0 then n else 0
  {
    if n <= 1 then 1 else n * Product(n - 1)
  }

  /** The recursive branch, given what the call returns. */
  lemma RecursionRuns(p: Program, args: seq<Value>, f: Frame, n: int, k: int, fuel: nat) returns (g: Frame)
    requires |f.values| == 8 && f.values[0] == Int(n) && f.values[1] == Int(1) && fuel > 0
    requires Lookup(p.functions, "factorial") == Some(Factorial()) && IsI64(n - 1)
    requires RunFunction(p, Factorial(), [Int(n - 1)], f.clock, fuel - 1) == Done((Int(k), f.clock))
    ensures ExecSeq(p, args, Recursion(), f, fuel) == Done(g)
    ensures |g.values| == 8 && g.values[7] == Int(Wrap64(n * k)) && g.clock == f.clock
  {
    var a, b := With(f, 5, n - 1), With(With(f, 5, n - 1), 6, k);
    var c := With(b, 7, Wrap64(n * k));
    assert ExecInst(p, args, Recursion()[0], f, fuel) == Done(a);
    assert ExecInst(p, args, Recursion()[1], a, fuel) == Done(b) by {
      GetOne(a, 5);
    }
    assert ExecInst(p, args, Recursion()[2], b, fuel) == Done(c);
    RunChain(p, args, Recursion(), [f, a, b, c], fuel);
    g := c;
  }

  /** What the conditional leaves. */
  lemma ChoiceRuns(p: Program, args: seq<Value>, f: Frame, n: int, fuel: nat) returns (g: Frame)
    requires |f.values| == 8 && f.values[0] == Int(n) && f.values[1] == Int(1) && f.values[2] == Bool(n <= 1)
    requires Lookup(p.functions, "factorial") == Some(Factorial()) && IsI64(n)
    requires n > 1 ==> fuel > 0
                       && RunFunction(p, Factorial(), [Int(n - 1)], f.clock, fuel - 1)
                          == Done((Int(Wrap64(Product(n - 1))), f.clock))
    ensures ExecInst(p, args, Choice(), f, fuel) == Done(g)
    ensures |g.values| == 8 && g.values[3] == Int(Wrap64(Product(n))) && g.clock == f.clock
  {
    if n <= 1 {
      g := With(f, 4, 1);
      RunChain(p, args, One(), [f, g], fuel);
    } else {
      g := RecursionRuns(p, args, f, n, Wrap64(Product(n - 1)), fuel);
      WrapProduct(n, Product(n - 1));
    }
    g := With(g, 3, Wrap64(Product(n)));
  }

  /** Wrapping a factor does not change the wrapped product. */
  lemma WrapProduct(n: int, k: int)
    ensures Wrap64(n * Wrap64(k)) == Wrap64(n * k)
  {
    var m := 0x1_0000_0000_0000_0000;
    var q := (Wrap64(k) - k) / m;
    assert Wrap64(k) == k + q * m;
    assert n * Wrap64(k) == n * k + (n * q) * m;
    WrapShift(n * k, n * q);
  }

  lemma WrapShift(a: int, q: int)
    ensures Wrap64(a + q * 0x1_0000_0000_0000_0000) == Wrap64(a)
  {
    var x, m := a + 0x8000_0000_0000_0000, 0x1_0000_0000_0000_0000;
    assert (x + q * m) / m == x / m + q;
  }

  lemma FactorialStarts(p: Program, args: seq<Value>, f0: Frame, n: int, fuel: nat)
    returns (f1: Frame, f2: Frame, f3: Frame)
    requires |f0.values| == 8 && args == [Int(n)]
    ensures ExecInst(p, args, FactorialBody()[0], f0, fuel) == Done(f1)
    ensures ExecInst(p, args, FactorialBody()[1], f1, fuel) == Done(f2)
    ensures ExecInst(p, args, FactorialBody()[2], f2, fuel) == Done(f3)
    ensures |f3.values| == 8 && f3.values[0] == Int(n) && f3.values[1] == Int(1) && f3.values[2] == Bool(n <= 1)
    ensures f3.clock == f0.clock
  {
    f1, f2 := With(f0, 0, n), With(With(f0, 0, n), 1, 1);
    f3 := f2.(values := f2.values[2 := Bool(n <= 1)]);
  }

  lemma FactorialBodyRuns(p: Program, args: seq<Value>, f0: Frame, n: int, fuel: nat)
    requires |f0.values| == 8 && args == [Int(n)] && IsI64(n)
    requires Lookup(p.functions, "factorial") == Some(Factorial())
    requires n > 1 ==> fuel > 0
                       && RunFunction(p, Factorial(), [Int(n - 1)], f0.clock, fuel - 1)
                          == Done((Int(Wrap64(Product(n - 1))), f0.clock))
    ensures var r := ExecSeq(p, args, FactorialBody(), f0, fuel);
            && r.Done? && |r.value.values| == 8 && r.value.values[3] == Int(Wrap64(Product(n)))
            && r.value.clock == f0.clock
  {
    var f1, f2, f3 := FactorialStarts(p, args, f0, n, fuel);
    var f4 := ChoiceRuns(p, args, f3, n, fuel);
    RunChain(p, args, FactorialBody(), [f0, f1, f2, f3, f4], fuel);
  }

  /** The product of the numbers up to the argument, modulo 2^64, for every argument. */
  lemma {:induction false} FactorialRuns(p: Program, n: int, clock: nat, fuel: nat)
    requires Lookup(p.functions, "factorial") == Some(Factorial()) && IsI64(n) && n <= fuel
    ensures RunFunction(p, Factorial(), [Int(n)], clock, fuel) == Done((Int(Wrap64(Product(n))), clock))
    decreases fuel
  {
    if n > 1 { FactorialRuns(p, n - 1, clock, fuel - 1); }
    FactorialBodyRuns(p, [Int(n)], Entry(Factorial(), clock), n, fuel);
  }

  /** The sum of the numbers below the argument. */
  function Sum(n: int): int
    decreases if n > 0 then n else 0
  {
    if n <= 0 then 0 else Sum(n - 1) + (n - 1)
  }

  predicate Adding(f: Frame, total: int) {
    |f.values| == 7 && |f.slots| == 2 && f.slots[0] == Int(Wrap64(total))
  }

  lemma AdditionRuns(p: Program, args: seq<Value>, f: Frame, total: int, i: int, fuel: nat) returns (g: Frame)
    requires Adding(f, total) && f.slots[1] == Int(i)
    ensures ExecSeq(p, args, Addition(), f, fuel) == Done(g) && Adding(g, total + i) && g.clock == f.clock
  {
    var t := Wrap64(total);
    var a, b := With(f, 3, t), With(With(f, 3, t), 4, i);
    var c := With(b, 5, Wrap64(t + i));
    var d := c.(slots := c.slots[0 := Int(Wrap64(t + i))]);
    assert ExecInst(p, args, Addition()[0], f, fuel) == Done(a);
    assert ExecInst(p, args, Addition()[1], a, fuel) == Done(b);
    assert ExecInst(p, args, Addition()[2], b, fuel) == Done(c);
    assert ExecInst(p, args, Addition()[3], c, fuel) == Done(d);
    RunChain(p, args, Addition(), [f, a, b, c, d], fuel);
    WrapSum(total, i);
    g := d;
  }

  lemma WrapSum(a: int, b: int)
    ensures Wrap64(Wrap64(a) + b) == Wrap64(a + b)
  {
    var m := 0x1_0000_0000_0000_0000;
    var q := (Wrap64(a) - a) / m;
    assert Wrap64(a) + b == a + b + q * m;
    WrapShift(a + b, q);
  }

  lemma Iterates(p: Program, args: seq<Value>, loop: Inst, n: int, i: nat, f: Frame, g: Frame, h: Frame, fuel: nat)
    requires loop.Repeat? && i < n && fuel > 0 && SetIndex(f, loop.indexSlot, i) == Done(g)
    requires ExecSeq(p, args, loop.body, g, fuel) == Done(h)
    ensures ExecRepeat(p, args, loop, n, i, f, fuel) == ExecRepeat(p, args, loop, n, i + 1, h, fuel - 1)
  {
  }

  lemma {:induction false} LoopRuns(p: Program, args: seq<Value>, f: Frame, n: int, i: nat, fuel: nat)
    requires Adding(f, Sum(i)) && (n > 0 ==> i <= n) && n - i <= fuel && (n <= 0 ==> i == 0)
    ensures var r := ExecRepeat(p, args, AddingLoop(), n, i, f, fuel);
            r.Done? && Adding(r.value, Sum(n)) && r.value.clock == f.clock
    decreases fuel
  {
    if i < n {
      var g := f.(slots := f.slots[1 := Int(i)]);
      var h := AdditionRuns(p, args, g, Sum(i), i, fuel);
      Iterates(p, args, AddingLoop(), n, i, f, g, h, fuel);
      LoopRuns(p, args, h, n, i + 1, fuel - 1);
    }
  }

  lemma TriangleBodyRuns(p: Program, args: seq<Value>, f0: Frame, n: int, fuel: nat)
    requires |f0.values| == 7 && |f0.slots| == 2 && args == [Int(n)] && n <= fuel
    ensures var r := ExecSeq(p, args, TriangleBody(), f0, fuel);
            r.Done? && |r.value.values| == 7 && r.value.values[6] == Int(Wrap64(Sum(n))) && r.value.clock == f0.clock
  {
    var f1 := With(f0, 0, 0);
    var f2 := f1.(slots := f1.slots[0 := Int(0)]);
    var f3 := With(f2, 1, n);
    LoopRuns(p, args, f3, n, 0, fuel);
    var f4 := ExecRepeat(p, args, AddingLoop(), n, 0, f3, fuel).value;
    var f5 := With(f4, 6, Wrap64(Sum(n)));
    assert ExecInst(p, args, TriangleBody()[0], f0, fuel) == Done(f1);
    assert ExecInst(p, args, TriangleBody()[1], f1, fuel) == Done(f2);
    assert ExecInst(p, args, TriangleBody()[2], f2, fuel) == Done(f3);
    assert ExecInst(p, args, TriangleBody()[3], f3, fuel) == Done(f4);
    assert ExecInst(p, args, TriangleBody()[4], f4, fuel) == Done(f5);
    RunChain(p, args, TriangleBody(), [f0, f1, f2, f3, f4, f5], fuel);
  }

  /** The sum of the numbers below the argument, modulo 2^64, for every argument. */
  lemma TriangleRuns(p: Program, n: int, clock: nat, fuel: nat)
    requires n <= fuel
    ensures RunFunction(p, Triangle(), [Int(n)], clock, fuel) == Done((Int(Wrap64(Sum(n))), clock))
  {
    TriangleBodyRuns(p, [Int(n)], Entry(Triangle(), clock), n, fuel);
  }

  function Gcd(a: nat, b: nat): nat
    decreases b
  {
    if b == 0 then a else Gcd(b, a % b)
  }

  predicate Reducing(f: Frame, a: int, b: int) {
    |f.values| == 10 && |f.slots| == 2 && f.slots[0] == Int(a) && f.slots[1] == Int(b) && f.values[2] == Int(0)
  }

  lemma NotZeroRuns(p: Program, args: seq<Value>, f: Frame, a: int, b: int, fuel: nat) returns (g: Frame)
    requires Reducing(f, a, b)
    ensures ExecSeq(p, args, NotZero(), f, fuel) == Done(g) && Reducing(g, a, b) && g.clock == f.clock
    ensures g.values[5] == Bool(b != 0)
  {
    var h := With(f, 4, b);
    g := h.(values := h.values[5 := Bool(b != 0)]);
    assert ExecInst(p, args, NotZero()[0], f, fuel) == Done(h);
    assert ExecInst(p, args, NotZero()[1], h, fuel) == Done(g);
    RunChain(p, args, NotZero(), [f, h, g], fuel);
  }

  lemma DivisionRuns(p: Program, args: seq<Value>, f: Frame, a: nat, b: nat, fuel: nat) returns (g: Frame)
    requires Reducing(f, a, b) && b > 0
    ensures ExecSeq(p, args, Division(), f, fuel) == Done(g) && Reducing(g, b, a % b) && g.clock == f.clock
  {
    var f1, f2 := With(f, 6, a), With(With(f, 6, a), 7, b);
    var f3 := With(f2, 8, a % b);
    var f4 := f3.(slots := f3.slots[0 := Int(b)]);
    g := f4.(slots := f4.slots[1 := Int(a % b)]);
    assert ExecInst(p, args, Division()[0], f, fuel) == Done(f1);
    assert ExecInst(p, args, Division()[1], f1, fuel) == Done(f2);
    assert ExecInst(p, args, Division()[2], f2, fuel) == Done(f3);
    assert ExecInst(p, args, Division()[3], f3, fuel) == Done(f4);
    assert ExecInst(p, args, Division()[4], f4, fuel) == Done(g);
    RunChain(p, args, Division(), [f, f1, f2, f3, f4, g], fuel);
  }

  lemma {:induction false} DividingRuns(p: Program, args: seq<Value>, f: Frame, a: nat, b: nat, fuel: nat)
    returns (g: Frame)
    requires Reducing(f, a, b) && b <= fuel
    ensures ExecWhile(p, args, Dividing(), f, fuel) == Done(g) && Reducing(g, Gcd(a, b), 0) && g.clock == f.clock
    decreases b
  {
    var c := NotZeroRuns(p, args, f, a, b, fuel);
    if b == 0 {
      g := c.(values := c.values[3 := Unit]);
    } else {
      var d := DivisionRuns(p, args, c, a, b, fuel);
      g := DividingRuns(p, args, d, b, a % b, fuel - 1);
    }
  }

  lemma EuclidStarts(p: Program, args: seq<Value>, f0: Frame, a: nat, b: nat, fuel: nat)
    returns (f1: Frame, f2: Frame, f3: Frame, f4: Frame, f5: Frame)
    requires |f0.values| == 10 && |f0.slots| == 2 && args == [Int(a), Int(b)]
    ensures ExecInst(p, args, EuclidBody()[0], f0, fuel) == Done(f1)
    ensures ExecInst(p, args, EuclidBody()[1], f1, fuel) == Done(f2)
    ensures ExecInst(p, args, EuclidBody()[2], f2, fuel) == Done(f3)
    ensures ExecInst(p, args, EuclidBody()[3], f3, fuel) == Done(f4)
    ensures ExecInst(p, args, EuclidBody()[4], f4, fuel) == Done(f5)
    ensures Reducing(f5, a, b) && f5.clock == f0.clock
  {
    f1 := With(f0, 0, a);
    f2 := f1.(slots := f1.slots[0 := Int(a)]);
    f3 := With(f2, 1, b);
    f4 := f3.(slots := f3.slots[1 := Int(b)]);
    f5 := With(f4, 2, 0);
  }

  lemma EuclidEnds(p: Program, args: seq<Value>, f5: Frame, a: nat, b: nat, fuel: nat) returns (f6: Frame, f7: Frame)
    requires Reducing(f5, a, b) && b <= fuel
    ensures ExecInst(p, args, EuclidBody()[5], f5, fuel) == Done(f6)
    ensures ExecInst(p, args, EuclidBody()[6], f6, fuel) == Done(f7)
    ensures |f7.values| == 10 && f7.values[9] == Int(Gcd(a, b)) && f7.clock == f5.clock
  {
    f6 := DividingRuns(p, args, f5, a, b, fuel);
    f7 := With(f6, 9, Gcd(a, b));
  }

  lemma EuclidBodyRuns(p: Program, args: seq<Value>, f0: Frame, a: nat, b: nat, fuel: nat) returns (g: Frame)
    requires |f0.values| == 10 && |f0.slots| == 2 && args == [Int(a), Int(b)] && b <= fuel
    ensures ExecSeq(p, args, EuclidBody(), f0, fuel) == Done(g)
    ensures |g.values| == 10 && g.values[9] == Int(Gcd(a, b)) && g.clock == f0.clock
  {
    var f1, f2, f3, f4, f5 := EuclidStarts(p, args, f0, a, b, fuel);
    var f6;
    f6, g := EuclidEnds(p, args, f5, a, b, fuel);
    RunChain(p, args, EuclidBody(), [f0, f1, f2, f3, f4, f5, f6, g], fuel);
  }

  /** The greatest common divisor by the Euclidean algorithm. */
  lemma EuclidRuns(p: Program, a: nat, b: nat, clock: nat, fuel: nat)
    requires b <= fuel
    ensures RunFunction(p, Euclid(), [Int(a), Int(b)], clock, fuel) == Done((Int(Gcd(a, b)), clock))
  {
    var g := EuclidBodyRuns(p, [Int(a), Int(b)], Entry(Euclid(), clock), a, b, fuel);
  }

  // ---- What their emitted code computes ---------------------------------------------------------

  /** The emitted code of a function on these arguments. */
  function RunEmitted(p: Program, sigs: Sigs, fn: Function, args: seq<Value>, fuel: nat): W.Result
    requires ProgramOk(p, sigs) && fn.name in sigs
  {
    W.RunSeq(EmitProgram(p, sigs), EmitFunction(sigs[fn.name], fn).body, W.State(W.Params(Words(args)), []), fuel)
  }

  predicate Leaves(r: W.Result, n: int) {
    r.Normal? && r.s.stack == [W.I64(n)]
  }

  lemma EmittedLeaves(p: Program, sigs: Sigs, fn: Function, args: seq<Value>, n: int, fuel: nat)
    requires ProgramOk(p, sigs) && fn in p.functions && FunctionOk(sigs, fn)
    requires |args| == |sigs[fn.name].params| && sigs[fn.name].result == KInt
    requires forall i :: 0 <= i < |args| ==> HasKind(args[i], sigs[fn.name].params[i])
    requires RunFunction(p, fn, args, 0, fuel) == Done((Int(n), 0))
    ensures Leaves(RunEmitted(p, sigs, fn, args, fuel), n)
  {
    FunctionAgrees(p, sigs, EmitProgram(p, sigs), fn, args, 0, fuel);
  }

  /** For every argument, the emitted code adds up what is below it, modulo 2^64. */
  lemma TriangleEmitted(p: Program, n: int, fuel: nat)
    requires p.functions == Examples() && IsI64(n) && n <= fuel
    ensures ProgramOk(p, ExampleSigs())
    ensures Leaves(RunEmitted(p, ExampleSigs(), Triangle(), [Int(n)], fuel), Wrap64(Sum(n)))
  {
    TriangleRuns(p, n, 0, fuel);
    ExamplesOk(p);
    TriangleOk();
    EmittedLeaves(p, ExampleSigs(), Triangle(), [Int(n)], Wrap64(Sum(n)), fuel);
  }

  /** It multiplies what is up to the argument, modulo 2^64. */
  lemma FactorialEmitted(p: Program, n: int, fuel: nat)
    requires p.functions == Examples() && IsI64(n) && n <= fuel
    ensures ProgramOk(p, ExampleSigs())
    ensures Leaves(RunEmitted(p, ExampleSigs(), Factorial(), [Int(n)], fuel), Wrap64(Product(n)))
  {
    FactorialRuns(p, n, 0, fuel);
    ExamplesOk(p);
    FactorialOk();
    EmittedLeaves(p, ExampleSigs(), Factorial(), [Int(n)], Wrap64(Product(n)), fuel);
  }

  /** It finds greatest common divisors. */
  lemma EuclidEmitted(p: Program, a: nat, b: nat, fuel: nat)
    requires p.functions == Examples() && IsI64(a) && IsI64(b) && b <= fuel
    ensures ProgramOk(p, ExampleSigs())
    ensures Leaves(RunEmitted(p, ExampleSigs(), Euclid(), [Int(a), Int(b)], fuel), Gcd(a, b))
  {
    EuclidRuns(p, a, b, 0, fuel);
    ExamplesOk(p);
    EuclidOk();
    EmittedLeaves(p, ExampleSigs(), Euclid(), [Int(a), Int(b)], Gcd(a, b), fuel);
  }
}
