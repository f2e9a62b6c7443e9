/** The interprocedural escape analysis: the transfer of one instruction on the sets of
    may-escape registers and slots, the fixed points it iterates to, and the in-place analysis
    that computes them. */
module Escape {
  import opened Mir

  /** Registers and slots that may hold arena data created in the current activation. */
  datatype Marks = Marks(values: set<ValueId>, slots: set<SlotId>)

  /** Bounds of the two bit vectors, and the functions known to return arena data of their own. */
  datatype Context = Context(valueCount: nat, slotCount: nat, escaping: set<string>)

  const NoMarks: Marks := Marks({}, {})

  predicate Below(m: Marks, n: Marks) {
    m.values <= n.values && m.slots <= n.slots
  }

  function Range(n: nat): (r: set<nat>)
    ensures forall i: nat :: i in r <==> i < n
  {
    if n == 0 then {} else Range(n - 1) + {n - 1}
  }

  /** `r` adds to `m` only bits that the vectors have. */
  predicate Grows(c: Context, m: Marks, r: Marks) {
    && Below(m, r)
    && r.values <= m.values + Range(c.valueCount)
    && r.slots <= m.slots + Range(c.slotCount)
  }

  /** How many bits are still clear. */
  function Room(c: Context, m: Marks): nat {
    |Range(c.valueCount) - m.values| + |Range(c.slotCount) - m.slots|
  }

  lemma SubsetIsSmaller<T>(a: set<T>, b: set<T>)
    requires a <= b
    ensures |a| <= |b|
  {
    assert b == a + (b - a);
  }

  /** Adding to `before` elements of `universe` leaves strictly fewer of them out. */
  lemma RestShrinks<T>(universe: set<T>, before: set<T>, after: set<T>)
    requires before <= after <= before + universe
    ensures |universe - after| <= |universe - before|
    ensures after != before ==> |universe - after| < |universe - before|
  {
    var added := after - before;
    assert universe - before == (universe - after) + added;
    assert after == before + added;
  }

  lemma {:induction false} RangeSize(n: nat)
    ensures |Range(n)| == n
  {
    if n > 0 {
      RangeSize(n - 1);
    }
  }

  lemma RoomShrinks(c: Context, m: Marks, r: Marks)
    requires Grows(c, m, r)
    ensures Room(c, r) <= Room(c, m) && (r != m ==> Room(c, r) < Room(c, m))
  {
    RestShrinks(Range(c.valueCount), m.values, r.values);
    RestShrinks(Range(c.slotCount), m.slots, r.slots);
  }

  lemma RoomBound(c: Context, m: Marks)
    ensures Room(c, m) <= c.valueCount + c.slotCount
  {
    RangeSize(c.valueCount);
    RangeSize(c.slotCount);
    SubsetIsSmaller(Range(c.valueCount) - m.values, Range(c.valueCount));
    SubsetIsSmaller(Range(c.slotCount) - m.slots, Range(c.slotCount));
  }

  // ---- Transfer ---------------------------------------------------------------------------

  function MarkIf(c: Context, m: Marks, when: bool, v: ValueId): (r: Marks)
    ensures Grows(c, m, r)
  {
    if when && v < c.valueCount then m.(values := m.values + {v}) else m
  }

  function MarkSlotIf(c: Context, m: Marks, when: bool, s: SlotId): (r: Marks)
    ensures Grows(c, m, r)
  {
    if when && s < c.slotCount then m.(slots := m.slots + {s}) else m
  }

  predicate MarkedResult(m: Marks, r: Option<ValueId>) {
    r.Some? && r.value in m.values
  }

  predicate AnyMarked(m: Marks, vs: seq<ValueId>) {
    exists v :: v in vs && v in m.values
  }

  /** The register an instruction without nested blocks marks, if it has to. */
  predicate CreatesOrCarries(c: Context, inst: Inst, m: Marks) {
    match inst
    case ArgText(_, _) => true
    case TextConcat(_, _, _) => true
    case ListNew(_, _, _) => true
    case ListSet(_, _, _, _) => true
    case ListGet(_, l, _) => l in m.values
    case LoadLocal(_, s) => s in m.slots
    case MakeRecord(_, parts) => AnyMarked(m, parts)
    case MakeEnum(_, _, part) => MarkedResult(m, part)
    case Field(_, base, _) => base in m.values
    case EnumPayload(_, base) => base in m.values
    case Call(_, callee, args) => callee in c.escaping || AnyMarked(m, args)
    case _ => false
  }

  function TransferSeq(c: Context, insts: seq<Inst>, m: Marks): (r: Marks)
    ensures Grows(c, m, r)
    decreases insts, 0, 0
  {
    if insts == [] then m else TransferSeq(c, insts[1..], TransferInst(c, insts[0], m))
  }

  function TransferInst(c: Context, inst: Inst, m: Marks): (r: Marks)
    ensures Grows(c, m, r)
    decreases inst, 1, 0
  {
    if inst.StoreLocal? then
      MarkSlotIf(c, m, inst.src in m.values, inst.slot)
    else if inst.Assert? then m
    else if inst.If? then
      var j := TransferBranches(c, inst, m);
      MarkIf(c, j, MarkedResult(j, inst.thenResult) || MarkedResult(j, inst.elseResult), inst.dest)
    else if inst.While? || inst.Repeat? then
      MarkIf(c, TransferLoop(c, inst, m), true, inst.dest)
    else
      MarkIf(c, m, CreatesOrCarries(c, inst, m), inst.dest)
  }

  /** Both branches of a conditional, joined.  The else branch starts from the slots before the
      conditional, but sees the registers that the then branch has marked. */
  function TransferBranches(c: Context, inst: Inst, m: Marks): (r: Marks)
    requires inst.If?
    ensures Grows(c, m, r)
    decreases inst, 0, 0
  {
    var a := TransferSeq(c, inst.thenInsts, m);
    var b := TransferSeq(c, inst.elseInsts, Marks(a.values, m.slots));
    Marks(b.values, a.slots + b.slots)
  }

  /** One pass over a loop. */
  function TransferPass(c: Context, loop: Inst, m: Marks): (r: Marks)
    requires loop.While? || loop.Repeat?
    ensures Grows(c, m, r)
    decreases loop, 0, 0
  {
    if loop.While? then TransferSeq(c, loop.body, TransferSeq(c, loop.condInsts, m))
    else TransferSeq(c, loop.body, m)
  }

  /** Passes until nothing changes. */
  function TransferLoop(c: Context, loop: Inst, m: Marks): (r: Marks)
    requires loop.While? || loop.Repeat?
    ensures Grows(c, m, r)
    ensures TransferPass(c, loop, r) == r
    decreases loop, 0, Room(c, m) + 1
  {
    var n := TransferPass(c, loop, m);
    if n == m then m else
    RoomShrinks(c, m, n);
    TransferLoop(c, loop, n)
  }

  // ---- Monotonicity and leastness of the inner fixed points -------------------------------

  predicate Weaker(c: Context, d: Context) {
    c.valueCount == d.valueCount && c.slotCount == d.slotCount && c.escaping <= d.escaping
  }

  lemma {:induction false} SeqMonotone(c: Context, d: Context, insts: seq<Inst>, m: Marks, n: Marks)
    requires Weaker(c, d) && Below(m, n)
    ensures Below(TransferSeq(c, insts, m), TransferSeq(d, insts, n))
    decreases insts, 0, 0
  {
    if insts != [] {
      InstMonotone(c, d, insts[0], m, n);
      SeqMonotone(c, d, insts[1..], TransferInst(c, insts[0], m), TransferInst(d, insts[0], n));
    }
  }

  lemma CarriesMonotone(c: Context, d: Context, inst: Inst, m: Marks, n: Marks)
    requires Weaker(c, d) && Below(m, n)
    ensures CreatesOrCarries(c, inst, m) ==> CreatesOrCarries(d, inst, n)
  {
  }

  /** More marks, or more escaping callees, never lead to fewer marks. */
  lemma {:induction false} InstMonotone(c: Context, d: Context, inst: Inst, m: Marks, n: Marks)
    requires Weaker(c, d) && Below(m, n)
    ensures Below(TransferInst(c, inst, m), TransferInst(d, inst, n))
    decreases inst, 1, 0
  {
    if inst.If? {
      BranchesMonotone(c, d, inst, m, n);
    } else if inst.While? || inst.Repeat? {
      LoopMonotone(c, d, inst, m, n);
    } else if !inst.StoreLocal? && !inst.Assert? {
      CarriesMonotone(c, d, inst, m, n);
    }
  }

  lemma {:induction false} BranchesMonotone(c: Context, d: Context, inst: Inst, m: Marks, n: Marks)
    requires Weaker(c, d) && Below(m, n) && inst.If?
    ensures Below(TransferBranches(c, inst, m), TransferBranches(d, inst, n))
    decreases inst, 0, 0
  {
    SeqMonotone(c, d, inst.thenInsts, m, n);
    var a, a' := TransferSeq(c, inst.thenInsts, m), TransferSeq(d, inst.thenInsts, n);
    SeqMonotone(c, d, inst.elseInsts, Marks(a.values, m.slots), Marks(a'.values, n.slots));
  }

  lemma {:induction false} PassMonotone(c: Context, d: Context, loop: Inst, m: Marks, n: Marks)
    requires Weaker(c, d) && Below(m, n) && (loop.While? || loop.Repeat?)
    ensures Below(TransferPass(c, loop, m), TransferPass(d, loop, n))
    decreases loop, 0, 0
  {
    if loop.While? {
      SeqMonotone(c, d, loop.condInsts, m, n);
      SeqMonotone(c, d, loop.body, TransferSeq(c, loop.condInsts, m), TransferSeq(d, loop.condInsts, n));
    } else {
      SeqMonotone(c, d, loop.body, m, n);
    }
  }

  lemma {:induction false} LoopMonotone(c: Context, d: Context, loop: Inst, m: Marks, n: Marks)
    requires Weaker(c, d) && Below(m, n) && (loop.While? || loop.Repeat?)
    ensures Below(TransferLoop(c, loop, m), TransferLoop(d, loop, n))
    decreases loop, 0, 2
  {
    var x := TransferLoop(d, loop, n);
    PassMonotone(c, d, loop, x, x);
    LoopIsBelow(c, loop, m, x);
  }

  /** The iteration ends at the least marks that contain `m` and that a pass does not enlarge. */
  lemma {:induction false} LoopIsBelow(c: Context, loop: Inst, m: Marks, x: Marks)
    requires (loop.While? || loop.Repeat?) && Below(m, x) && Below(TransferPass(c, loop, x), x)
    ensures Below(TransferLoop(c, loop, m), x)
    decreases loop, 0, 1, Room(c, m)
  {
    var n := TransferPass(c, loop, m);
    if n != m {
      RoomShrinks(c, m, n);
      PassMonotone(c, c, loop, m, x);
      LoopIsBelow(c, loop, n, x);
    }
  }

  // ---- The outer fixed point over the call graph ---------------------------------------------

  predicate Contains(s: string, part: string) {
    part <= s || (s != [] && Contains(s[1..], part))
  }

  predicate CanHoldArena(ty: string) {
    (|ty| > 0 && ty[0] == '[') || Contains(ty, "Text") || Contains(ty, "List") || Contains(ty, "Bytes")
  }

  /** Functions whose result the analysis looks at: allocating, and typed to hold arena data. */
  predicate Inspected(f: Function) {
    f.result.Some? && "alloc" in f.effects && f.returnType.Some? && CanHoldArena(f.returnType.value)
  }

  function ContextOf(f: Function, escaping: set<string>): Context {
    Context(f.valueCount, f.slotCount, escaping)
  }

  predicate MayEscape(f: Function, escaping: set<string>) {
    MarkedResult(TransferSeq(ContextOf(f, escaping), f.body, NoMarks), f.result)
  }

  predicate ReturnEscapes(f: Function, escaping: set<string>) {
    Inspected(f) && MayEscape(f, escaping)
  }

  /** One round over all functions, each reading the previous round's answers. */
  function Round(fs: seq<Function>, escaping: set<string>): (r: set<string>)
    ensures r <= Names(fs)
  {
    set f | f in fs && ReturnEscapes(f, escaping) :: f.name
  }

  function Names(fs: seq<Function>): set<string> {
    set f | f in fs :: f.name
  }

  lemma RoundMonotone(fs: seq<Function>, a: set<string>, b: set<string>)
    requires a <= b
    ensures Round(fs, a) <= Round(fs, b)
  {
    forall f | f in fs && ReturnEscapes(f, a) ensures ReturnEscapes(f, b) {
      SeqMonotone(ContextOf(f, a), ContextOf(f, b), f.body, NoMarks, NoMarks);
    }
  }

  function Escaping(fs: seq<Function>, from: set<string>): (r: set<string>)
    requires from <= Round(fs, from)
    ensures from <= r && Round(fs, r) == r
    decreases |Names(fs) - from|
  {
    var next := Round(fs, from);
    if next == from then from else
    RoundMonotone(fs, from, next);
    RestShrinks(Names(fs), from, next);
    Escaping(fs, next)
  }

  /** One more round does not move the fixed point, and if it changes the set it adds a name. */
  lemma EscapingStep(fs: seq<Function>, from: set<string>)
    requires from <= Round(fs, from)
    ensures var next := Round(fs, from);
            && next <= Round(fs, next)
            && Escaping(fs, next) == Escaping(fs, from)
            && (next != from ==> |Names(fs) - next| < |Names(fs) - from|)
  {
    RoundMonotone(fs, from, Round(fs, from));
    RestShrinks(Names(fs), from, Round(fs, from));
  }

  /** The functions that return arena data of their own, as the analysis sees it. */
  function EscapingFunctions(p: Program): set<string> {
    Escaping(p.functions, {})
  }

  /** ... is the least set that a round does not enlarge. */
  lemma {:induction false} EscapingIsLeast(fs: seq<Function>, from: set<string>, x: set<string>)
    requires from <= Round(fs, from) && from <= x && Round(fs, x) <= x
    ensures Escaping(fs, from) <= x
    decreases |Names(fs) - from|
  {
    var next := Round(fs, from);
    if next != from {
      RoundMonotone(fs, from, next);
      RoundMonotone(fs, from, x);
      RestShrinks(Names(fs), from, next);
      EscapingIsLeast(fs, next, x);
    }
  }

  predicate Diagnosed(p: Program, f: Function) {
    ReturnEscapes(f, EscapingFunctions(p))
  }

  predicate DistinctNames(fs: seq<Function>) {
    forall i, j :: 0 <= i < j < |fs| ==> fs[i].name != fs[j].name
  }

  /** A function gets a diagnostic exactly when the fixed point says its result escapes. */
  lemma DiagnosedIffEscaping(p: Program, f: Function)
    requires f in p.functions && DistinctNames(p.functions)
    ensures Diagnosed(p, f) <==> f.name in EscapingFunctions(p)
  {
    var x := EscapingFunctions(p);
    if f.name in x {
      assert x == Round(p.functions, x);
      var g :| g in p.functions && ReturnEscapes(g, x) && g.name == f.name;
      assert g == f;
    }
  }
}
