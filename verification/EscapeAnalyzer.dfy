/** The escape analysis as it runs: two bit vectors changed in place, loops analysed until they
    stop changing, and a callee table updated round by round. */
module EscapeAnalyzer {
  import opened Mir
  import opened Escape
  import EscapeSoundness
  import opened EscapePrecision

  /** The set bits of a bit vector. */
  ghost function Bits(v: seq<bool>): (r: set<nat>)
    ensures forall i: nat :: i in r <==> i < |v| && v[i]
  {
    set i: nat | i < |v| && v[i]
  }

  lemma BitsUpdate(v: seq<bool>, i: nat)
    requires i < |v|
    ensures Bits(v[i := true]) == Bits(v) + {i}
  {
  }

  lemma BitsEqual(v: seq<bool>, w: seq<bool>)
    requires |v| == |w|
    ensures v == w <==> Bits(v) == Bits(w)
  {
    if Bits(v) == Bits(w) {
      forall i | 0 <= i < |v| ensures v[i] == w[i] {
        assert i in Bits(v) <==> v[i];
        assert i in Bits(w) <==> w[i];
      }
    }
  }

  class Env {
    var escaped: seq<bool>
    var escLocals: seq<bool>
    const callees: map<string, bool>

    constructor (valueCount: nat, slotCount: nat, callees: map<string, bool>)
      ensures Context() == Escape.Context(valueCount, slotCount, Flagged(callees))
      ensures Abs() == NoMarks
    {
      this.callees := callees;
      escaped := seq(valueCount, _ => false);
      escLocals := seq(slotCount, _ => false);
      new;
      assert Bits(escaped) == {} && Bits(escLocals) == {};
    }

    ghost function Abs(): Marks
      reads this
    {
      Marks(Bits(escaped), Bits(escLocals))
    }

    ghost function Context(): Context
      reads this
    {
      Escape.Context(|escaped|, |escLocals|, Flagged(callees))
    }

    method Mark(v: ValueId)
      modifies this`escaped
      ensures Context() == old(Context())
      ensures Abs() == MarkIf(Context(), old(Abs()), true, v)
    {
      if v < |escaped| {
        BitsUpdate(escaped, v);
        escaped := escaped[v := true];
      }
    }

    predicate IsEscaped(v: ValueId)
      reads this
      ensures IsEscaped(v) <==> v in Abs().values
    {
      v < |escaped| && escaped[v]
    }

    predicate ResultEscapes(r: Option<ValueId>)
      reads this
      ensures ResultEscapes(r) <==> MarkedResult(Abs(), r)
    {
      r.Some? && IsEscaped(r.value)
    }

    method AnyEscaped(vs: seq<ValueId>) returns (r: bool)
      ensures r <==> AnyMarked(Abs(), vs)
    {
      for i := 0 to |vs|
        invariant !AnyMarked(Abs(), vs[..i])
      {
        if IsEscaped(vs[i]) {
          assert vs[i] in vs;
          return true;
        }
        assert vs[..i + 1] == vs[..i] + [vs[i]];
      }
      assert vs[..|vs|] == vs;
      r := false;
    }

    method Analyze(insts: seq<Inst>)
      modifies this
      ensures Context() == old(Context())
      ensures Abs() == TransferSeq(Context(), insts, old(Abs()))
      decreases insts, 0
    {
      for i := 0 to |insts|
        invariant Context() == old(Context())
        invariant TransferSeq(Context(), insts[i..], Abs()) == TransferSeq(Context(), insts, old(Abs()))
      {
        assert insts[i..][0] == insts[i] && insts[i..][1..] == insts[i + 1..];
        AnalyzeInst(insts[i]);
      }
      assert insts[|insts|..] == [];
    }

    method AnalyzeInst(inst: Inst)
      modifies this
      ensures Context() == old(Context())
      ensures Abs() == TransferInst(Context(), inst, old(Abs()))
      ensures Quiet(inst, old(Abs()), Flagged(callees)) ==> Abs() == old(Abs())
      decreases inst, 2
    {
      if Quiet(inst, Abs(), Flagged(callees)) { QuietInst(Context(), inst, Abs()); }
      if inst.StoreLocal? {
        if IsEscaped(inst.src) && inst.slot < |escLocals| {
          BitsUpdate(escLocals, inst.slot);
          escLocals := escLocals[inst.slot := true];
        }
      } else if inst.If? {
        AnalyzeBranches(inst);
        if ResultEscapes(inst.thenResult) || ResultEscapes(inst.elseResult) {
          Mark(inst.dest);
        }
      } else if inst.While? || inst.Repeat? {
        var _ := AnalyzeLoop(inst);
        Mark(inst.dest);
      } else if !inst.Assert? {
        var marked := MustMark(inst);
        if marked {
          Mark(inst.dest);
        }
      }
    }

    method MustMark(inst: Inst) returns (r: bool)
      requires IsPlain(inst) || inst.Call?
      ensures r <==> CreatesOrCarries(Context(), inst, Abs())
    {
      match inst
      case ArgText(_, _) => r := true;
      case TextConcat(_, _, _) => r := true;
      case ListNew(_, _, _) => r := true;
      case ListSet(_, _, _, _) => r := true;
      case ListGet(_, l, _) => r := IsEscaped(l);
      case LoadLocal(_, s) => r := s < |escLocals| && escLocals[s];
      case MakeRecord(_, parts) => r := AnyEscaped(parts);
      case MakeEnum(_, _, part) => r := ResultEscapes(part);
      case Field(_, base, _) => r := IsEscaped(base);
      case EnumPayload(_, base) => r := IsEscaped(base);
      case Call(_, callee, args) =>
        var any := AnyEscaped(args);
        r := (callee in callees && callees[callee]) || any;
      case _ => r := false;
    }

    method AnalyzeBranches(inst: Inst)
      requires inst.If?
      modifies this
      ensures Context() == old(Context())
      ensures Abs() == TransferBranches(Context(), inst, old(Abs()))
      decreases inst, 1
    {
      var beforeLocals := escLocals;
      Analyze(inst.thenInsts);
      var thenLocals := escLocals;
      escLocals := beforeLocals;
      Analyze(inst.elseInsts);
      ghost var elseLocals := escLocals;
      for i := 0 to |escLocals|
        invariant Context() == old(Context())
        invariant |escLocals| == |thenLocals| == |elseLocals|
        invariant forall k :: 0 <= k < |escLocals| ==> escLocals[k] == (elseLocals[k] || (k < i && thenLocals[k]))
        invariant Abs().values == TransferBranches(old(Context()), inst, old(Abs())).values
      {
        if thenLocals[i] {
          escLocals := escLocals[i := true];
        }
      }
      assert Bits(escLocals) == Bits(thenLocals) + Bits(elseLocals);
    }

    /** Passes until nothing changes; a pass that changes something sets at least one bit. */
    method AnalyzeLoop(loop: Inst) returns (rounds: nat)
      requires loop.While? || loop.Repeat?
      modifies this
      ensures Context() == old(Context())
      ensures Abs() == TransferLoop(Context(), loop, old(Abs()))
      ensures rounds <= |escaped| + |escLocals| + 1
      decreases loop, 1
    {
      ghost var c := Context();
      rounds := 0;
      RoomBound(c, Abs());
      while true
        invariant Context() == c
        invariant TransferLoop(c, loop, Abs()) == TransferLoop(c, loop, old(Abs()))
        invariant rounds + Room(c, Abs()) <= c.valueCount + c.slotCount
        decreases Room(c, Abs())
      {
        var oldEscaped, oldLocals := escaped, escLocals;
        ghost var m := Abs();
        if loop.While? {
          Analyze(loop.condInsts);
        }
        Analyze(loop.body);
        rounds := rounds + 1;
        BitsEqual(escaped, oldEscaped);
        BitsEqual(escLocals, oldLocals);
        if escaped == oldEscaped && escLocals == oldLocals {
          return;
        }
        RoomShrinks(c, m, Abs());
      }
    }
  }

  /** The names that a callee table flags. */
  ghost function Flagged(callees: map<string, bool>): set<string> {
    set n | n in callees && callees[n]
  }

  method ValueMayEscape(f: Function, callees: map<string, bool>) returns (r: bool)
    ensures r <==> MayEscape(f, Flagged(callees))
  {
    var env := new Env(f.valueCount, f.slotCount, callees);
    env.Analyze(f.body);
    r := env.ResultEscapes(f.result);
  }

  /** One round: the table after it, and whether any entry was rewritten on the way. */
  ghost function RoundTable(fs: seq<Function>, snapshot: set<string>,
                            t: map<string, bool>): (r: (map<string, bool>, bool))
    requires forall f :: f in fs ==> f.name in t
    ensures r.0.Keys == t.Keys
  {
    if fs == [] then (t, false)
    else
      var e := ReturnEscapes(fs[0], snapshot);
      assert forall f :: f in fs[1..] ==> f in fs;
      var rest := RoundTable(fs[1..], snapshot, t[fs[0].name := e]);
      (rest.0, rest.1 || t[fs[0].name] != e)
  }

  /** A round changes nothing exactly when the table agrees with every function. */
  lemma {:induction false} RoundSettlesIff(fs: seq<Function>, snapshot: set<string>, t: map<string, bool>)
    requires forall f :: f in fs ==> f.name in t
    ensures !RoundTable(fs, snapshot, t).1 <==> forall f :: f in fs ==> t[f.name] == ReturnEscapes(f, snapshot)
    ensures !RoundTable(fs, snapshot, t).1 ==> RoundTable(fs, snapshot, t).0 == t
  {
    if fs != [] {
      var e := ReturnEscapes(fs[0], snapshot);
      assert forall f :: f in fs <==> f == fs[0] || f in fs[1..];
      RoundSettlesIff(fs[1..], snapshot, t[fs[0].name := e]);
      assert fs[0] in fs;
      if t[fs[0].name] == e {
        assert t[fs[0].name := e] == t;
      }
    }
  }

  /** The last definition of each name. */
  function Last(fs: seq<Function>): seq<Function> {
    if fs == [] then []
    else if fs[0].name in Names(fs[1..]) then Last(fs[1..])
    else [fs[0]] + Last(fs[1..])
  }

  lemma NamesCons(f: Function, fs: seq<Function>)
    ensures Names([f] + fs) == {f.name} + Names(fs)
  {
  }

  lemma {:induction false} LastNames(fs: seq<Function>)
    ensures Names(Last(fs)) == Names(fs) && DistinctNames(Last(fs))
  {
    if fs != [] {
      LastNames(fs[1..]);
      assert fs == [fs[0]] + fs[1..];
      NamesCons(fs[0], fs[1..]);
      NamesCons(fs[0], Last(fs[1..]));
      if fs[0].name !in Names(fs[1..]) { DistinctCons(fs[0], Last(fs[1..])); }
    }
  }

  lemma DistinctCons(f: Function, fs: seq<Function>)
    requires DistinctNames(fs) && f.name !in Names(fs)
    ensures DistinctNames([f] + fs)
  {
    var r := [f] + fs;
    forall i, j | 0 <= i < j < |r| ensures r[i].name != r[j].name {
      if i == 0 { assert r[j] == fs[j - 1] && fs[j - 1] in fs; }
    }
  }

  lemma {:induction false} LastOfDistinct(fs: seq<Function>)
    requires DistinctNames(fs)
    ensures Last(fs) == fs
  {
    if fs != [] {
      LastOfDistinct(fs[1..]);
      assert fs[0].name !in Names(fs[1..]);
    }
  }

  /** A round leaves, for every name, the answer of its last definition. */
  lemma {:induction false} RoundTableIsLast(fs: seq<Function>, snapshot: set<string>, t: map<string, bool>)
    requires forall f :: f in fs ==> f.name in t
    ensures var r := RoundTable(fs, snapshot, t).0;
            forall f :: f in Last(fs) ==> f.name in r && r[f.name] == ReturnEscapes(f, snapshot)
    ensures forall n :: n in t && n !in Names(fs) ==> RoundTable(fs, snapshot, t).0[n] == t[n]
  {
    if fs != [] {
      assert forall f :: f in fs <==> f == fs[0] || f in fs[1..];
      RoundTableIsLast(fs[1..], snapshot, t[fs[0].name := ReturnEscapes(fs[0], snapshot)]);
      assert Names(fs) == {fs[0].name} + Names(fs[1..]);
      LastNames(fs[1..]);
    }
  }

  /** A round over all functions, every one reading the table as it was before the round. */
  method RunRound(fs: seq<Function>, snapshot: map<string, bool>) returns (table: map<string, bool>, changed: bool)
    requires snapshot.Keys == Names(fs)
    ensures (table, changed) == RoundTable(fs, Flagged(snapshot), snapshot)
  {
    ghost var flagged := Flagged(snapshot);
    table, changed := snapshot, false;
    for i := 0 to |fs|
      invariant table.Keys == Names(fs)
      invariant forall f :: f in fs[i..] ==> f.name in table
      invariant RoundTable(fs, flagged, snapshot).0 == RoundTable(fs[i..], flagged, table).0
      invariant RoundTable(fs, flagged, snapshot).1 == (changed || RoundTable(fs[i..], flagged, table).1)
    {
      var f := fs[i];
      assert fs[i..][0] == f && fs[i..][1..] == fs[i + 1..];
      var escapes := AnalyzeFunction(f, snapshot);
      if table[f.name] != escapes {
        table := table[f.name := escapes];
        changed := true;
      } else {
        SameEntry(table, f.name, escapes);
      }
    }
    assert fs[|fs|..] == [];
  }

  lemma SameEntry(t: map<string, bool>, name: string, b: bool)
    requires name in t && t[name] == b
    ensures t[name := b] == t
  {
  }

  lemma LastDecides(ls: seq<Function>, snapshot: set<string>, r: map<string, bool>, n: string)
    requires DistinctNames(ls) && n in Names(ls) && n in r
    requires forall f :: f in ls ==> f.name in r && r[f.name] == ReturnEscapes(f, snapshot)
    ensures r[n] <==> n in Round(ls, snapshot)
  {
    var f :| f in ls && f.name == n;
    assert forall g :: g in ls && g.name == n ==> g == f;
  }

  /** What a round means for the flagged names: a round over the last definitions. */
  lemma RoundFlags(fs: seq<Function>, t: map<string, bool>)
    requires t.Keys == Names(fs)
    ensures Flagged(RoundTable(fs, Flagged(t), t).0) == Round(Last(fs), Flagged(t))
  {
    var r := RoundTable(fs, Flagged(t), t).0;
    RoundTableIsLast(fs, Flagged(t), t);
    LastNames(fs);
    forall n | n in r ensures r[n] <==> n in Round(Last(fs), Flagged(t)) {
      LastDecides(Last(fs), Flagged(t), r, n);
    }
  }

  // ---- When the rounds settle ----------------------------------------------------------------

  /** The table after `k` rounds. */
  ghost function Rounds(fs: seq<Function>, t: map<string, bool>, k: nat): (r: map<string, bool>)
    requires t.Keys == Names(fs)
    ensures r.Keys == t.Keys
  {
    if k == 0 then t
    else
      var s := Rounds(fs, t, k - 1);
      RoundTable(fs, Flagged(s), s).0
  }

  /** The next round changes nothing, which is where the loop stops. */
  ghost predicate Settled(fs: seq<Function>, t: map<string, bool>)
    requires t.Keys == Names(fs)
  {
    !RoundTable(fs, Flagged(t), t).1
  }

  /** The fixed point over the last definitions, which is the only one the rounds can reach. */
  function LastEscaping(fs: seq<Function>): set<string> {
    Escaping(Last(fs), {})
  }

  /** Every definition of a name agrees with the fixed point. */
  predicate NamesakesAgree(fs: seq<Function>) {
    forall f :: f in fs ==> (ReturnEscapes(f, LastEscaping(fs)) <==> f.name in LastEscaping(fs))
  }

  predicate AllFalse(t: map<string, bool>) {
    forall n :: n in t ==> !t[n]
  }

  /** A set on the way to the fixed point. */
  ghost predicate Climbing(fs: seq<Function>, x: set<string>) {
    x <= Round(Last(fs), x) && Escaping(Last(fs), x) == LastEscaping(fs) && x <= LastEscaping(fs)
  }

  lemma ClimbStep(fs: seq<Function>, x: set<string>)
    requires Climbing(fs, x)
    ensures var next := Round(Last(fs), x);
            Climbing(fs, next) && (next != x ==> |Names(fs) - next| < |Names(fs) - x|)
  {
    LastNames(fs);
    EscapingStep(Last(fs), x);
  }

  /** The rounds climb towards the fixed point. */
  lemma {:induction false} RoundsClimb(fs: seq<Function>, t: map<string, bool>, k: nat)
    requires t.Keys == Names(fs) && AllFalse(t)
    ensures Climbing(fs, Flagged(Rounds(fs, t, k)))
  {
    if k == 0 {
      assert Flagged(t) == {};
    } else {
      var s := Rounds(fs, t, k - 1);
      RoundsClimb(fs, t, k - 1);
      RoundFlags(fs, s);
      ClimbStep(fs, Flagged(s));
    }
  }

  /** ... and get there. */
  lemma {:induction false} RoundsArrive(fs: seq<Function>, t: map<string, bool>, from: nat) returns (k: nat)
    requires t.Keys == Names(fs) && AllFalse(t)
    ensures Flagged(Rounds(fs, t, k)) == LastEscaping(fs)
    decreases |Names(fs) - Flagged(Rounds(fs, t, from))|
  {
    var s := Rounds(fs, t, from);
    RoundsClimb(fs, t, from);
    RoundFlags(fs, s);
    ClimbStep(fs, Flagged(s));
    if Round(Last(fs), Flagged(s)) == Flagged(s) {
      k := from;
    } else {
      k := RoundsArrive(fs, t, from + 1);
    }
  }

  /** A table settles exactly when it holds the fixed point and every definition agrees with it. */
  lemma SettledIff(fs: seq<Function>, t: map<string, bool>)
    requires t.Keys == Names(fs)
    requires Climbing(fs, Flagged(t))
    ensures Settled(fs, t) <==> Flagged(t) == LastEscaping(fs) && NamesakesAgree(fs)
  {
    var x := Flagged(t);
    RoundSettlesIff(fs, x, t);
    RoundFlags(fs, t);
    if Settled(fs, t) {
      EscapingIsLeast(Last(fs), {}, x);
    }
    assert forall f :: f in fs ==> (t[f.name] <==> f.name in x);
  }

  lemma ClimbStart(fs: seq<Function>)
    ensures Climbing(fs, {})
  {
  }

  /** One round of the loop: it stops at the fixed point, or goes on with a larger set. */
  lemma LoopStep(fs: seq<Function>, t: map<string, bool>)
    requires t.Keys == Names(fs) && Climbing(fs, Flagged(t)) && NamesakesAgree(fs)
    ensures var (next, changed) := RoundTable(fs, Flagged(t), t);
            && Climbing(fs, Flagged(next))
            && (changed ==> |Names(fs) - Flagged(next)| < |Names(fs) - Flagged(t)|)
            && (!changed ==> Flagged(t) == LastEscaping(fs))
  {
    RoundFlags(fs, t);
    SettledIff(fs, t);
    ClimbStep(fs, Flagged(t));
  }

  /** From an empty table the rounds settle at some point if and only if all definitions of a name
      agree with the fixed point over the last definitions. */
  lemma IterationSettlesIff(fs: seq<Function>, t: map<string, bool>)
    requires t.Keys == Names(fs) && AllFalse(t)
    ensures (exists k :: Settled(fs, Rounds(fs, t, k))) <==> NamesakesAgree(fs)
  {
    forall k ensures Settled(fs, Rounds(fs, t, k))
                <==> Flagged(Rounds(fs, t, k)) == LastEscaping(fs) && NamesakesAgree(fs) {
      RoundsClimb(fs, t, k);
      SettledIff(fs, Rounds(fs, t, k));
    }
    if NamesakesAgree(fs) {
      var k := RoundsArrive(fs, t, 0);
      assert Settled(fs, Rounds(fs, t, k));
    }
  }

  /** With distinct names they always do, at the fixed point of the program. */
  lemma DistinctNamesAgree(p: Program)
    requires DistinctNames(p.functions)
    ensures NamesakesAgree(p.functions) && LastEscaping(p.functions) == EscapingFunctions(p)
  {
    LastOfDistinct(p.functions);
    var x := EscapingFunctions(p);
    forall f | f in p.functions ensures ReturnEscapes(f, x) <==> f.name in x {
      DiagnosedIffEscaping(p, f);
    }
  }

  /** A function that returns new text and one of the same name that returns a number. */
  function Namesakes(): seq<Function> {
    [EscapeSoundness.TextMaker(["alloc"], 1), Function("f", Some("I32"), [], [ConstInt(0, 0)], Some(0), 1, 0)]
  }

  /** On these two the rounds never settle. */
  lemma NamesakesNeverSettle(k: nat)
    ensures Names(Namesakes()) == {"f"}
    ensures !Settled(Namesakes(), Rounds(Namesakes(), map["f" := false], k))
  {
    var fs := Namesakes();
    var t := map["f" := false];
    var x := LastEscaping(fs);
    assert fs[1..] == [fs[1]] && fs[1..][1..] == [];
    assert Last(fs[1..]) == [fs[1]] + Last([]);
    assert Last(fs) == [fs[1]];
    assert !Inspected(fs[1]);
    assert Round(Last(fs), x) == x;
    assert "f" !in x;
    TextMakerMarked(fs[0], x);
    assert fs[0] in fs && !NamesakesAgree(fs);
    IterationSettlesIff(fs, t);
  }

  lemma TextMakerMarked(f: Function, escaping: set<string>)
    requires f == EscapeSoundness.TextMaker(["alloc"], 1)
    ensures ReturnEscapes(f, escaping)
  {
    var c := ContextOf(f, escaping);
    assert f.body[1..] == [f.body[1]] && f.body[1..][1..] == [];
    assert TransferInst(c, f.body[0], NoMarks) == NoMarks;
    assert TransferSeq(c, f.body[1..], NoMarks) == TransferInst(c, f.body[1], NoMarks);
    assert CanHoldArena("Text");
  }

  /** The table that the rounds start from. */
  function NoEscapes(fs: seq<Function>): (t: map<string, bool>)
    ensures t.Keys == Names(fs) && AllFalse(t) && Flagged(t) == {}
  {
    map f | f in fs :: f.name := false
  }

  /** Where it settles, the table holds the fixed point within one round more than there are names. */
  method SolveCallees(p: Program) returns (table: map<string, bool>, rounds: nat)
    requires NamesakesAgree(p.functions)
    ensures Flagged(table) == LastEscaping(p.functions)
    ensures DistinctNames(p.functions) ==> Flagged(table) == EscapingFunctions(p)
    ensures rounds <= |p.functions| + 1
  {
    var fs := p.functions;
    table := NoEscapes(fs);
    NamesCount(fs);
    ClimbStart(fs);
    if DistinctNames(fs) { DistinctNamesAgree(p); }
    rounds := 0;
    while true
      invariant table.Keys == Names(fs)
      invariant Climbing(fs, Flagged(table))
      invariant rounds + |Names(fs) - Flagged(table)| <= |fs|
      decreases |Names(fs) - Flagged(table)|
    {
      var next, changed := RunRound(fs, table);
      LoopStep(fs, table);
      rounds := rounds + 1;
      if !changed {
        return;
      }
      table := next;
    }
  }

  /** The functions whose result escapes, in program order. */
  ghost function Reported(fs: seq<Function>, escaping: set<string>): seq<Function> {
    if fs == [] then []
    else
      var n := |fs| - 1;
      Reported(fs[..n], escaping) + if ReturnEscapes(fs[n], escaping) then [fs[n]] else []
  }

  method AnalyzeFunction(f: Function, callees: map<string, bool>) returns (escapes: bool)
    ensures escapes <==> ReturnEscapes(f, Flagged(callees))
  {
    escapes := false;
    if Inspected(f) {
      escapes := ValueMayEscape(f, callees);
    }
  }

  method Report(fs: seq<Function>, callees: map<string, bool>) returns (diagnosed: seq<Function>)
    ensures diagnosed == Reported(fs, Flagged(callees))
  {
    ghost var escaping := Flagged(callees);
    diagnosed := [];
    for i := 0 to |fs|
      invariant diagnosed == Reported(fs[..i], escaping)
    {
      assert fs[..i + 1][..i] == fs[..i];
      var e := AnalyzeFunction(fs[i], callees);
      if e {
        diagnosed := diagnosed + [fs[i]];
      }
    }
    assert fs[..|fs|] == fs;
  }

  /** Only functions of the program that return a value, declare `alloc`, and have a return type
      that names a text, list, byte string or array are ever reported. */
  ghost predicate Reportable(p: Program, f: Function) {
    && f in p.functions && f.result.Some? && "alloc" in f.effects && f.returnType.Some?
    && var ty := f.returnType.value;
       || (exists b :: ty == "[" + b) || (exists a, b :: ty == a + "Text" + b)
       || (exists a, b :: ty == a + "List" + b) || (exists a, b :: ty == a + "Bytes" + b)
  }

  /** A program in which nothing is created gets no diagnostic, and its rounds settle. */
  lemma NothingReported(p: Program)
    requires ProgramCreatesNothing(p)
    ensures LastEscaping(p.functions) == {} && NamesakesAgree(p.functions)
    ensures Reported(p.functions, LastEscaping(p.functions)) == []
  {
    var fs := p.functions;
    forall f | f in fs ensures !ReturnEscapes(f, {}) {
      NothingEscapes(fs, f);
    }
    LastMembers(fs);
    assert Round(Last(fs), {}) == {};
    NoneReported(fs, {});
  }

  lemma {:induction false} NoneReported(fs: seq<Function>, escaping: set<string>)
    requires forall f :: f in fs ==> !ReturnEscapes(f, escaping)
    ensures Reported(fs, escaping) == []
  {
    if fs != [] { NoneReported(fs[..|fs| - 1], escaping); }
  }

  lemma {:induction false} LastMembers(fs: seq<Function>)
    ensures forall f :: f in Last(fs) ==> f in fs
  {
    if fs != [] { LastMembers(fs[1..]); }
  }

  /** The whole analysis: one diagnostic per function whose result escapes. */
  method AnalyzeEscapes(p: Program) returns (diagnosed: seq<Function>)
    requires NamesakesAgree(p.functions)
    ensures diagnosed == Reported(p.functions, LastEscaping(p.functions))
    ensures DistinctNames(p.functions) ==> diagnosed == Reported(p.functions, EscapingFunctions(p))
    ensures ProgramCreatesNothing(p) ==> diagnosed == []
    ensures forall f :: f in diagnosed ==> Reportable(p, f)
  {
    var table, _ := SolveCallees(p);
    diagnosed := Report(p.functions, table);
    forall f | f in diagnosed ensures Reportable(p, f) {
      ReportedMembers(p.functions, LastEscaping(p.functions), f);
      CanHoldArenaIff(f.returnType.value);
    }
    if ProgramCreatesNothing(p) { NothingReported(p); }
  }

  lemma {:induction false} ReportedMembers(fs: seq<Function>, escaping: set<string>, f: Function)
    ensures f in Reported(fs, escaping) <==> f in fs && ReturnEscapes(f, escaping)
  {
    if fs != [] {
      ReportedMembers(fs[..|fs| - 1], escaping, f);
    }
  }

  lemma {:induction false} NamesCount(fs: seq<Function>)
    ensures |Names(fs)| <= |fs|
  {
    if fs != [] {
      NamesCount(fs[1..]);
      assert Names(fs) == Names(fs[1..]) + {fs[0].name};
    }
  }
}
