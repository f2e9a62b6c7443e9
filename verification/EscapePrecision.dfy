/** What the escape analysis may report at most: marks come only from instructions that create
    arena data, from marked data that an instruction passes on, from calls of escaping functions,
    and from loops. */
module EscapePrecision {
  import opened Mir
  import opened Escape

  /** Instructions that make a text or a list, or change a list in place. */
  predicate Makes(inst: Inst) {
    inst.ArgText? || inst.TextConcat? || inst.ListNew? || inst.ListSet?
  }

  /** The registers whose data can be in the result. */
  function Passed(inst: Inst): seq<ValueId> {
    match inst
    case ListGet(_, list, _) => [list]
    case MakeRecord(_, parts) => parts
    case MakeEnum(_, _, part) => if part.Some? then [part.value] else []
    case Field(_, base, _) => [base]
    case EnumPayload(_, base) => [base]
    case Call(_, _, args) => args
    case _ => []
  }

  predicate NoneMarked(m: Marks, vs: seq<ValueId>) {
    forall i :: 0 <= i < |vs| ==> vs[i] !in m.values
  }

  /** Nothing that the instruction reads is marked, and it neither creates data nor loops: an
      instruction, with the blocks of conditionals in it, that has nothing to mark. */
  predicate Quiet(inst: Inst, m: Marks, escaping: set<string>)
    decreases inst
  {
    match inst
    case StoreLocal(_, src) => src !in m.values
    case Assert(_) => true
    case LoadLocal(_, slot) => slot !in m.slots
    case Call(_, callee, args) => callee !in escaping && NoneMarked(m, args)
    case If(_, _, thenInsts, thenResult, elseInsts, elseResult) =>
      && QuietSeq(thenInsts, m, escaping) && QuietSeq(elseInsts, m, escaping)
      && (thenResult.Some? ==> thenResult.value !in m.values) && (elseResult.Some? ==> elseResult.value !in m.values)
    case While(_, _, _, _) => false
    case Repeat(_, _, _, _) => false
    case _ => !Makes(inst) && NoneMarked(m, Passed(inst))
  }

  predicate QuietSeq(insts: seq<Inst>, m: Marks, escaping: set<string>)
    decreases insts
  {
    forall i :: 0 <= i < |insts| ==> Quiet(insts[i], m, escaping)
  }

  lemma NoneMarkedIff(m: Marks, vs: seq<ValueId>)
    ensures NoneMarked(m, vs) <==> !AnyMarked(m, vs)
  {
  }

  /** A quiet instruction leaves the marks as they are. */
  lemma {:induction false} QuietInst(c: Context, inst: Inst, m: Marks)
    requires Quiet(inst, m, c.escaping)
    ensures TransferInst(c, inst, m) == m
    decreases inst, 1
  {
    if inst.If? {
      QuietInsts(c, inst.thenInsts, m);
      QuietInsts(c, inst.elseInsts, m);
    } else if IsPlain(inst) || inst.Call? {
      PlainMarksIff(c, inst, m);
    }
  }

  lemma {:induction false} QuietInsts(c: Context, insts: seq<Inst>, m: Marks)
    requires QuietSeq(insts, m, c.escaping)
    ensures TransferSeq(c, insts, m) == m
    decreases insts, 0
  {
    if insts != [] {
      QuietInst(c, insts[0], m);
      QuietInsts(c, insts[1..], m);
    }
  }

  /** A plain instruction or a call marks its register exactly when it creates data, passes on
      marked data, loads a marked slot or calls an escaping function; it marks nothing else. */
  lemma PlainMarksIff(c: Context, inst: Inst, m: Marks)
    requires IsPlain(inst) || inst.Call?
    ensures var marks := || Makes(inst) || !NoneMarked(m, Passed(inst)) || (inst.LoadLocal? && inst.slot in m.slots)
                         || (inst.Call? && inst.callee in c.escaping);
            TransferInst(c, inst, m)
            == if marks && inst.dest < c.valueCount then m.(values := m.values + {inst.dest}) else m
  {
    if inst.MakeRecord? {
      NoneMarkedIff(m, inst.parts);
    } else if inst.Call? {
      NoneMarkedIff(m, inst.args);
    } else if inst.MakeEnum? && inst.part.Some? {
      assert Passed(inst)[0] == inst.part.value;
    } else if inst.ListGet? || inst.Field? || inst.EnumPayload? {
      assert |Passed(inst)| == 1;
      assert Passed(inst)[0] in m.values ==> !NoneMarked(m, Passed(inst));
    }
  }

  // ---- Programs that create nothing ------------------------------------------------------------

  /** No instruction of the block, nested ones included, creates arena data or loops. */
  predicate CreatesNothing(insts: seq<Inst>)
    decreases insts
  {
    forall i :: 0 <= i < |insts| ==> InstCreatesNothing(insts[i])
  }

  predicate InstCreatesNothing(inst: Inst)
    decreases inst
  {
    && !Makes(inst) && !inst.While? && !inst.Repeat?
    && (inst.If? ==> CreatesNothing(inst.thenInsts) && CreatesNothing(inst.elseInsts))
  }

  lemma {:induction false} NothingIsQuiet(inst: Inst)
    requires InstCreatesNothing(inst)
    ensures Quiet(inst, NoMarks, {})
  {
    if inst.If? {
      forall i | 0 <= i < |inst.thenInsts| ensures Quiet(inst.thenInsts[i], NoMarks, {}) {
        NothingIsQuiet(inst.thenInsts[i]);
      }
      forall i | 0 <= i < |inst.elseInsts| ensures Quiet(inst.elseInsts[i], NoMarks, {}) {
        NothingIsQuiet(inst.elseInsts[i]);
      }
    }
  }

  /** If no function creates anything, none escapes, whatever its effects and type. */
  lemma NothingEscapes(fs: seq<Function>, f: Function)
    requires CreatesNothing(f.body)
    ensures !MayEscape(f, {})
  {
    forall i | 0 <= i < |f.body| ensures Quiet(f.body[i], NoMarks, {}) {
      NothingIsQuiet(f.body[i]);
    }
    QuietInsts(ContextOf(f, {}), f.body, NoMarks);
  }

  predicate ProgramCreatesNothing(p: Program) {
    forall i :: 0 <= i < |p.functions| ==> CreatesNothing(p.functions[i].body)
  }

  // ---- Types ------------------------------------------------------------------------------------

  lemma {:induction false} ContainsIff(s: string, part: string)
    ensures Contains(s, part) <==> exists a, b :: s == a + part + b
  {
    if part <= s {
      assert s == [] + part + s[|part|..];
    } else if s != [] {
      ContainsIff(s[1..], part);
      if Contains(s[1..], part) {
        var a, b :| s[1..] == a + part + b;
        assert s == ([s[0]] + a) + part + b;
      }
      if a, b :| s == a + part + b {
        assert a != [];
        assert s[1..] == a[1..] + part + b;
      }
    } else {
      assert forall a, b :: s == a + part + b ==> |a + part + b| == 0;
    }
  }

  /** The types that can hold arena data: arrays, and those with one of three names in them. */
  lemma CanHoldArenaIff(ty: string)
    ensures CanHoldArena(ty)
       <==> || (exists b :: ty == "[" + b) || (exists a, b :: ty == a + "Text" + b)
            || (exists a, b :: ty == a + "List" + b) || (exists a, b :: ty == a + "Bytes" + b)
  {
    ContainsIff(ty, "Text");
    ContainsIff(ty, "List");
    ContainsIff(ty, "Bytes");
    if |ty| > 0 && ty[0] == '[' {
      assert ty == "[" + ty[1..];
    }
  }
}
