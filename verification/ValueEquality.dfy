/** Equality of records and payload enums as the back ends compile it: no branches, but 0/1 words
    combined by and, or and xor, with the payload of every variant compared whether it is the one
    taken or not.  Types are acyclic, so a kind is a finite tree. */
module ValueEquality {
  import opened Bits
  import Mir

  type Option<T> = Mir.Option<T>

  type Word = nat

  /** `Scalar` stands for the kinds compared as words: integers, booleans and handles. */
  datatype Kind =
    | Unit
    | Scalar
    | Float
    | Text
    | Record(fields: seq<Kind>)
    | Enum(variants: seq<Option<Kind>>)

  /** Native code runs with the C runtime or with the just-in-time runtime, which compare texts
      differently; Wasm addresses are the low 32 bits of a word, and its unit fields are not read. */
  datatype Target = Native | Jit | Wasm

  /** The mapped words and bytes of memory, and the machine's equality of floating-point words. */
  datatype Machine = Machine(
    target: Target,
    words: map<Word, Word>,
    bytes: map<Word, nat>,
    floatEq: (Word, Word) -> bool)

  const TWO32: nat := 0x1_0000_0000

  function Flag(b: bool): Word {
    if b then 1 else 0
  }

  function Address(m: Machine, base: Word, offset: nat): Word {
    if m.target.Wasm? then (base + offset) % TWO32 else base + offset
  }

  function Load(m: Machine, base: Word, offset: nat): Option<Word> {
    var a := Address(m, base, offset);
    if a in m.words then Mir.Some(m.words[a]) else Mir.None
  }

  predicate PayloadFree(vs: seq<Option<Kind>>) {
    forall i :: 0 <= i < |vs| ==> vs[i].None?
  }

  // ---- Texts ----------------------------------------------------------------------------------

  predicate MappedAt(m: Machine, p: Word, i: nat) {
    Address(m, p, i) in m.bytes
  }

  function ByteAt(m: Machine, p: Word, i: nat): nat
    requires MappedAt(m, p, i)
  {
    m.bytes[Address(m, p, i)]
  }

  /** Native texts are a length word and the bytes after it; a Wasm text is one word, the address in
      its low half and the length in its high half. */
  function TextLength(m: Machine, w: Word): Option<nat> {
    if m.target.Wasm? then Mir.Some(w / TWO32 % TWO32) else Load(m, w, 0)
  }

  function TextStart(m: Machine, w: Word): Word {
    if m.target.Wasm? then w % TWO32 else w + 8
  }

  function Bytes(m: Machine, p: Word, n: nat): (r: Option<seq<nat>>)
    ensures r.Some? ==> |r.value| == n
  {
    if n == 0 then Mir.Some([])
    else
      var rest := Bytes(m, p, n - 1);
      if rest.Some? && MappedAt(m, p, n - 1) then Mir.Some(rest.value + [ByteAt(m, p, n - 1)]) else Mir.None
  }

  /** What a text handle stands for; the native null handle stands for nothing. */
  function Content(m: Machine, w: Word): Option<seq<nat>> {
    var len := TextLength(m, w);
    if len.None? || (!m.target.Wasm? && w == 0) then Mir.None else Bytes(m, TextStart(m, w), len.value)
  }

  /** Byte by byte up to the first difference, none when a byte is not mapped. */
  function BytesEqual(m: Machine, p: Word, q: Word, i: nat, n: nat): Option<Word>
    decreases n - i
  {
    if i >= n then Mir.Some(1)
    else if !MappedAt(m, p, i) || !MappedAt(m, q, i) then Mir.None
    else if ByteAt(m, p, i) != ByteAt(m, q, i) then Mir.Some(0)
    else BytesEqual(m, p, q, i + 1, n)
  }

  predicate AllMapped(m: Machine, p: Word, q: Word, n: nat) {
    forall i :: 0 <= i < n ==> MappedAt(m, p, i) && MappedAt(m, q, i)
  }

  predicate AllEqual(m: Machine, p: Word, q: Word, n: nat) {
    forall i :: 0 <= i < n ==> MappedAt(m, p, i) && MappedAt(m, q, i) && ByteAt(m, p, i) == ByteAt(m, q, i)
  }

  /** The C runtime orders the shared prefix, all of which is read, and then the lengths. */
  function MemoryEqual(m: Machine, p: Word, pn: nat, q: Word, qn: nat): Option<Word> {
    var shared := if pn < qn then pn else qn;
    if !AllMapped(m, p, q, shared) then Mir.None else Mir.Some(Flag(AllEqual(m, p, q, shared) && pn == qn))
  }

  /** The word left by the text comparison.  Native runtimes look at the handles first. */
  function TextEqual(m: Machine, left: Word, right: Word): Option<Word> {
    var ln, rn := TextLength(m, left), TextLength(m, right);
    if !m.target.Wasm? && left == right then Mir.Some(1)
    else if !m.target.Wasm? && (left == 0 || right == 0) then Mir.Some(0)
    else if ln.None? || rn.None? then Mir.None
    else if m.target.Native? then MemoryEqual(m, TextStart(m, left), ln.value, TextStart(m, right), rn.value)
    else if ln.value != rn.value then Mir.Some(0)
    else BytesEqual(m, TextStart(m, left), TextStart(m, right), 0, ln.value)
  }

  lemma {:induction false} BytesAt(m: Machine, p: Word, n: nat, i: nat)
    requires Bytes(m, p, n).Some? && i < n
    ensures MappedAt(m, p, i) && Bytes(m, p, n).value[i] == ByteAt(m, p, i)
    decreases n
  {
    if i < n - 1 { BytesAt(m, p, n - 1, i); }
  }

  lemma BytesAgree(m: Machine, p: Word, q: Word, n: nat)
    requires Bytes(m, p, n).Some? && Bytes(m, q, n).Some?
    ensures AllMapped(m, p, q, n) && (AllEqual(m, p, q, n) <==> Bytes(m, p, n) == Bytes(m, q, n))
  {
    forall i | 0 <= i < n
      ensures MappedAt(m, p, i) && MappedAt(m, q, i)
      ensures Bytes(m, p, n).value[i] == ByteAt(m, p, i) && Bytes(m, q, n).value[i] == ByteAt(m, q, i)
    {
      BytesAt(m, p, n, i);
      BytesAt(m, q, n, i);
    }
  }

  lemma {:induction false} BytesShorter(m: Machine, p: Word, k: nat, n: nat)
    requires k <= n && Bytes(m, p, n).Some?
    ensures Bytes(m, p, k).Some?
  {
    if k < n { BytesShorter(m, p, k, n - 1); }
  }

  /** Every byte up to the first difference is mapped. */
  predicate MappedToDifference(m: Machine, p: Word, q: Word, n: nat) {
    forall i :: 0 <= i < n && AllEqual(m, p, q, i) ==> MappedAt(m, p, i) && MappedAt(m, q, i)
  }

  /** The byte loop ends if and only if the bytes up to the first difference are mapped, and then
      tells whether there is one. */
  lemma {:induction false} ByteLoop(m: Machine, p: Word, q: Word, i: nat, n: nat)
    requires i <= n && AllEqual(m, p, q, i)
    ensures BytesEqual(m, p, q, i, n).Some? <==> MappedToDifference(m, p, q, n)
    ensures AllMapped(m, p, q, n) ==> BytesEqual(m, p, q, i, n) == Mir.Some(Flag(AllEqual(m, p, q, n)))
    decreases n - i
  {
    if i < n && MappedAt(m, p, i) && MappedAt(m, q, i) && ByteAt(m, p, i) == ByteAt(m, q, i) {
      ByteLoop(m, p, q, i + 1, n);
    }
  }

  /** On two texts all three comparisons tell whether their bytes are equal. */
  lemma TextEqualRight(m: Machine, left: Word, right: Word)
    requires Content(m, left).Some? && Content(m, right).Some?
    ensures TextEqual(m, left, right) == Mir.Some(Flag(Content(m, left) == Content(m, right)))
  {
    var ln, rn := TextLength(m, left).value, TextLength(m, right).value;
    var p, q := TextStart(m, left), TextStart(m, right);
    var shared := if ln < rn then ln else rn;
    BytesShorter(m, p, shared, ln);
    BytesShorter(m, q, shared, rn);
    BytesAgree(m, p, q, shared);
    ByteLoop(m, p, q, 0, shared);
  }

  // ---- The compiled comparison --------------------------------------------------------------------

  function And(a: Option<Word>, b: Option<Word>): Option<Word> {
    if a.Some? && b.Some? then Mir.Some(BitAnd(a.value, b.value)) else Mir.None
  }

  /** The word left by the code for `left == right`, or none when a load or a call faults. */
  function Equal(m: Machine, k: Kind, left: Word, right: Word): Option<Word>
    decreases k, 1, 0
  {
    match k
    case Unit => Mir.Some(if m.target.Wasm? then 1 else Flag(left == right))
    case Scalar => Mir.Some(Flag(left == right))
    case Float => Mir.Some(Flag(m.floatEq(left, right)))
    case Text => TextEqual(m, left, right)
    case Record(fields) => EqualFields(m, k, |fields|, left, right)
    case Enum(variants) =>
      if PayloadFree(variants) then Mir.Some(Flag(left == right))
      else EqualVariants(m, k, |variants|, left, right)
  }

  /** The code for what is stored at an offset from both bases. */
  function EqualAt(m: Machine, k: Kind, left: Word, right: Word, offset: nat): Option<Word>
    decreases k, 2, 0
  {
    if k.Unit? && m.target.Wasm? then Mir.Some(1)
    else
      var l, r := Load(m, left, offset), Load(m, right, offset);
      if l.Some? && r.Some? then Equal(m, k, l.value, r.value) else Mir.None
  }

  /** The running result after `n` fields. */
  function EqualFields(m: Machine, k: Kind, n: nat, left: Word, right: Word): Option<Word>
    requires k.Record? && n <= |k.fields|
    decreases k, 0, n
  {
    if n == 0 then Mir.Some(1)
    else And(EqualFields(m, k, n - 1, left, right), EqualAt(m, k.fields[n - 1], left, right, 8 * (n - 1)))
  }

  /** The running result after `n` variants: a variant that is not the left one is masked out. */
  function EqualVariants(m: Machine, k: Kind, n: nat, left: Word, right: Word): Option<Word>
    requires k.Enum? && n <= |k.variants|
    decreases k, 0, n
  {
    var leftTag, rightTag := Load(m, left, 0), Load(m, right, 0);
    if leftTag.None? || rightTag.None? then Mir.None
    else if n == 0 then Mir.Some(Flag(leftTag.value == rightTag.value))
    else
      var result := EqualVariants(m, k, n - 1, left, right);
      match k.variants[n - 1]
      case None => result
      case Some(payload) =>
        var equal := EqualAt(m, payload, left, right, 8);
        var notVariant := BitXor(Flag(leftTag.value == n - 1), 1);
        if equal.None? then Mir.None else And(result, Mir.Some(BitOr(notVariant, equal.value)))
  }

  // ---- What words stand for -----------------------------------------------------------------------

  datatype Data =
    | Nothing
    | Num(word: Word)
    | Real(bits: Word)
    | Str(chars: seq<nat>)
    | Rec(fields: seq<Data>)
    | Variant(tag: Word, payload: Option<Data>)

  /** A payload enum is two words, a tag and a payload; only the payload of the variant taken has
      a meaning.  For a variant without one, native code stores zero and Wasm code stores nothing. */
  function Decode(m: Machine, k: Kind, w: Word): Option<Data>
    decreases k, 1, 0
  {
    match k
    case Unit => if !m.target.Wasm? && w != 0 then Mir.None else Mir.Some(Nothing)
    case Scalar => Mir.Some(Num(w))
    case Float => Mir.Some(Real(w))
    case Text => if Content(m, w).Some? then Mir.Some(Str(Content(m, w).value)) else Mir.None
    case Record(fields) =>
      var ds := DecodeFields(m, k, |fields|, w);
      if ds.Some? then Mir.Some(Rec(ds.value)) else Mir.None
    case Enum(variants) =>
      if PayloadFree(variants) then (if w < |variants| then Mir.Some(Variant(w, Mir.None)) else Mir.None)
      else
        var tag := Load(m, w, 0);
        if tag.None? || tag.value >= |variants| || Load(m, w, 8).None? then Mir.None
        else
          match variants[tag.value]
          case None =>
            if !m.target.Wasm? && Load(m, w, 8) != Mir.Some(0) then Mir.None else Mir.Some(Variant(tag.value, Mir.None))
          case Some(payload) =>
            var d := DecodeAt(m, payload, w, 8);
            if d.Some? then Mir.Some(Variant(tag.value, d)) else Mir.None
  }

  function DecodeAt(m: Machine, k: Kind, w: Word, offset: nat): Option<Data>
    decreases k, 2, 0
  {
    if k.Unit? && m.target.Wasm? then Mir.Some(Nothing)
    else
      var x := Load(m, w, offset);
      if x.Some? then Decode(m, k, x.value) else Mir.None
  }

  function DecodeFields(m: Machine, k: Kind, n: nat, w: Word): (r: Option<seq<Data>>)
    requires k.Record? && n <= |k.fields|
    ensures r.Some? ==> |r.value| == n
    decreases k, 0, n
  {
    if n == 0 then Mir.Some([])
    else
      var ds, d := DecodeFields(m, k, n - 1, w), DecodeAt(m, k.fields[n - 1], w, 8 * (n - 1));
      if ds.Some? && d.Some? then Mir.Some(ds.value + [d.value]) else Mir.None
  }

  /** Structural equality, with the machine's equality of floating-point numbers at the leaves. */
  predicate Same(m: Machine, a: Data, b: Data) {
    match a
    case Nothing => b.Nothing?
    case Num(x) => b == a
    case Real(x) => b.Real? && m.floatEq(x, b.bits)
    case Str(s) => b == a
    case Rec(fs) => b.Rec? && |b.fields| == |fs| && forall i :: 0 <= i < |fs| ==> Same(m, fs[i], b.fields[i])
    case Variant(tag, p) =>
      && b.Variant? && b.tag == tag && p.Some? == b.payload.Some?
      && (p.Some? ==> Same(m, p.value, b.payload.value))
  }

  // ---- The compiled comparison is structural equality -------------------------------------------------

  lemma FlagAnd(p: bool, q: bool)
    ensures BitAnd(Flag(p), Flag(q)) == Flag(p && q)
  {
  }

  /** Whatever word the comparison of a variant not taken leaves, masking keeps the result. */
  lemma MaskedOut(p: bool, x: Word)
    ensures BitAnd(Flag(p), BitOr(BitXor(Flag(false), 1), x)) == Flag(p)
  {
    assert BitXor(0, 1) == 1;
    var y := BitOr(1, x);
    assert y > 0 && y % 2 == 1;
    assert BitAnd(1, y) == 2 * BitAnd(0, y / 2) + 1;
  }

  lemma MaskedIn(p: bool, q: bool)
    ensures BitAnd(Flag(p), BitOr(BitXor(Flag(true), 1), Flag(q))) == Flag(p && q)
  {
    assert BitXor(1, 1) == 0;
    FlagAnd(p, q);
  }

  lemma {:induction false} EqualIsSame(m: Machine, k: Kind, left: Word, right: Word)
    requires Decode(m, k, left).Some? && Decode(m, k, right).Some? && Equal(m, k, left, right).Some?
    ensures Equal(m, k, left, right) == Mir.Some(Flag(Same(m, Decode(m, k, left).value, Decode(m, k, right).value)))
    decreases k, 1, 0
  {
    if k.Text? {
      TextEqualRight(m, left, right);
    } else if k.Record? {
      FieldsAreSame(m, k, |k.fields|, left, right);
    } else if k.Enum? && !PayloadFree(k.variants) {
      VariantsAreSame(m, k, |k.variants|, left, right);
    }
  }

  lemma {:induction false} EqualAtIsSame(m: Machine, k: Kind, left: Word, right: Word, offset: nat)
    requires DecodeAt(m, k, left, offset).Some? && DecodeAt(m, k, right, offset).Some?
    requires EqualAt(m, k, left, right, offset).Some?
    ensures EqualAt(m, k, left, right, offset)
         == Mir.Some(Flag(Same(m, DecodeAt(m, k, left, offset).value, DecodeAt(m, k, right, offset).value)))
    decreases k, 2, 0
  {
    if !(k.Unit? && m.target.Wasm?) {
      EqualIsSame(m, k, Load(m, left, offset).value, Load(m, right, offset).value);
    }
  }

  lemma {:induction false} FieldsAreSame(m: Machine, k: Kind, n: nat, left: Word, right: Word)
    requires k.Record? && n <= |k.fields|
    requires DecodeFields(m, k, n, left).Some? && DecodeFields(m, k, n, right).Some?
    requires EqualFields(m, k, n, left, right).Some?
    ensures EqualFields(m, k, n, left, right)
         == Mir.Some(Flag(Same(m, Rec(DecodeFields(m, k, n, left).value), Rec(DecodeFields(m, k, n, right).value))))
    decreases k, 0, n
  {
    if n > 0 {
      FieldsAreSame(m, k, n - 1, left, right);
      EqualAtIsSame(m, k.fields[n - 1], left, right, 8 * (n - 1));
      var a, b := DecodeFields(m, k, n - 1, left).value, DecodeFields(m, k, n - 1, right).value;
      var c := DecodeAt(m, k.fields[n - 1], left, 8 * (n - 1)).value;
      var d := DecodeAt(m, k.fields[n - 1], right, 8 * (n - 1)).value;
      SameSnoc(m, a, b, c, d);
      FlagAnd(Same(m, Rec(a), Rec(b)), Same(m, c, d));
    }
  }

  lemma SameSnoc(m: Machine, a: seq<Data>, b: seq<Data>, c: Data, d: Data)
    requires |a| == |b|
    ensures Same(m, Rec(a + [c]), Rec(b + [d])) <==> Same(m, Rec(a), Rec(b)) && Same(m, c, d)
  {
    var x, y := a + [c], b + [d];
    assert forall i :: 0 <= i < |a| ==> x[i] == a[i] && y[i] == b[i];
    assert x[|a|] == c && y[|a|] == d;
  }

  /** After `n` variants: the tags agree, and so does the payload if its variant has been passed. */
  ghost predicate SameUpTo(m: Machine, k: Kind, n: nat, left: Word, right: Word)
    requires k.Enum? && Load(m, left, 0).Some? && Load(m, right, 0).Some?
  {
    var tag := Load(m, left, 0).value;
    && tag == Load(m, right, 0).value
    && (tag < n && tag < |k.variants| && k.variants[tag].Some? ==>
         var payload := k.variants[tag].value;
         && DecodeAt(m, payload, left, 8).Some? && DecodeAt(m, payload, right, 8).Some?
         && Same(m, DecodeAt(m, payload, left, 8).value, DecodeAt(m, payload, right, 8).value))
  }

  lemma {:induction false} VariantsUpTo(m: Machine, k: Kind, n: nat, left: Word, right: Word)
    requires k.Enum? && n <= |k.variants| && !PayloadFree(k.variants)
    requires Decode(m, k, left).Some? && Decode(m, k, right).Some? && EqualVariants(m, k, n, left, right).Some?
    ensures EqualVariants(m, k, n, left, right) == Mir.Some(Flag(SameUpTo(m, k, n, left, right)))
    decreases k, 0, n
  {
    if n > 0 {
      VariantsUpTo(m, k, n - 1, left, right);
      var before := SameUpTo(m, k, n - 1, left, right);
      if k.variants[n - 1].Some? {
        var payload := k.variants[n - 1].value;
        var equal := EqualAt(m, payload, left, right, 8).value;
        var tag := Load(m, left, 0).value;
        if tag != n - 1 {
          MaskedOut(before, equal);
        } else if !before {
          assert Flag(before) == 0;
        } else {
          EqualAtIsSame(m, payload, left, right, 8);
          MaskedIn(before, Same(m, DecodeAt(m, payload, left, 8).value, DecodeAt(m, payload, right, 8).value));
        }
      }
    }
  }

  lemma {:induction false} VariantsAreSame(m: Machine, k: Kind, n: nat, left: Word, right: Word)
    requires k.Enum? && n == |k.variants| && !PayloadFree(k.variants)
    requires Decode(m, k, left).Some? && Decode(m, k, right).Some? && EqualVariants(m, k, n, left, right).Some?
    ensures EqualVariants(m, k, n, left, right)
         == Mir.Some(Flag(Same(m, Decode(m, k, left).value, Decode(m, k, right).value)))
    decreases k, 0, n + 1
  {
    VariantsUpTo(m, k, n, left, right);
  }

  // ---- Faults ---------------------------------------------------------------------------------------

  /** What the text comparison reads is mapped. */
  predicate TextsComparable(m: Machine, left: Word, right: Word) {
    var ln, rn := TextLength(m, left), TextLength(m, right);
    var p, q := TextStart(m, left), TextStart(m, right);
    || (!m.target.Wasm? && (left == right || left == 0 || right == 0))
    || (&& ln.Some? && rn.Some?
        && if m.target.Native? then AllMapped(m, p, q, if ln.value < rn.value then ln.value else rn.value)
           else ln == rn ==> MappedToDifference(m, p, q, ln.value))
  }

  /** The two words can be compared: both are read as their kind, payloads as those of every
      variant, whichever was taken. */
  predicate Comparable(m: Machine, k: Kind, left: Word, right: Word)
    decreases k, 0
  {
    match k
    case Unit => true
    case Scalar => true
    case Float => true
    case Text => TextsComparable(m, left, right)
    case Record(fields) => forall i :: 0 <= i < |fields| ==> ComparableAt(m, fields[i], left, right, 8 * i)
    case Enum(variants) =>
      || PayloadFree(variants)
      || (&& Load(m, left, 0).Some? && Load(m, right, 0).Some?
          && forall i :: 0 <= i < |variants| && variants[i].Some? ==>
               ComparableAt(m, variants[i].value, left, right, 8))
  }

  predicate ComparableAt(m: Machine, k: Kind, left: Word, right: Word, offset: nat)
    decreases k, 1
  {
    || (k.Unit? && m.target.Wasm?)
    || (&& Load(m, left, offset).Some? && Load(m, right, offset).Some?
        && Comparable(m, k, Load(m, left, offset).value, Load(m, right, offset).value))
  }

  /** The compiled comparison does not fault if and only if the words are comparable: values of the
      variants not taken are dereferenced all the same. */
  lemma {:induction false} FaultFreeIffComparable(m: Machine, k: Kind, left: Word, right: Word)
    ensures Equal(m, k, left, right).Some? <==> Comparable(m, k, left, right)
    decreases k, 0
  {
    if k.Text? {
      if TextLength(m, left).Some? {
        ByteLoop(m, TextStart(m, left), TextStart(m, right), 0, TextLength(m, left).value);
      }
    } else if k.Record? {
      forall i | 0 <= i < |k.fields|
        ensures EqualAt(m, k.fields[i], left, right, 8 * i).Some? <==> ComparableAt(m, k.fields[i], left, right, 8 * i)
      {
        FaultFreeAt(m, k.fields[i], left, right, 8 * i);
      }
      FieldsFaultFree(m, k, |k.fields|, left, right);
    } else if k.Enum? && !PayloadFree(k.variants) {
      forall i | 0 <= i < |k.variants| && k.variants[i].Some?
        ensures var payload := k.variants[i].value;
                EqualAt(m, payload, left, right, 8).Some? <==> ComparableAt(m, payload, left, right, 8)
      {
        FaultFreeAt(m, k.variants[i].value, left, right, 8);
      }
      VariantsFaultFree(m, k, |k.variants|, left, right);
    }
  }

  lemma {:induction false} FaultFreeAt(m: Machine, k: Kind, left: Word, right: Word, offset: nat)
    ensures EqualAt(m, k, left, right, offset).Some? <==> ComparableAt(m, k, left, right, offset)
    decreases k, 1
  {
    var l, r := Load(m, left, offset), Load(m, right, offset);
    if l.Some? && r.Some? {
      FaultFreeIffComparable(m, k, l.value, r.value);
    }
  }

  lemma {:induction false} FieldsFaultFree(m: Machine, k: Kind, n: nat, left: Word, right: Word)
    requires k.Record? && n <= |k.fields|
    ensures EqualFields(m, k, n, left, right).Some?
       <==> forall i :: 0 <= i < n ==> EqualAt(m, k.fields[i], left, right, 8 * i).Some?
  {
    if n > 0 { FieldsFaultFree(m, k, n - 1, left, right); }
  }

  lemma {:induction false} VariantsFaultFree(m: Machine, k: Kind, n: nat, left: Word, right: Word)
    requires k.Enum? && n <= |k.variants|
    ensures EqualVariants(m, k, n, left, right).Some?
       <==> Load(m, left, 0).Some? && Load(m, right, 0).Some?
            && forall i :: 0 <= i < n && k.variants[i].Some? ==> EqualAt(m, k.variants[i].value, left, right, 8).Some?
  {
    if n > 0 { VariantsFaultFree(m, k, n - 1, left, right); }
  }

  // ---- Kinds whose values always compare --------------------------------------------------------------

  /** Not dereferenced. */
  predicate PlainWord(k: Kind) {
    k.Unit? || k.Scalar? || k.Float? || (k.Enum? && PayloadFree(k.variants))
  }

  /** At every depth, an enum has payloads that are plain words, or in native code texts, or payloads
      of one and the same kind in all its variants. */
  predicate SafePayloads(target: Target, k: Kind) {
    match k
    case Record(fields) => forall i :: 0 <= i < |fields| ==> SafePayloads(target, fields[i])
    case Enum(variants) =>
      || (forall i :: 0 <= i < |variants| && variants[i].Some? ==> PlainWord(variants[i].value))
      || (!target.Wasm? && forall i :: 0 <= i < |variants| && variants[i].Some? ==> variants[i].value.Text?)
      || (&& (forall i :: 0 <= i < |variants| ==> variants[i].Some? && variants[i] == variants[0])
          && forall i :: 0 <= i < |variants| && variants[i].Some? ==> SafePayloads(target, variants[i].value))
    case _ => true
  }

  lemma {:induction false} DecodedFields(m: Machine, k: Kind, n: nat, w: Word)
    requires k.Record? && n <= |k.fields| && DecodeFields(m, k, n, w).Some?
    ensures forall i :: 0 <= i < n ==> DecodeAt(m, k.fields[i], w, 8 * i).Some?
  {
    if n > 0 { DecodedFields(m, k, n - 1, w); }
  }

  lemma {:induction false} SafeComparable(m: Machine, k: Kind, left: Word, right: Word)
    requires SafePayloads(m.target, k) && Decode(m, k, left).Some? && Decode(m, k, right).Some?
    ensures Comparable(m, k, left, right)
    decreases k, 1
  {
    if k.Text? {
      TextEqualRight(m, left, right);
      FaultFreeIffComparable(m, k, left, right);
    } else if k.Record? {
      DecodedFields(m, k, |k.fields|, left);
      DecodedFields(m, k, |k.fields|, right);
      forall i | 0 <= i < |k.fields| ensures ComparableAt(m, k.fields[i], left, right, 8 * i) {
        SafeComparableAt(m, k.fields[i], left, right, 8 * i);
      }
    } else if k.Enum? && !PayloadFree(k.variants) {
      forall i | 0 <= i < |k.variants| && k.variants[i].Some?
        ensures ComparableAt(m, k.variants[i].value, left, right, 8)
      {
        SafeVariant(m, k, left, right, i);
      }
    }
  }

  lemma {:induction false} SafeComparableAt(m: Machine, k: Kind, left: Word, right: Word, offset: nat)
    requires SafePayloads(m.target, k) && DecodeAt(m, k, left, offset).Some? && DecodeAt(m, k, right, offset).Some?
    ensures ComparableAt(m, k, left, right, offset)
    decreases k, 2
  {
    if !(k.Unit? && m.target.Wasm?) {
      SafeComparable(m, k, Load(m, left, offset).value, Load(m, right, offset).value);
    }
  }

  lemma {:induction false} SafeVariant(m: Machine, k: Kind, left: Word, right: Word, i: nat)
    requires k.Enum? && !PayloadFree(k.variants) && SafePayloads(m.target, k)
    requires Decode(m, k, left).Some? && Decode(m, k, right).Some?
    requires i < |k.variants| && k.variants[i].Some?
    ensures ComparableAt(m, k.variants[i].value, left, right, 8)
    decreases k, 0
  {
    var payload := k.variants[i].value;
    var l, r := Load(m, left, 8).value, Load(m, right, 8).value;
    var lt, rt := Load(m, left, 0).value, Load(m, right, 0).value;
    if payload.Text? && !m.target.Wasm? && l != 0 && r != 0 && k.variants[lt] == k.variants[rt] == k.variants[i] {
      TextEqualRight(m, l, r);
      FaultFreeIffComparable(m, payload, l, r);
    } else if !PlainWord(payload) && !payload.Text? {
      SafeComparableAt(m, payload, left, right, 8);
    } else if payload.Text? && m.target.Wasm? {
      SafeComparableAt(m, payload, left, right, 8);
    }
  }

  /** Values of such a kind compare without a fault, and by structural equality. */
  lemma SafeEqual(m: Machine, k: Kind, left: Word, right: Word)
    requires SafePayloads(m.target, k) && Decode(m, k, left).Some? && Decode(m, k, right).Some?
    ensures Equal(m, k, left, right) == Mir.Some(Flag(Same(m, Decode(m, k, left).value, Decode(m, k, right).value)))
  {
    SafeComparable(m, k, left, right);
    FaultFreeIffComparable(m, k, left, right);
    EqualIsSame(m, k, left, right);
  }

  // ---- Kinds whose values may not ---------------------------------------------------------------------

  /** Kinds whose words are dereferenced at once. */
  predicate Dereferenced(k: Kind) {
    (k.Record? && k.fields != []) || (k.Enum? && !PayloadFree(k.variants))
  }

  /** An enum with a variant that carries a record or an enum and a variant that carries nothing: a
      value of the latter, whose payload word is zero, makes native code read address zero, even
      when it is compared with itself. */
  lemma EmptyVariantFaults(m: Machine, variants: seq<Option<Kind>>, i: nat, j: nat, w: Word)
    requires i < |variants| && variants[i].Some? && Dereferenced(variants[i].value)
    requires j < |variants| && variants[j].None?
    requires !m.target.Wasm? && 0 !in m.words
    requires Load(m, w, 0) == Mir.Some(j) && Load(m, w, 8) == Mir.Some(0)
    ensures Decode(m, Enum(variants), w) == Mir.Some(Variant(j, Mir.None))
    ensures Equal(m, Enum(variants), w, w).None?
  {
    var k := Enum(variants);
    var payload := variants[i].value;
    assert Load(m, 0, 0).None?;
    if payload.Record? {
      assert !ComparableAt(m, payload.fields[0], 0, 0, 8 * 0);
    }
    assert !Comparable(m, payload, 0, 0) && !ComparableAt(m, payload, w, w, 8);
    FaultFreeIffComparable(m, k, w, w);
  }

  /** In Wasm a value without payload keeps what its payload word held before.  When another variant
      carries a text and that stale word is the handle of one that is not mapped, the value faults
      when it is compared with itself. */
  lemma StaleTextFaults(m: Machine, variants: seq<Option<Kind>>, i: nat, j: nat, w: Word, stale: Word)
    requires i < |variants| && variants[i] == Mir.Some(Text) && j < |variants| && variants[j].None?
    requires m.target.Wasm? && Load(m, w, 0) == Mir.Some(j) && Load(m, w, 8) == Mir.Some(stale)
    requires stale / TWO32 % TWO32 > 0 && stale % TWO32 !in m.bytes
    ensures Decode(m, Enum(variants), w) == Mir.Some(Variant(j, Mir.None))
    ensures Equal(m, Enum(variants), w, w).None?
  {
    var p := TextStart(m, stale);
    assert Address(m, p, 0) == stale % TWO32;
    assert AllEqual(m, p, p, 0) && !MappedAt(m, p, 0);
    assert !Comparable(m, Text, stale, stale) && !ComparableAt(m, Text, w, w, 8);
    FaultFreeIffComparable(m, Enum(variants), w, w);
  }
}
