/** UTF-8 as the native runtime writes and slices it, against sections 3 and 4 of RFC 3629. */
module Utf8 {
  import opened Bits
  import Mir
  import opened TextMemory

  type Option<T> = Mir.Option<T>

  type Byte = TextMemory.Byte

  // ---- Encoding -----------------------------------------------------------------------------------

  /** Scalar values: code points other than surrogates. */
  predicate Scalar(cp: int) {
    0 <= cp <= 0x10ffff && !(0xd800 <= cp <= 0xdfff)
  }

  /** Conversion to an unsigned char. */
  function Cut(x: nat): Byte {
    x % 256
  }

  function DataBits(x: nat): nat {
    BitAnd(x, 0x3f)
  }

  function Tail(x: nat): Byte {
    Cut(BitOr(0x80, DataBits(x)))
  }

  /** The bytes of a code point, none for what has no encoding. */
  function Encode(cp: int): Option<seq<Byte>> {
    if cp < 0 || cp > 0x10ffff then Mir.None
    else if cp <= 0x7f then Mir.Some([Cut(BitOr(0x00, cp))])
    else if cp <= 0x7ff then Mir.Some([Cut(BitOr(0xc0, cp / 64)), Tail(cp)])
    else if 0xd800 <= cp <= 0xdfff then Mir.None
    else if cp <= 0xffff then Mir.Some([Cut(BitOr(0xe0, cp / 4096)), Tail(cp / 64), Tail(cp)])
    else Mir.Some([Cut(BitOr(0xf0, cp / 262144)), Tail(cp / 4096), Tail(cp / 64), Tail(cp)])
  }

  lemma TailValue(x: nat)
    ensures Tail(x) == 0x80 + x % 64
  {
    DataBitsValue(x);
    OrTail(DataBits(x));
  }

  lemma DataBitsValue(x: nat)
    ensures DataBits(x) == x % 64
  {
    Pow2Small();
    LowBits(x, 6);
  }

  lemma OrTail(y: nat)
    requires y < 64
    ensures BitOr(0x80, y) == 0x80 + y
  {
    Pow2Small();
    OrDisjoint(2, y, 6);
  }

  /** A lead byte: a prefix without the low `k` bits, and those bits. */
  lemma LeadValue(prefix: nat, a: nat, x: nat, k: nat)
    requires prefix == a * Pow2(k) && x < Pow2(k) && prefix + x < 256
    ensures Cut(BitOr(prefix, x)) == prefix + x
  {
    OrDisjoint(a, x, k);
  }

  /** The encoding in the arithmetic of section 3 of RFC 3629. */
  function Layout(cp: nat): (r: seq<nat>)
    ensures 1 <= |r| <= 4
  {
    if cp <= 0x7f then [cp]
    else if cp <= 0x7ff then [0xc0 + cp / 64, 0x80 + cp % 64]
    else if cp <= 0xffff then [0xe0 + cp / 4096, 0x80 + cp / 64 % 64, 0x80 + cp % 64]
    else [0xf0 + cp / 262144, 0x80 + cp / 4096 % 64, 0x80 + cp / 64 % 64, 0x80 + cp % 64]
  }

  /** Exactly the scalar values are encoded: surrogates and numbers out of range are rejected. */
  lemma EncodeIsLayout(cp: int)
    ensures Encode(cp).Some? <==> Scalar(cp)
    ensures Scalar(cp) ==> Encode(cp).value == Layout(cp)
  {
    if Scalar(cp) {
      if cp <= 0x7f {
        assert Cut(BitOr(0, cp)) == cp;
      } else if cp <= 0x7ff {
        EncodeTwo(cp);
      } else if cp <= 0xffff {
        EncodeThree(cp);
      } else {
        EncodeFour(cp);
      }
    }
  }

  lemma EncodeTwo(cp: nat)
    requires 0x7f < cp <= 0x7ff
    ensures [Cut(BitOr(0xc0, cp / 64)), Tail(cp)] == Layout(cp)
  {
    Pow2Small();
    LeadValue(0xc0, 6, cp / 64, 5);
    TailValue(cp);
  }

  lemma EncodeThree(cp: nat)
    requires 0x7ff < cp <= 0xffff
    ensures [Cut(BitOr(0xe0, cp / 4096)), Tail(cp / 64), Tail(cp)] == Layout(cp)
  {
    Pow2Small();
    LeadValue(0xe0, 14, cp / 4096, 4);
    TailValue(cp / 64);
    TailValue(cp);
  }

  lemma EncodeFour(cp: nat)
    requires 0xffff < cp <= 0x10ffff
    ensures [Cut(BitOr(0xf0, cp / 262144)), Tail(cp / 4096), Tail(cp / 64), Tail(cp)] == Layout(cp)
  {
    Pow2Small();
    LeadValue(0xf0, 30, cp / 262144, 3);
    TailValue(cp / 4096);
    TailValue(cp / 64);
    TailValue(cp);
  }

  // ---- Decoding by the grammar of section 4 ---------------------------------------------------------

  predicate IsTail(b: nat) {
    0x80 <= b <= 0xbf
  }

  /** The length of the UTF-8 sequence that the bytes start with, 0 if none. */
  function Head(s: seq<nat>): (n: nat)
    ensures n <= 4 && n <= |s|
  {
    if |s| >= 1 && s[0] <= 0x7f then 1
    else if |s| >= 2 && 0xc2 <= s[0] <= 0xdf && IsTail(s[1]) then 2
    else if |s| >= 3 && IsTail(s[2]) && (
              || (s[0] == 0xe0 && 0xa0 <= s[1] <= 0xbf) || (0xe1 <= s[0] <= 0xec && IsTail(s[1]))
              || (s[0] == 0xed && 0x80 <= s[1] <= 0x9f) || (0xee <= s[0] <= 0xef && IsTail(s[1]))) then 3
    else if |s| >= 4 && IsTail(s[2]) && IsTail(s[3]) && (
              || (s[0] == 0xf0 && 0x90 <= s[1] <= 0xbf) || (0xf1 <= s[0] <= 0xf3 && IsTail(s[1]))
              || (s[0] == 0xf4 && 0x80 <= s[1] <= 0x8f)) then 4
    else 0
  }

  /** The number that a sequence stands for. */
  function Number(s: seq<nat>): int
    requires Head(s) > 0
  {
    match Head(s)
    case 1 => s[0]
    case 2 => (s[0] - 0xc0) * 64 + (s[1] - 0x80)
    case 3 => (s[0] - 0xe0) * 4096 + (s[1] - 0x80) * 64 + (s[2] - 0x80)
    case _ => (s[0] - 0xf0) * 262144 + (s[1] - 0x80) * 4096 + (s[2] - 0x80) * 64 + (s[3] - 0x80)
  }

  /** Decoding undoes encoding, whatever follows. */
  lemma EncodeDecode(cp: int, rest: seq<nat>)
    requires Scalar(cp)
    ensures Head(Layout(cp) + rest) == |Layout(cp)| && Number(Layout(cp) + rest) == cp
  {
    var s := Layout(cp) + rest;
    assert forall i :: 0 <= i < |Layout(cp)| ==> s[i] == Layout(cp)[i];
    if cp <= 0x7ff {
    } else if cp <= 0xffff {
      Three(cp);
    } else {
      Four(cp);
    }
  }

  lemma Three(cp: nat)
    requires cp <= 0xffff
    ensures cp == cp / 4096 * 4096 + cp / 64 % 64 * 64 + cp % 64 && cp / 4096 <= 15
    ensures cp >= 0x800 && cp / 4096 == 0 ==> cp / 64 % 64 >= 32
    ensures cp / 4096 == 13 && cp / 64 % 64 >= 32 ==> 0xd800 <= cp <= 0xdfff
  {
    assert cp / 64 / 64 == cp / 4096;
  }

  lemma Four(cp: nat)
    requires cp <= 0x10ffff
    ensures cp == cp / 262144 * 262144 + cp / 4096 % 64 * 4096 + cp / 64 % 64 * 64 + cp % 64 && cp / 262144 <= 4
    ensures cp >= 0x10000 && cp / 262144 == 0 ==> cp / 4096 % 64 >= 16
    ensures cp / 262144 == 4 ==> cp / 4096 % 64 < 16
  {
    assert cp / 64 / 64 == cp / 4096 && cp / 4096 / 64 == cp / 262144;
  }

  /** Encoding undoes decoding: every sequence of the grammar is the encoding of a scalar value. */
  lemma DecodeEncode(s: seq<nat>)
    requires Head(s) > 0
    ensures Scalar(Number(s)) && Layout(Number(s)) == s[..Head(s)]
  {
    if Head(s) == 2 {
      Split(s[0] - 0xc0, s[1] - 0x80);
    } else if Head(s) == 3 {
      HeadThree(s);
    } else if Head(s) == 4 {
      HeadFour(s);
    }
  }

  lemma HeadThree(s: seq<nat>)
    requires Head(s) == 3
    ensures Scalar(Number(s)) && Layout(Number(s)) == s[..3]
  {
    DecodeThree(s[0] - 0xe0, s[1] - 0x80, s[2] - 0x80);
  }

  lemma HeadFour(s: seq<nat>)
    requires Head(s) == 4
    ensures Scalar(Number(s)) && Layout(Number(s)) == s[..4]
  {
    DecodeFour(s[0] - 0xf0, s[1] - 0x80, s[2] - 0x80, s[3] - 0x80);
  }

  lemma DecodeThree(x: nat, y: nat, z: nat)
    requires x < 16 && y < 64 && z < 64 && (x == 0 ==> y >= 32) && (x == 13 ==> y < 32)
    ensures var n := x * 4096 + y * 64 + z;
            Scalar(n) && Layout(n) == [0xe0 + x, 0x80 + y, 0x80 + z]
  {
    Split3(x, y, z);
  }

  lemma DecodeFour(w: nat, x: nat, y: nat, z: nat)
    requires w <= 4 && x < 64 && y < 64 && z < 64 && (w == 0 ==> x >= 16) && (w == 4 ==> x < 16)
    ensures var n := w * 262144 + x * 4096 + y * 64 + z;
            Scalar(n) && Layout(n) == [0xf0 + w, 0x80 + x, 0x80 + y, 0x80 + z]
  {
    Split4(w, x, y, z);
  }

  lemma Split(x: nat, y: nat)
    requires y < 64
    ensures (x * 64 + y) / 64 == x && (x * 64 + y) % 64 == y
  {
  }

  lemma Split3(x: nat, y: nat, z: nat)
    requires y < 64 && z < 64
    ensures var n := x * 4096 + y * 64 + z; n / 4096 == x && n / 64 % 64 == y && n % 64 == z
  {
    Split(x, y);
    Split(x * 64 + y, z);
  }

  lemma Split4(w: nat, x: nat, y: nat, z: nat)
    requires x < 64 && y < 64 && z < 64
    ensures var n := w * 262144 + x * 4096 + y * 64 + z;
            n / 262144 == w && n / 4096 % 64 == x && n / 64 % 64 == y && n % 64 == z
  {
    Split3(w, x, y);
    Split((w * 64 + x) * 64 + y, z);
  }

  // ---- Valid texts ------------------------------------------------------------------------------------

  /** A text is valid when it is a run of sequences of the grammar. */
  predicate Valid(s: seq<nat>)
    decreases |s|
  {
    s == [] || (Head(s) > 0 && Valid(s[Head(s)..]))
  }

  predicate Scalars(cps: seq<int>) {
    forall i :: 0 <= i < |cps| ==> Scalar(cps[i])
  }

  /** The bytes of a sequence of scalar values. */
  function Text(cps: seq<int>): seq<nat>
    requires Scalars(cps)
  {
    if cps == [] then [] else Layout(cps[0]) + Text(cps[1..])
  }

  lemma {:induction false} TextValid(cps: seq<int>)
    requires Scalars(cps)
    ensures Valid(Text(cps))
  {
    if cps != [] {
      EncodeDecode(cps[0], Text(cps[1..]));
      TextValid(cps[1..]);
      assert Text(cps)[|Layout(cps[0])|..] == Text(cps[1..]);
    }
  }

  /** The scalar values of a valid text. */
  function Points(s: seq<nat>): seq<int>
    requires Valid(s)
    decreases |s|
  {
    if s == [] then [] else [Number(s)] + Points(s[Head(s)..])
  }

  lemma {:induction false} PointsText(s: seq<nat>)
    requires Valid(s)
    ensures Scalars(Points(s)) && Text(Points(s)) == s
    decreases |s|
  {
    if s != [] {
      var cp, rest := FirstPoint(s);
      PointsText(rest);
      TextCons(cp, Points(rest));
    }
  }

  /** The first code point and the text after it. */
  lemma FirstPoint(s: seq<nat>) returns (cp: int, rest: seq<nat>)
    requires Valid(s) && s != []
    ensures Scalar(cp) && s == Layout(cp) + rest && Valid(rest) && |rest| < |s| && Points(s) == [cp] + Points(rest)
  {
    DecodeEncode(s);
    cp, rest := Number(s), s[Head(s)..];
    assert s == s[..Head(s)] + rest;
  }

  lemma TextCons(cp: int, cps: seq<int>)
    requires Scalar(cp) && Scalars(cps)
    ensures Scalars([cp] + cps) && Text([cp] + cps) == Layout(cp) + Text(cps)
  {
    assert ([cp] + cps)[1..] == cps;
  }

  lemma {:induction false} TextConcat(a: seq<int>, b: seq<int>)
    requires Scalars(a) && Scalars(b)
    ensures Scalars(a + b) && Text(a + b) == Text(a) + Text(b)
  {
    if a == [] {
      assert a + b == b;
    } else {
      TextConcat(a[1..], b);
      RestOfConcat(a, b);
      Associates(Layout(a[0]), Text(a[1..]), Text(b));
    }
  }

  lemma RestOfConcat(a: seq<int>, b: seq<int>)
    requires a != []
    ensures (a + b)[0] == a[0] && (a + b)[1..] == a[1..] + b
  {
  }

  lemma Associates(x: seq<nat>, y: seq<nat>, z: seq<nat>)
    ensures x + (y + z) == x + y + z
  {
  }

  lemma ValidConcat(s: seq<nat>, t: seq<nat>)
    requires Valid(s) && Valid(t)
    ensures Valid(s + t)
  {
    PointsText(s);
    PointsText(t);
    TextConcat(Points(s), Points(t));
    TextValid(Points(s) + Points(t));
  }

  // ---- Boundaries -------------------------------------------------------------------------------------

  function HighBits(b: Byte): nat {
    BitAnd(b, 0xc0)
  }

  predicate Continuation(b: Byte) {
    HighBits(b) == 0x80
  }

  lemma HighBitsValue(b: Byte)
    ensures HighBits(b) == b - b % 64
  {
    Pow2Small();
    LowCleared(b, 6, 8);
    DivMod(b, 64);
  }

  lemma HighBitsRange(b: nat, high: nat)
    requires b < 256 && high == b - b % 64
    ensures high == 0x80 <==> IsTail(b)
  {
  }

  lemma ContinuationIsTail(b: Byte)
    ensures Continuation(b) <==> IsTail(b)
  {
    HighBitsValue(b);
    HighBitsRange(b, HighBits(b));
  }

  /** Where the code point with number `k` starts. */
  function Offset(cps: seq<int>, k: nat): nat
    requires Scalars(cps) && k <= |cps|
  {
    |Text(cps[..k])|
  }

  lemma OffsetStep(cps: seq<int>, k: nat)
    requires Scalars(cps) && k < |cps|
    ensures Offset(cps, k + 1) == Offset(cps, k) + |Layout(cps[k])|
  {
    assert cps[..k + 1] == cps[..k] + [cps[k]];
    TextConcat(cps[..k], [cps[k]]);
    assert Text([cps[k]]) == Layout(cps[k]) + Text([cps[k]][1..]);
  }

  lemma {:induction false} OffsetMonotone(cps: seq<int>, j: nat, k: nat)
    requires Scalars(cps) && j <= k <= |cps|
    ensures Offset(cps, j) <= Offset(cps, k) && (j < k ==> Offset(cps, j) < Offset(cps, k))
    decreases k
  {
    if j < k {
      OffsetMonotone(cps, j, k - 1);
      OffsetStep(cps, k - 1);
    }
  }

  lemma OffsetEnds(cps: seq<int>)
    requires Scalars(cps)
    ensures Offset(cps, 0) == 0 && Offset(cps, |cps|) == |Text(cps)|
  {
    assert cps[..|cps|] == cps;
  }

  /** The bytes between two code points. */
  lemma TextBetween(cps: seq<int>, i: nat, j: nat)
    requires Scalars(cps) && i <= j <= |cps|
    ensures Offset(cps, i) <= Offset(cps, j) <= |Text(cps)|
    ensures Text(cps[i..j]) == Text(cps)[Offset(cps, i)..Offset(cps, j)]
  {
    assert cps[..i] + cps[i..j] == cps[..j];
    TextConcat(cps[..i], cps[i..j]);
    TextSplit(cps, j);
    Middle(Text(cps[..i]), Text(cps[i..j]), Text(cps[j..]));
  }

  lemma TextSplit(cps: seq<int>, k: nat)
    requires Scalars(cps) && k <= |cps|
    ensures Text(cps) == Text(cps[..k]) + Text(cps[k..])
  {
    TextOfParts(cps, cps[..k], cps[k..]);
  }

  lemma TextOfParts(cps: seq<int>, a: seq<int>, b: seq<int>)
    requires Scalars(cps) && cps == a + b
    ensures Scalars(a) && Scalars(b) && Text(cps) == Text(a) + Text(b)
  {
    assert forall i :: 0 <= i < |a| ==> a[i] == cps[i];
    assert forall i :: 0 <= i < |b| ==> b[i] == cps[|a| + i];
    TextConcat(a, b);
  }

  lemma Middle(a: seq<nat>, b: seq<nat>, c: seq<nat>)
    ensures (a + b + c)[|a|..|a + b|] == b
  {
  }

  /** Code points start with bytes that are no tails, and only they do. */
  lemma StartsAreNoTails(cps: seq<int>, k: nat)
    requires Scalars(cps) && k < |cps|
    ensures Offset(cps, k) < |Text(cps)| && !IsTail(Text(cps)[Offset(cps, k)])
  {
    TextSplit(cps, k);
    assert Text(cps)[Offset(cps, k)] == Text(cps[k..])[0] == Layout(cps[k])[0];
  }

  lemma NotAtTail(cps: seq<int>, k: nat, c: nat)
    requires Scalars(cps) && k < |cps| && c < |Text(cps)| && IsTail(Text(cps)[c])
    ensures Offset(cps, k) != c
  {
    StartsAreNoTails(cps, k);
  }

  lemma {:induction false} NoTailIsStart(cps: seq<int>, i: nat) returns (k: nat)
    requires Scalars(cps) && i < |Text(cps)| && !IsTail(Text(cps)[i])
    ensures k < |cps| && Offset(cps, k) == i
  {
    var n := |Layout(cps[0])|;
    if i < n {
      assert Text(cps)[i] == Layout(cps[0])[i];
      k := 0;
    } else {
      assert Text(cps)[i] == Text(cps[1..])[i - n];
      var j := NoTailIsStart(cps[1..], i - n);
      k := j + 1;
      assert cps[..k][1..] == cps[1..][..j];
    }
  }

  // ---- Slicing ----------------------------------------------------------------------------------------

  /** The next offset at or after `c` that is no continuation byte. */
  function Up(s: seq<nat>, c: nat): (r: nat)
    requires c <= |s|
    ensures c <= r <= |s|
    decreases |s| - c
  {
    if c < |s| && IsTail(s[c]) then Up(s, c + 1) else c
  }

  /** The last offset at or before `e` that is no continuation byte. */
  function Down(s: seq<nat>, e: nat): (r: nat)
    requires e <= |s|
    ensures r <= e
  {
    if 0 < e < |s| && IsTail(s[e]) then Down(s, e - 1) else e
  }

  function Clamp(n: nat, len: nat): (r: nat)
    ensures r <= len
  {
    if n < len then n else len
  }

  function Slice(s: seq<nat>, start: nat, end: nat): seq<nat> {
    var lo, hi := Up(s, Clamp(start, |s|)), Down(s, Clamp(end, |s|));
    if hi <= lo then [] else s[lo..hi]
  }

  lemma {:induction false} UpIsStart(cps: seq<int>, c: nat) returns (i: nat)
    requires Scalars(cps) && c <= |Text(cps)|
    ensures i <= |cps| && Offset(cps, i) == Up(Text(cps), c) && (i > 0 ==> Offset(cps, i - 1) < c)
    decreases |Text(cps)| - c
  {
    var s := Text(cps);
    OffsetEnds(cps);
    if c == |s| {
      i := |cps|;
      if i > 0 { OffsetMonotone(cps, i - 1, i); }
    } else if IsTail(s[c]) {
      i := UpIsStart(cps, c + 1);
      if i > 0 { NotAtTail(cps, i - 1, c); }
    } else {
      i := NoTailIsStart(cps, c);
      if i > 0 { OffsetMonotone(cps, i - 1, i); }
    }
  }

  lemma {:induction false} DownIsStart(cps: seq<int>, e: nat) returns (j: nat)
    requires Scalars(cps) && e <= |Text(cps)|
    ensures j <= |cps| && Offset(cps, j) == Down(Text(cps), e) && (j < |cps| ==> e < Offset(cps, j + 1))
    decreases e
  {
    var s := Text(cps);
    OffsetEnds(cps);
    if e == |s| {
      j := |cps|;
    } else if e == 0 {
      j := 0;
      OffsetMonotone(cps, 0, 1);
    } else if IsTail(s[e]) {
      j := DownIsStart(cps, e - 1);
      if j + 1 < |cps| { NotAtTail(cps, j + 1, e); }
    } else {
      j := NoTailIsStart(cps, e);
      OffsetMonotone(cps, j, j + 1);
    }
  }

  /** Code point `k` lies between two offsets. */
  predicate Inside(cps: seq<int>, k: nat, start: nat, end: nat)
    requires Scalars(cps) && k < |cps|
  {
    start <= Offset(cps, k) && Offset(cps, k + 1) <= end
  }

  /** A slice of a valid text is the text of exactly the code points that lie between the offsets
      passed, however far these are past the end. */
  lemma SliceIsWholePoints(cps: seq<int>, start: nat, end: nat) returns (i: nat, j: nat)
    requires Scalars(cps)
    ensures i <= j <= |cps| && Slice(Text(cps), start, end) == Text(cps[i..j])
    ensures forall k :: 0 <= k < |cps| ==> (i <= k < j <==> Inside(cps, k, start, end))
  {
    var s := Text(cps);
    var lo, hi := Clamp(start, |s|), Clamp(end, |s|);
    i := UpIsStart(cps, lo);
    var last := DownIsStart(cps, hi);
    forall k | 0 <= k < |cps| ensures i <= k < last <==> Inside(cps, k, start, end) {
      InsideIff(cps, k, lo, hi, i, last);
      InsideClamped(cps, k, start, end);
    }
    if last <= i {
      j := i;
      OffsetMonotone(cps, last, i);
    } else {
      j := last;
      OffsetMonotone(cps, i, last);
      TextBetween(cps, i, j);
    }
  }

  /** Clamping the offsets to the length leaves the same code points between them. */
  lemma InsideClamped(cps: seq<int>, k: nat, start: nat, end: nat)
    requires Scalars(cps) && k < |cps|
    ensures var n := |Text(cps)|; Inside(cps, k, start, end) <==> Inside(cps, k, Clamp(start, n), Clamp(end, n))
  {
    OffsetEnds(cps);
    OffsetMonotone(cps, k, |cps|);
    OffsetMonotone(cps, k + 1, |cps|);
  }

  /** The text of exactly the code points between two offsets. */
  ghost predicate WholePoints(cps: seq<int>, start: nat, end: nat, r: seq<nat>)
    requires Scalars(cps)
  {
    exists i, j :: IsPoints(cps, i, j, start, end, r)
  }

  ghost predicate IsPoints(cps: seq<int>, i: nat, j: nat, start: nat, end: nat, r: seq<nat>)
    requires Scalars(cps)
  {
    && i <= j <= |cps| && r == Text(cps[i..j])
    && forall k :: 0 <= k < |cps| ==> (i <= k < j <==> Inside(cps, k, start, end))
  }

  lemma SliceOfValid(s: seq<nat>, start: nat, end: nat)
    requires Valid(s)
    ensures Scalars(Points(s)) && WholePoints(Points(s), start, end, Slice(s, start, end))
  {
    PointsText(s);
    var i, j := SliceIsWholePoints(Points(s), start, end);
    assert IsPoints(Points(s), i, j, start, end, Slice(s, start, end));
  }

  lemma InsideIff(cps: seq<int>, k: nat, lo: nat, hi: nat, i: nat, j: nat)
    requires Scalars(cps) && k < |cps| && i <= |cps| && j <= |cps|
    requires lo <= Offset(cps, i) && (i > 0 ==> Offset(cps, i - 1) < lo)
    requires Offset(cps, j) <= hi && (j < |cps| ==> hi < Offset(cps, j + 1))
    ensures i <= k < j <==> Inside(cps, k, lo, hi)
  {
    if i <= k { OffsetMonotone(cps, i, k); } else { OffsetMonotone(cps, k, i - 1); }
    if k < j { OffsetMonotone(cps, k + 1, j); } else { OffsetMonotone(cps, j + 1, k + 1); }
  }

  lemma SliceValid(s: seq<nat>, start: nat, end: nat)
    requires Valid(s)
    ensures Valid(Slice(s, start, end))
  {
    PointsText(s);
    var i, j := SliceIsWholePoints(Points(s), start, end);
    TextValid(Points(s)[i..j]);
  }

  function Range(s: seq<Byte>, start: nat, end: nat): seq<Byte> {
    if start < end && start < |s| then s[start..Clamp(end, |s|)] else []
  }

  lemma RangeIsBetween(s: seq<Byte>, start: nat, end: nat)
    ensures BytesBetween(s, start, end, Range(s, start, end))
  {
  }

  /** The slice of a blob, on code point boundaries for texts and at any offset for bytes; a null
      blob has none. */
  method SliceBlob(blob: Option<seq<Byte>>, start: nat, end: nat, utf8Aware: bool, heap: bool) returns (r: Stored)
    ensures blob.None? ==> r.NoText?
    ensures blob.Some? && utf8Aware ==> StoredAs(Slice(blob.value, start, end), heap, r)
    ensures blob.Some? && !utf8Aware ==> StoredAs(Range(blob.value, start, end), heap, r)
    ensures blob.Some? && !utf8Aware && r.InFull? ==> BytesBetween(blob.value, start, end, r.bytes)
    ensures blob.Some? && utf8Aware && r.InFull? && Valid(blob.value) ==>
              Scalars(Points(blob.value)) && WholePoints(Points(blob.value), start, end, r.bytes)
  {
    if blob.Some? { RangeIsBetween(blob.value, start, end); }
    if blob.Some? && Valid(blob.value) { SliceOfValid(blob.value, start, end); }
    if blob.None? { return NoText; }
    var s := blob.value;
    var cs, ce := Clamp(start, |s|), Clamp(end, |s|);
    if utf8Aware {
      cs, ce := ToBoundaries(s, cs, ce);
    }
    if ce <= cs {
      r := StoreText([], heap);
      return;
    }
    r := StoreText(s[cs..ce], heap);
  }

  /** The two boundary loops: the start moves up, the end moves down. */
  method ToBoundaries(s: seq<Byte>, start: nat, end: nat) returns (cs: nat, ce: nat)
    requires start <= |s| && end <= |s|
    ensures cs == Up(s, start) && ce == Down(s, end)
  {
    cs, ce := start, end;
    while cs < |s| && Continuation(s[cs])
      invariant cs <= |s| && Up(s, cs) == Up(s, start)
    {
      ContinuationIsTail(s[cs]);
      cs := cs + 1;
    }
    if cs < |s| { ContinuationIsTail(s[cs]); }
    while 0 < ce < |s| && Continuation(s[ce])
      invariant ce <= |s| && Down(s, ce) == Down(s, end)
      decreases ce
    {
      ContinuationIsTail(s[ce]);
      ce := ce - 1;
    }
    if ce < |s| { ContinuationIsTail(s[ce]); }
  }
}
