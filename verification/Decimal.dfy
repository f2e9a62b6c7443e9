/** Decimal numbers in the native runtime: the printer, which fills a scratch buffer from its end,
    and the parser of 32-bit integers. */
module Decimal {
  import Mir
  import Utf8

  type Option<T> = Mir.Option<T>
  type Byte = Utf8.Byte

  const MINUS: nat := 45
  const ZERO: nat := 48
  const SPACE: nat := 32
  const DECIMAL_WIDTH: nat := 20
  const TWO63: int := 0x8000_0000_0000_0000
  const TWO64: int := 0x1_0000_0000_0000_0000
  const INT32_MAX: nat := 0x7fff_ffff

  // ---- Numerals -----------------------------------------------------------------------------------

  /** The decimal numeral of a number in ASCII, without leading zeros. */
  function Digits(n: nat): (r: seq<Byte>)
    ensures r != []
  {
    if n < 10 then [48 + n] else Digits(n / 10) + [48 + n % 10]
  }

  function Printed(v: int): seq<Byte> {
    if v < 0 then [45] + Digits(-v) else Digits(v)
  }

  predicate AllDigits(s: seq<Byte>) {
    forall i :: 0 <= i < |s| ==> 48 <= s[i] <= 57
  }

  /** The number that a string of digits stands for. */
  function Number(s: seq<Byte>): nat
    requires AllDigits(s)
  {
    if s == [] then 0 else Number(s[..|s| - 1]) * 10 + (s[|s| - 1] - 48)
  }

  lemma {:induction false} NumberOfDigits(n: nat)
    ensures AllDigits(Digits(n)) && Number(Digits(n)) == n
  {
    var s := Digits(n);
    if n >= 10 {
      NumberOfDigits(n / 10);
      assert s[..|s| - 1] == Digits(n / 10);
    }
  }

  /** Only the first digit of a numeral can tell it from another with the same value: without a
      leading zero the numeral of a number is unique. */
  lemma {:induction false} DigitsOfNumber(s: seq<Byte>)
    requires AllDigits(s) && s != [] && (|s| > 1 ==> s[0] != 48)
    ensures Digits(Number(s)) == s && (|s| > 1 ==> Number(s) >= 10)
  {
    var t := s[..|s| - 1];
    if t != [] {
      DigitsOfNumber(t);
      NumberPositive(t);
      assert s == t + [s[|s| - 1]];
      DigitsSnoc(Number(t), s[|s| - 1] - 48);
    } else {
      assert Number(t) == 0;
    }
  }

  lemma {:induction false} NumberPositive(s: seq<Byte>)
    requires AllDigits(s) && s != [] && s[0] != 48
    ensures Number(s) > 0
  {
    if |s| > 1 {
      NumberPositive(s[..|s| - 1]);
    } else {
      assert Number(s[..0]) == 0;
    }
  }

  lemma DigitsSnoc(n: nat, d: nat)
    requires n > 0 && d < 10
    ensures Digits(n * 10 + d) == Digits(n) + [48 + d] && n * 10 + d >= 10
  {
    assert (n * 10 + d) / 10 == n && (n * 10 + d) % 10 == d;
  }

  lemma {:induction false} NumberPrefix(s: seq<Byte>, k: nat)
    requires AllDigits(s) && k <= |s|
    ensures Number(s[..k]) <= Number(s)
  {
    if k == |s| {
      assert s[..k] == s;
    } else {
      NumberPrefix(s[..|s| - 1], k);
      assert s[..|s| - 1][..k] == s[..k];
    }
  }

  function Pow10(k: nat): nat {
    if k == 0 then 1 else 10 * Pow10(k - 1)
  }

  lemma {:induction false} DigitsLength(n: nat, k: nat)
    requires k > 0 && n < Pow10(k)
    ensures |Digits(n)| <= k
  {
    if n >= 10 { DigitsLength(n / 10, k - 1); }
  }

  /** A few numerals, byte by byte. */
  lemma PrintedExamples()
    ensures Printed(0) == [48] && Printed(7) == [55] && Printed(42) == [52, 50] && Printed(-305) == [45, 51, 48, 53]
  {
    assert Digits(30) == Digits(3) + [48] == [51, 48];
    assert Digits(305) == Digits(30) + [53] == [51, 48, 53];
  }

  /** Every 64-bit integer fits the scratch buffer. */
  lemma PrintedFits(v: int)
    requires -TWO63 <= v < TWO63
    ensures |Printed(v)| <= DECIMAL_WIDTH
  {
    assert Pow10(19) == 10_000_000_000_000_000_000 by {
      assert Pow10(10) == 10_000_000_000;
    }
    DigitsLength(if v < 0 then -v else v, 19);
  }

  // ---- Printing -----------------------------------------------------------------------------------

  /** The magnitude by 64-bit negation, which wraps. */
  function Magnitude(v: int): nat
    requires -TWO63 <= v < TWO63
  {
    if v < 0 then (TWO64 - v % TWO64) % TWO64 else v
  }

  lemma MagnitudeValue(v: int)
    requires -TWO63 <= v < TWO63
    ensures Magnitude(v) == if v < 0 then -v else v
  {
  }

  /** Writes the digits from the end of the scratch buffer towards its start. */
  method PutDigits(scratch: array<Byte>, number: nat) returns (index: nat)
    requires scratch.Length >= DECIMAL_WIDTH && |Digits(number)| <= DECIMAL_WIDTH
    modifies scratch
    ensures index == DECIMAL_WIDTH - |Digits(number)|
    ensures scratch[index..DECIMAL_WIDTH] == Digits(number)
    ensures scratch[DECIMAL_WIDTH..] == old(scratch[DECIMAL_WIDTH..])
  {
    var magnitude := number;
    index := DECIMAL_WIDTH - 1;
    scratch[index] := ZERO + magnitude % 10;
    magnitude := magnitude / 10;
    assert scratch[index..DECIMAL_WIDTH] == [ZERO + number % 10];
    while magnitude != 0
      invariant index < DECIMAL_WIDTH
      invariant Digits(number) == (if magnitude == 0 then [] else Digits(magnitude)) + scratch[index..DECIMAL_WIDTH]
      invariant scratch[DECIMAL_WIDTH..] == old(scratch[DECIMAL_WIDTH..])
    {
      ghost var done := scratch[index..DECIMAL_WIDTH];
      assert |Digits(number)| == |Digits(magnitude)| + |done|;
      index := index - 1;
      scratch[index] := ZERO + magnitude % 10;
      assert scratch[index..DECIMAL_WIDTH] == [ZERO + magnitude % 10] + done;
      DigitsShift(magnitude, done);
      magnitude := magnitude / 10;
    }
  }

  /** Taking the last digit of a numeral over to what follows it. */
  lemma DigitsShift(n: nat, s: seq<Byte>)
    ensures Digits(n) + s == (if n / 10 == 0 then [] else Digits(n / 10)) + ([ZERO + n % 10] + s)
  {
  }

  /** Leaves the numeral at the end of the scratch buffer and returns its length. */
  method FormatI64(scratch: array<Byte>, value: int) returns (len: nat)
    requires scratch.Length >= DECIMAL_WIDTH && -TWO63 <= value < TWO63
    modifies scratch
    ensures len == |Printed(value)| && len <= DECIMAL_WIDTH
    ensures scratch[DECIMAL_WIDTH - len..DECIMAL_WIDTH] == Printed(value)
    ensures scratch[DECIMAL_WIDTH..] == old(scratch[DECIMAL_WIDTH..])
  {
    MagnitudeValue(value);
    PrintedFits(value);
    var index := PutDigits(scratch, Magnitude(value));
    if value < 0 {
      ghost var digits := scratch[index..DECIMAL_WIDTH];
      index := index - 1;
      scratch[index] := MINUS;
      assert scratch[index..DECIMAL_WIDTH] == [MINUS] + digits;
    }
    len := DECIMAL_WIDTH - index;
  }

  // ---- Parsing ------------------------------------------------------------------------------------

  /** What the parser accepts: an optional minus, then digits, with a value in the 32-bit range. */
  function Parsed(s: seq<Byte>): Option<int> {
    var negative := s != [] && s[0] == 45;
    var d := if negative then s[1..] else s;
    if d == [] || !AllDigits(d) then Mir.None
    else if negative then (if Number(d) <= 2147483648 then Mir.Some(-(Number(d) as int)) else Mir.None)
    else if Number(d) <= 2147483647 then Mir.Some(Number(d) as int)
    else Mir.None
  }

  /** Parsing what was printed gives the integer back, and fails for exactly the integers that do
      not fit 32 bits. */
  lemma ParsePrinted(v: int)
    ensures Parsed(Printed(v)) == if -0x8000_0000 <= v <= 0x7fff_ffff then Mir.Some(v) else Mir.None
  {
    var m: nat := if v < 0 then -v else v;
    NumberOfDigits(m);
    var s := Printed(v);
    if v < 0 {
      assert s[1..] == Digits(m);
    } else {
      assert s[0] != MINUS;
    }
  }

  /** A byte of the text, or what lies behind its end. */
  function At(bytes: seq<Byte>, i: nat, beyond: Byte): Byte {
    if i < |bytes| then bytes[i] else beyond
  }

  /** The value of `bytes[index..len]`; when `index` is past `len` the answer is zero. */
  method ParseValidated(bytes: seq<Byte>, index: nat, len: nat, beyond: Byte) returns (r: Option<int>)
    requires len <= |bytes|
    ensures index <= len ==> r == Parsed(bytes[index..len])
    ensures index > len ==> r == Mir.Some(0)
  {
    if index == len { return Mir.None; }
    var i := index;
    var negative := At(bytes, i, beyond) == MINUS;
    var limit := INT32_MAX;
    if negative {
      i := i + 1;
      limit := INT32_MAX + 1;
    }
    if i == len { return Mir.None; }
    var value := ParseDigits(if i < len then bytes[i..len] else [], limit);
    assert index < len ==> bytes[index..len][0] == bytes[index];
    assert index < len && negative ==> bytes[index..len][1..] == bytes[i..len];
    if value.None? { return Mir.None; }
    r := Mir.Some(if negative then -(value.value as int) else value.value);
  }

  /** The digit loop: stops at the first byte that is no digit or takes the value over the limit. */
  method ParseDigits(d: seq<Byte>, limit: nat) returns (r: Option<nat>)
    requires limit < TWO63
    ensures r == if AllDigits(d) && Number(d) <= limit then Mir.Some(Number(d)) else Mir.None
  {
    var value := 0;
    var k := 0;
    while k < |d|
      invariant k <= |d| && AllDigits(d[..k]) && value == Number(d[..k]) && value <= limit
    {
      if d[k] < ZERO || d[k] > ZERO + 9 { return Mir.None; }
      var digit := d[k] - ZERO;
      assert d[..k + 1][..k] == d[..k];
      if AllDigits(d) { NumberPrefix(d, k + 1); }
      if value > limit / 10 { return Mir.None; }
      var next := value * 10 + digit;
      if next > limit { return Mir.None; }
      value := next;
      k := k + 1;
    }
    assert d[..k] == d;
    r := Mir.Some(value);
  }

  function OrZero(r: Option<int>): int {
    if r.Some? then r.value else 0
  }

  method ParseI32(text: seq<Byte>) returns (v: int)
    ensures v == if Parsed(text).Some? then Parsed(text).value else 0
  {
    if |text| == 0 { return 0; }
    var r := ParseValidated(text, 0, |text|, 0);
    assert text[0..|text|] == text;
    v := OrZero(r);
  }

  function TrimLeft(s: seq<Byte>): seq<Byte> {
    if s != [] && s[0] == 32 then TrimLeft(s[1..]) else s
  }

  function TrimRight(s: seq<Byte>): seq<Byte> {
    if s != [] && s[|s| - 1] == 32 then TrimRight(s[..|s| - 1]) else s
  }

  predicate AllSpaces(s: seq<Byte>) {
    forall i :: 0 <= i < |s| ==> s[i] == 32
  }

  /** Trimming cuts off spaces on both sides, and what is left neither starts nor ends with one. */
  lemma TrimMeans(s: seq<Byte>) returns (i: nat, j: nat)
    ensures i <= j <= |s| && TrimRight(TrimLeft(s)) == s[i..j] && AllSpaces(s[..i]) && AllSpaces(s[j..])
    ensures i < j ==> s[i] != 32 && s[j - 1] != 32
  {
    i := LeftMeans(s);
    var n := RightMeans(s[i..]);
    j := i + n;
    assert s[i..][..n] == s[i..j] && s[i..][n..] == s[j..];
    if i < j { assert s[i..][n - 1] == s[j - 1]; }
  }

  lemma {:induction false} LeftMeans(s: seq<Byte>) returns (i: nat)
    ensures i <= |s| && TrimLeft(s) == s[i..] && AllSpaces(s[..i]) && (i < |s| ==> s[i] != 32)
  {
    if s != [] && s[0] == 32 {
      var k := LeftMeans(s[1..]);
      i := k + 1;
      assert s[1..][k..] == s[i..];
      assert forall m :: 0 < m < i ==> s[m] == s[1..][..k][m - 1];
    } else {
      i := 0;
    }
  }

  lemma {:induction false} RightMeans(s: seq<Byte>) returns (j: nat)
    ensures j <= |s| && TrimRight(s) == s[..j] && AllSpaces(s[j..]) && (j > 0 ==> s[j - 1] != 32)
  {
    if s != [] && s[|s| - 1] == 32 {
      j := RightMeans(s[..|s| - 1]);
      assert s[..|s| - 1][..j] == s[..j];
      assert forall m :: 0 <= m < |s| - 1 - j ==> s[j..][m] == s[..|s| - 1][j..][m];
    } else {
      j := |s|;
    }
  }

  function ClampTo(i: int, len: nat): nat {
    if i <= 0 then 0 else if i < len then i else len
  }

  /** The value of a range of the text without the spaces around it, or zero. */
  method ParseI32Range(text: seq<Byte>, start: int, end: int, beyond: Byte) returns (v: int)
    ensures var lo := if start <= 0 then 0 else if start < |text| then start else |text|;
            var hi := if end <= 0 then 0 else if end < |text| then end else |text|;
            v == if lo > hi then 0
                 else var r := Parsed(TrimRight(TrimLeft(text[lo..hi]))); if r.Some? then r.value else 0
  {
    var lo, hi := ClampTo(start, |text|), ClampTo(end, |text|);
    var index, len := TrimSpaces(text, lo, hi);
    var r := ParseValidated(text, index, len, beyond);
    v := OrZero(r);
  }

  /** The two loops move the ends of a range inwards past spaces. */
  method TrimSpaces(text: seq<Byte>, lo: nat, hi: nat) returns (index: nat, len: nat)
    requires lo <= |text| && hi <= |text|
    ensures lo <= hi ==> index <= len <= |text| && text[index..len] == TrimRight(TrimLeft(text[lo..hi]))
    ensures lo > hi ==> index == lo && len == hi
  {
    index := SkipLeft(text, lo, hi);
    len := SkipRight(text, index, hi);
  }

  method SkipLeft(text: seq<Byte>, lo: nat, hi: nat) returns (index: nat)
    requires lo <= |text| && hi <= |text|
    ensures lo <= hi ==> lo <= index <= hi && text[index..hi] == TrimLeft(text[lo..hi])
    ensures lo > hi ==> index == lo
  {
    index := lo;
    while index < hi && text[index] == SPACE
      invariant lo <= index && (lo > hi ==> index == lo)
      invariant lo <= hi ==> index <= hi && TrimLeft(text[lo..hi]) == TrimLeft(text[index..hi])
    {
      assert text[index..hi][1..] == text[index + 1..hi];
      index := index + 1;
    }
  }

  method SkipRight(text: seq<Byte>, index: nat, hi: nat) returns (len: nat)
    requires index <= |text| && hi <= |text|
    ensures index <= hi ==> index <= len <= hi && text[index..len] == TrimRight(text[index..hi])
    ensures index > hi ==> len == hi
  {
    len := hi;
    while len > index && text[len - 1] == SPACE
      invariant len <= hi && (index > hi ==> len == hi)
      invariant index <= hi ==> index <= len && TrimRight(text[index..hi]) == TrimRight(text[index..len])
    {
      assert text[index..len][..len - index - 1] == text[index..len - 1];
      len := len - 1;
    }
  }
}
