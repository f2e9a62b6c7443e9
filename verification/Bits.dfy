/** Bitwise operations on natural numbers, bit by bit from the low end. */
module Bits {
  function BitAnd(a: nat, b: nat): nat {
    if a == 0 || b == 0 then 0 else 2 * BitAnd(a / 2, b / 2) + (if a % 2 == 1 && b % 2 == 1 then 1 else 0)
  }

  function BitOr(a: nat, b: nat): nat {
    if a == 0 then b else if b == 0 then a
    else 2 * BitOr(a / 2, b / 2) + (if a % 2 == 1 || b % 2 == 1 then 1 else 0)
  }

  function BitXor(a: nat, b: nat): nat {
    if a == 0 then b else if b == 0 then a
    else 2 * BitXor(a / 2, b / 2) + (if (a % 2 == 1) != (b % 2 == 1) then 1 else 0)
  }

  function Pow2(k: nat): (r: nat)
    ensures r > 0
  {
    if k == 0 then 1 else 2 * Pow2(k - 1)
  }

  lemma {:induction false} Pow2Monotone(j: nat, k: nat)
    requires j <= k
    ensures Pow2(j) <= Pow2(k)
  {
    if j < k { Pow2Monotone(j, k - 1); }
  }

  lemma {:induction false} Pow2Add(j: nat, k: nat)
    ensures Pow2(j + k) == Pow2(j) * Pow2(k)
  {
    if j > 0 {
      Pow2Add(j - 1, k);
      assert Pow2(j) * Pow2(k) == 2 * (Pow2(j - 1) * Pow2(k));
    }
  }

  lemma Pow2Small()
    ensures Pow2(0) == 1 && Pow2(2) == 4 && Pow2(3) == 8 && Pow2(4) == 16 && Pow2(5) == 32 && Pow2(6) == 64
    ensures Pow2(8) == 256
  {
    var p3 := Pow2(3);
    Pow2Add(3, 3);
    Pow2Add(3, 5);
  }

  lemma Pow2Words()
    ensures Pow2(4) == 16 && Pow2(32) == 0x1_0000_0000 && Pow2(64) == 0x1_0000_0000_0000_0000
  {
    Pow2Small();
    Pow2Add(8, 8);
    Pow2Add(16, 16);
    Pow2Add(32, 32);
  }

  /** Masking with the low `k` ones. */
  lemma LowBits(x: nat, k: nat)
    ensures BitAnd(x, Pow2(k) - 1) == x % Pow2(k)
  {
    MaskRun(x, 0, k);
  }

  lemma HalfMod(x: nat, m: nat)
    requires m > 0
    ensures x % (2 * m) == 2 * (x / 2 % m) + x % 2
  {
    var q, r := x / 2 / m, x / 2 % m;
    assert x / 2 == q * m + r;
    assert x == 2 * (q * m) + 2 * r + x % 2;
    assert x == q * (2 * m) + (2 * r + x % 2);
    RemainderUnique(x, 2 * m, q, 2 * r + x % 2);
  }

  lemma RemainderUnique(x: nat, m: nat, q: nat, r: nat)
    requires m > 0 && r < m && x == q * m + r
    ensures x % m == r
  {
    var d := x / m - q;
    assert x == x / m * m + x % m;
    assert d * m == r - x % m;
    assert d > 0 ==> d * m >= m;
    assert d < 0 ==> d * m <= -(m as int);
  }

  /** The low `w` bits of a number. */
  function Low(x: nat, w: nat): nat {
    if w == 0 then 0 else 2 * Low(x / 2, w - 1) + x % 2
  }

  lemma {:induction false} LowIsRemainder(x: nat, w: nat)
    ensures Low(x, w) == x % Pow2(w)
    decreases w
  {
    if w > 0 {
      LowIsRemainder(x / 2, w - 1);
      HalfMod(x, Pow2(w - 1));
    }
  }

  lemma {:induction false} MaskLow(x: nat, k: nat, w: nat)
    requires k <= w
    ensures Pow2(k) <= Pow2(w) && BitAnd(x, Pow2(w) - Pow2(k)) == Low(x, w) - Low(x, k)
    decreases w
  {
    Pow2Monotone(k, w);
    if w > 0 {
      var mask := Pow2(w) - Pow2(k);
      if k > 0 {
        MaskLow(x / 2, k - 1, w - 1);
        assert mask / 2 == Pow2(w - 1) - Pow2(k - 1) && mask % 2 == 0;
      } else {
        MaskLow(x / 2, 0, w - 1);
        assert mask / 2 == Pow2(w - 1) - 1 && mask % 2 == 1;
      }
      LowOfZero(w);
      LowOfZero(k);
    }
  }

  lemma {:induction false} LowOfZero(w: nat)
    ensures Low(0, w) == 0
  {
    if w > 0 { LowOfZero(w - 1); }
  }

  /** Masking with a run of ones from bit `k` up to bit `w` keeps the low `w` bits and clears the
      low `k` bits. */
  lemma MaskRun(x: nat, k: nat, w: nat)
    requires k <= w
    ensures Pow2(k) <= Pow2(w) && BitAnd(x, Pow2(w) - Pow2(k)) == x % Pow2(w) - x % Pow2(k)
  {
    MaskLow(x, k, w);
    LowIsRemainder(x, w);
    LowIsRemainder(x, k);
  }

  /** Or-ing numbers without a common bit adds them. */
  lemma {:induction false} OrDisjoint(a: nat, x: nat, k: nat)
    requires x < Pow2(k)
    ensures BitOr(a * Pow2(k), x) == a * Pow2(k) + x
    decreases k
  {
    if k > 0 && a > 0 && x > 0 {
      var h := a * Pow2(k - 1);
      assert a * Pow2(k) == 2 * h;
      OrDisjoint(a, x / 2, k - 1);
      assert BitOr(2 * h, x) == 2 * BitOr(h, x / 2) + x % 2 by {
        assert 2 * h / 2 == h && 2 * h % 2 == 0 && h > 0;
      }
    }
  }

  lemma {:induction false} OrCommutes(a: nat, b: nat)
    ensures BitOr(a, b) == BitOr(b, a)
  {
    if a != 0 && b != 0 { OrCommutes(a / 2, b / 2); }
  }

  /** The top bit alone. */
  lemma TopBit(x: nat, k: nat)
    requires x < Pow2(k + 1)
    ensures BitAnd(x, Pow2(k)) == if x < Pow2(k) then 0 else Pow2(k)
  {
    var p := Pow2(k);
    assert Pow2(k + 1) - p == p;
    MaskRun(x, k, k + 1);
    RemainderUnique(x, 2 * p, 0, x);
    RemainderUnique(x, p, if x < p then 0 else 1, if x < p then x else x - p);
  }

  /** Setting the top bit, and reading what is below it. */
  lemma WithTopBit(x: nat, k: nat)
    requires x < Pow2(k)
    ensures BitOr(x, Pow2(k)) == x + Pow2(k) && BitAnd(x + Pow2(k), Pow2(k) - 1) == x
  {
    OrCommutes(x, Pow2(k));
    OrDisjoint(1, x, k);
    LowBits(x + Pow2(k), k);
    RemainderUnique(x + Pow2(k), Pow2(k), 1, x);
  }

  /** Masking off the low `k` bits of a number of `w` bits. */
  lemma LowCleared(x: nat, k: nat, w: nat)
    requires k <= w && x < Pow2(w)
    ensures Pow2(k) <= Pow2(w) && BitAnd(x, Pow2(w) - Pow2(k)) == x / Pow2(k) * Pow2(k)
  {
    MaskRun(x, k, w);
    RemainderUnique(x, Pow2(w), 0, x);
    DivMod(x, Pow2(k));
  }

  lemma DivMod(x: nat, m: nat)
    requires m > 0
    ensures x == x / m * m + x % m
  {
  }
}
