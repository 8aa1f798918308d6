/** Bitwise and of whole numbers, and what it says of single bits. */
module Bits {
  import opened Products

  function BitAnd(x: nat, y: nat): (r: nat)
    ensures r <= x && r <= y
  {
    if x == 0 || y == 0 then 0 else 2 * BitAnd(x / 2, y / 2) + (if x % 2 == 1 && y % 2 == 1 then 1 else 0)
  }

  function Pow2(n: nat): (p: nat)
    ensures p > 0
  {
    if n == 0 then 1 else 2 * Pow2(n - 1)
  }

  /** 2^n - 1, the word of n ones. */
  function Ones(n: nat): nat {
    if n == 0 then 0 else 2 * Ones(n - 1) + 1
  }

  /** Bit `k`, counted from the lowest. */
  function Bit(x: nat, k: nat): bool {
    if k == 0 then x % 2 == 1 else Bit(x / 2, k - 1)
  }

  lemma {:induction false} BitIs(x: nat, k: nat)
    ensures Bit(x, k) <==> x / Pow2(k) % 2 == 1
  {
    if k > 0 {
      BitIs(x / 2, k - 1);
      HalfThen(x, Pow2(k - 1));
    }
  }

  /** Halving first and dividing then. */
  lemma HalfThen(x: nat, unit: nat)
    requires unit > 0
    ensures x / (2 * unit) == x / 2 / unit
  {
    var q, r := x / 2 / unit, x / 2 % unit;
    assert x / 2 == q * unit + r;
    Distribute(q, q, unit);
    assert q * (2 * unit) == 2 * (q * unit);
    Quotient(x, q, 2 * r + x % 2, 2 * unit);
  }

  /** A bit is set in the and exactly when it is set in both. */
  lemma {:induction false} AndBits(x: nat, y: nat, k: nat)
    ensures Bit(BitAnd(x, y), k) <==> Bit(x, k) && Bit(y, k)
    decreases k
  {
    AndHalf(x, y);
    if k > 0 {
      AndBits(x / 2, y / 2, k - 1);
    }
  }

  lemma AndHalf(x: nat, y: nat)
    ensures BitAnd(x, y) / 2 == BitAnd(x / 2, y / 2)
    ensures BitAnd(x, y) % 2 == 1 <==> x % 2 == 1 && y % 2 == 1
    ensures BitAnd(x, y) == 0 <==> BitAnd(x / 2, y / 2) == 0 && !(x % 2 == 1 && y % 2 == 1)
  {
  }

  lemma {:induction false} AndOnes(x: nat, n: nat)
    requires x <= Ones(n)
    ensures BitAnd(x, Ones(n)) == x
    decreases n
  {
    if x > 0 {
      AndOnes(x / 2, n - 1);
    }
  }

  lemma AndEven(x: nat, y: nat)
    ensures BitAnd(x, 2 * y) == 2 * BitAnd(x / 2, y)
  {
    assert 2 * y / 2 == y && 2 * y % 2 == 0;
    if x > 0 && y > 0 {
      assert BitAnd(x, 2 * y) == 2 * BitAnd(x / 2, 2 * y / 2);
    }
  }

  lemma AndOdd(x: nat, y: nat)
    ensures BitAnd(x, 2 * y + 1) == 2 * BitAnd(x / 2, y) + x % 2
  {
    AndHalf(x, 2 * y + 1);
  }

  // ── Masks with a run of zeros or ones at the end ──

  function Halved(x: nat, n: nat): nat {
    if n == 0 then x else Halved(x / 2, n - 1)
  }

  function Doubled(x: nat, n: nat): nat {
    if n == 0 then x else 2 * Doubled(x, n - 1)
  }

  lemma {:induction false} AndShift(x: nat, y: nat, n: nat)
    ensures BitAnd(x, Doubled(y, n)) == Doubled(BitAnd(Halved(x, n), y), n)
    decreases n
  {
    if n > 0 {
      AndShift(x / 2, y, n - 1);
      AndEven(x, Doubled(y, n - 1));
    }
  }

  lemma {:induction false} HalvedIs(x: nat, n: nat)
    ensures Halved(x, n) == x / Pow2(n)
    decreases n
  {
    if n > 0 {
      HalvedIs(x / 2, n - 1);
      HalfThen(x, Pow2(n - 1));
    }
  }

  lemma {:induction false} DoubledIs(x: nat, n: nat)
    ensures Doubled(x, n) == x * Pow2(n)
    decreases n
  {
    if n > 0 {
      DoubledIs(x, n - 1);
      assert x * Pow2(n) == 2 * (x * Pow2(n - 1));
    }
  }

  lemma {:induction false} HalvedTwice(x: nat, m: nat, n: nat)
    ensures Halved(Halved(x, m), n) == Halved(x, m + n)
    decreases m
  {
    if m > 0 {
      HalvedTwice(x / 2, m - 1, n);
    }
  }

  lemma {:induction false} BitHalved(x: nat, k: nat)
    ensures Bit(x, k) <==> Halved(x, k) % 2 == 1
    decreases k
  {
    if k > 0 {
      BitHalved(x / 2, k - 1);
    }
  }

  /** The low `n` bits. */
  function Low(x: nat, n: nat): nat {
    if n == 0 then 0 else 2 * Low(x / 2, n - 1) + x % 2
  }

  /** `y` with `n` ones behind it. */
  function OnesBehind(y: nat, n: nat): nat {
    if n == 0 then y else 2 * OnesBehind(y, n - 1) + 1
  }

  lemma {:induction false} AndLow(x: nat, y: nat, n: nat)
    ensures BitAnd(x, OnesBehind(y, n)) == Doubled(BitAnd(Halved(x, n), y), n) + Low(x, n)
    decreases n
  {
    if n > 0 {
      AndLow(x / 2, y, n - 1);
      AndOdd(x, OnesBehind(y, n - 1));
    }
  }

  lemma {:induction false} LowIs(x: nat, n: nat)
    ensures Low(x, n) == x % Pow2(n)
    decreases n
  {
    if n > 0 {
      LowIs(x / 2, n - 1);
      LowHalf(x, Pow2(n - 1));
    }
  }

  lemma LowHalf(x: nat, unit: nat)
    requires unit > 0
    ensures x % (2 * unit) == 2 * (x / 2 % unit) + x % 2
  {
    var q, r := x / 2 / unit, x / 2 % unit;
    assert x / 2 == q * unit + r;
    assert q * (2 * unit) == 2 * (q * unit);
    Quotient(x, q, 2 * r + x % 2, 2 * unit);
  }

  // ── Masks that must find nothing, one bit after the other ──

  lemma ZeroStep(x: nat, k: nat, y: nat)
    ensures BitAnd(Halved(x, k), 2 * y + 1) == 0 <==> !Bit(x, k) && BitAnd(Halved(x, k + 1), y) == 0
  {
    HalvedTwice(x, k, 1);
    BitHalved(x, k);
    AndHalf(Halved(x, k), 2 * y + 1);
    hide BitAnd, Bit;
    assert Halved(Halved(x, k), 1) == Halved(x, k) / 2;
  }

  lemma {:induction false} ZeroSkip(x: nat, k: nat, y: nat, n: nat)
    ensures BitAnd(Halved(x, k), Doubled(y, n)) == 0 <==> BitAnd(Halved(x, k + n), y) == 0
  {
    HalvedTwice(x, k, n);
    AndShift(Halved(x, k), y, n);
    DoubledZero(BitAnd(Halved(x, k + n), y), n);
    hide BitAnd;
  }

  lemma {:induction false} DoubledZero(x: nat, n: nat)
    ensures Doubled(x, n) == 0 <==> x == 0
    decreases n
  {
    if n > 0 {
      DoubledZero(x, n - 1);
    }
  }
}
