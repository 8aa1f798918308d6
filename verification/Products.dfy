/** Products of whole numbers, stated so that the solver need not multiply. */
module Products {

  lemma Distribute(p: int, q: int, unit: int)
    ensures (p + q) * unit == p * unit + q * unit && (p - q) * unit == p * unit - q * unit
    ensures unit * (p + q) == unit * p + unit * q
  {
  }

  lemma Monotone(a: int, b: int, unit: nat)
    requires a <= b
    ensures a * unit <= b * unit
  {
    assert b * unit == a * unit + (b - a) * unit;
  }

  /** What a division leaves. */
  lemma Floor(x: nat, unit: nat)
    requires unit > 0
    ensures x / unit * unit <= x < x / unit * unit + unit
  {
    assert x == x / unit * unit + x % unit;
  }

  /** Quotient and remainder are unique. */
  lemma Quotient(x: nat, q: nat, r: nat, unit: nat)
    requires x == q * unit + r && r < unit
    ensures x / unit == q && x % unit == r
  {
    var d := x / unit - q;
    assert d * unit == r - x % unit;
    assert d >= 1 ==> d * unit >= unit;
    assert d <= -1 ==> -d * unit >= unit;
  }
}
