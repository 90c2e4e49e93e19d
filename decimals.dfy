/** Exact decimal numbers: the model's stand-in for the value of a Python float. */
module Decimals {
  import opened Numerals

  /** The exact number units / 10^scale. */
  datatype Decimal = Decimal(units: int, scale: nat)

  /** Two decimals denote the same number. */
  predicate SameValue(a: Decimal, b: Decimal) {
    a.units * Pow10(b.scale) == b.units * Pow10(a.scale)
  }

  /** The shortest representation: no trailing zero digit in the fraction. */
  predicate Normal(d: Decimal) {
    d.scale == 0 || d.units % 10 != 0
  }

  /** Drops trailing zeros of the fraction, so that 1.50 and 1.5 are one value. */
  function Normalize(d: Decimal): (r: Decimal)
    ensures Normal(r) && SameValue(r, d)
    decreases d.scale
  {
    if d.scale > 0 && d.units % 10 == 0 then
      var r := Normalize(Decimal(d.units / 10, d.scale - 1));
      ShiftSameValue(r, d);
      r
    else d
  }

  lemma ShiftSameValue(r: Decimal, d: Decimal)
    requires d.scale > 0 && d.units % 10 == 0
    requires SameValue(r, Decimal(d.units / 10, d.scale - 1))
    ensures SameValue(r, d)
  {
    var p := Pow10(d.scale - 1);
    assert d.units == d.units / 10 * 10;
    assert Pow10(d.scale) == 10 * p;
    assert r.units * p == d.units / 10 * Pow10(r.scale);
    assert r.units * (10 * p) == 10 * (r.units * p);
    assert d.units * Pow10(r.scale) == 10 * (d.units / 10 * Pow10(r.scale));
  }

  /** Floor division of a natural number, with the bounds that define it. */
  function Quotient(u: nat, p: nat): (q: nat)
    requires p >= 1
    ensures q * p <= u < q * p + p
  {
    var q, r := u / p, u % p;
    assert u == q * p + r;
    q
  }

  lemma SuccTimes(q: int, p: int)
    ensures (q + 1) * p == q * p + p
  {
  }

  lemma NegatedBounds(u: int, p: int, q: int)
    requires p >= 1 && q * p <= -u < q * p + p
    ensures (-q - 1) * p < u <= -q * p
  {
    assert (-q - 1) * p == -(q * p) - p;
    assert -q * p == -(q * p);
  }

  /** Python's `int(x)` on a float: truncation toward zero. */
  function Trunc(d: Decimal): (n: int)
    ensures 0 <= d.units ==> 0 <= n && n * Pow10(d.scale) <= d.units < (n + 1) * Pow10(d.scale)
    ensures d.units < 0 ==> n <= 0 && (n - 1) * Pow10(d.scale) < d.units <= n * Pow10(d.scale)
  {
    var p := Pow10(d.scale);
    if d.units >= 0 then
      var q := Quotient(d.units, p);
      SuccTimes(q, p);
      q
    else
      var q: int := Quotient(-d.units, p);
      NegatedBounds(d.units, p, q);
      -q
  }

  /** A whole number truncates to itself. */
  lemma TruncWhole(n: int)
    ensures Trunc(Decimal(n, 0)) == n
  {
    assert Pow10(0) == 1;
  }
}
