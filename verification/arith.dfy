/** The two ways the C source turns a quotient into an `int`: a `double`
    assigned to an `int` (truncation toward zero) and, as an independent
    reference, C99 integer division, which also truncates toward zero. */
module Arith {

  function Abs(n: int): nat
  {
    if n < 0 then -n else n
  }

  /** Conversion of a real to an integer by discarding the fractional part,
      as a C assignment of a `double` to an `int` does. */
  function Trunc(x: real): (r: int)
    ensures 0.0 <= x ==> r as real <= x < r as real + 1.0
    ensures x < 0.0 ==> r as real - 1.0 < x <= r as real
  {
    if x >= 0.0 then x.Floor else -((-x).Floor)
  }

  /** The remainder property of a truncating quotient `q` of `n` by `d`:
      smaller than the divisor in magnitude, zero or of the dividend's sign. */
  predicate TruncatingQuotient(n: int, d: int, q: int)
  {
    Abs(n - q * d) < Abs(d) && (n - q * d == 0 || ((n - q * d > 0) <==> (n > 0)))
  }

  lemma QuotientBothNonNeg(n: int, d: int)
    requires 0 <= n && 0 < d
    ensures TruncatingQuotient(n, d, n / d)
  {
  }

  lemma QuotientNegDividend(n: int, d: int)
    requires n < 0 < d
    ensures TruncatingQuotient(n, d, -((-n) / d))
  {
    var q0, m := (-n) / d, (-n) % d;
    assert -n == q0 * d + m;
    assert -q0 * d == -(q0 * d);
  }

  lemma QuotientNegDivisor(n: int, d: int)
    requires d < 0 <= n
    ensures TruncatingQuotient(n, d, -(n / (-d)))
  {
    var q0, m := n / (-d), n % (-d);
    assert n == q0 * (-d) + m;
    assert -q0 * d == q0 * (-d);
  }

  lemma QuotientBothNeg(n: int, d: int)
    requires n < 0 && d < 0
    ensures TruncatingQuotient(n, d, (-n) / (-d))
  {
    var q0, m := (-n) / (-d), (-n) % (-d);
    assert -n == q0 * (-d) + m;
    assert q0 * d == -(q0 * (-d));
  }

  /** C99 integer division: the quotient is truncated toward zero, so the
      remainder `n - q * d` is smaller than the divisor in magnitude and is
      zero or has the sign of the dividend. */
  function CDiv(n: int, d: int): (q: int)
    requires d != 0
    ensures TruncatingQuotient(n, d, q)
  {
    if d > 0 then
      if n >= 0 then QuotientBothNonNeg(n, d); n / d
      else QuotientNegDividend(n, d); -((-n) / d)
    else
      if n >= 0 then QuotientNegDivisor(n, d); -(n / (-d))
      else QuotientBothNeg(n, d); (-n) / (-d)
  }

  /** Two integers that both truncate the same real are equal. */
  lemma TruncUnique(x: real, q: int)
    requires 0.0 <= x ==> q as real <= x < q as real + 1.0
    requires x < 0.0 ==> q as real - 1.0 < x <= q as real
    ensures Trunc(x) == q
  {
  }

  /** Dividing `q * d + r` by `d` splits into the integer part `q` and the fraction `r / d`. */
  lemma DivSplit(q: int, d: int, r: int)
    requires d != 0
    ensures ((q * d + r) as real) / (d as real) == q as real + (r as real) / (d as real)
  {
    assert (q * d + r) as real == (q as real) * (d as real) + r as real;
  }

  /** A remainder smaller than the divisor in magnitude gives a fraction in (-1, 1),
      with the sign of the remainder over the divisor. */
  lemma FracBound(r: int, d: int)
    requires d != 0 && Abs(r) < Abs(d)
    ensures (r >= 0) == (d > 0) || r == 0 ==> 0.0 <= (r as real) / (d as real) < 1.0
    ensures (r >= 0) != (d > 0) ==> -1.0 < (r as real) / (d as real) <= 0.0
  {
    if d < 0 {
      assert (r as real) / (d as real) == ((-r) as real) / ((-d) as real);
    }
  }

  /** Truncating the exact rational quotient gives the C integer quotient. */
  lemma TruncQuotient(n: int, d: int)
    requires d != 0
    ensures Trunc(n as real / d as real) == CDiv(n, d)
  {
    var q := CDiv(n, d);
    var r := n - q * d;
    DivSplit(q, d, r);
    FracBound(r, d);
    TruncUnique(n as real / d as real, q);
  }

  /** A non-zero multiple of `d` is at least `d` in magnitude. */
  lemma MultipleAtLeast(k: int, d: int)
    requires k != 0
    ensures Abs(k * d) >= Abs(d)
  {
    var m, e := Abs(k), Abs(d);
    assert Abs(k * d) == m * e by {
      if k < 0 && d < 0 { assert k * d == (-k) * (-d); }
      else if k < 0 { assert -(k * d) == (-k) * d; }
      else if d < 0 { assert -(k * d) == k * (-d); }
    }
    assert m * e == (m - 1) * e + e;
  }

  /** The only multiple of `d` smaller than `d` in magnitude is zero. */
  lemma SmallMultiple(k: int, d: int)
    requires Abs(k * d) < Abs(d)
    ensures k == 0
  {
    if k != 0 {
      MultipleAtLeast(k, d);
    }
  }

  /** An exact multiple divides back to its factor. */
  lemma CDivExact(a: int, d: int)
    requires d != 0
    ensures CDiv(a * d, d) == a
  {
    var q := CDiv(a * d, d);
    assert a * d - q * d == (a - q) * d;
    SmallMultiple(a - q, d);
  }
}
