/**
 * PHP's round() on exact rationals.
 *
 * The calculators divide whole minutes by a granularity and round the result,
 * then round again to a number of decimal places. PHP does this on doubles;
 * here every intermediate value is the exact rational it stands for, and a
 * rounded result is a fixed-point number `units * 10^-places`.
 */
module Rounding {

  function Abs(x: int): (r: int)
    ensures r >= 0
  {
    if x < 0 then -x else x
  }

  function Pow10(n: nat): (p: nat)
    ensures p >= 1
  {
    if n == 0 then 1 else 10 * Pow10(n - 1)
  }

  /** a <= b and c >= 0 give a * c <= b * c. */
  lemma MulMonotone(a: int, b: int, c: int)
    requires a <= b && c >= 0
    ensures a * c <= b * c
  {
    assert b * c - a * c == (b - a) * c;
  }

  /** A multiple of d that lies above -|d| / 2 is not negative. */
  lemma MultipleAboveHalfIsNonNegative(p: int, d: int)
    requires d != 0 && 2 * (p * d) > -Abs(d)
    ensures p * d >= 0
  {
    if d > 0 && p < 0 {
      MulMonotone(p, -1, d);
    } else if d < 0 && p > 0 {
      MulMonotone(1, p, -d);
    } else if d > 0 {
      MulMonotone(0, p, d);
    } else {
      MulMonotone(0, -p, -d);
    }
  }

  /** Euclidean division is the unique quotient with a remainder in [0, b). */
  lemma DivUnique(a: int, b: int, q: int)
    requires b > 0
    requires q * b <= a < q * b + b
    ensures a / b == q
  {
    var q' := a / b;
    assert q' * b <= a < q' * b + b;
    if q' < q {
      MulMonotone(q' + 1, q, b);
    } else if q' > q {
      MulMonotone(q + 1, q', b);
    }
  }

  /**
   * The integer nearest to a / b for b > 0, with a half rounded away from
   * zero: upward when a is positive, downward when it is negative.
   */
  function RoundPositive(a: int, b: int): (q: int)
    requires b > 0
    ensures -b <= 2 * (a - q * b) <= b
    ensures 2 * (a - q * b) == b ==> a < 0
    ensures 2 * (a - q * b) == -b ==> a > 0
  {
    if a >= 0 then
      var q := (2 * a + b) / (2 * b);
      assert 2 * a + b == q * (2 * b) + (2 * a + b) % (2 * b);
      assert q * (2 * b) == 2 * (q * b);
      assert a == 0 ==> q == 0 by {
        if a == 0 { DivUnique(b, 2 * b, 0); }
      }
      q
    else
      var q := (b - 2 * a) / (2 * b);
      assert b - 2 * a == q * (2 * b) + (b - 2 * a) % (2 * b);
      assert q * (2 * b) == 2 * (q * b);
      -q
  }

  /**
   * PHP round(n / d): the integer nearest to the rational n / d, with a
   * half rounded away from zero.
   */
  function RoundDiv(n: int, d: int): (q: int)
    requires d != 0
    ensures -Abs(d) <= 2 * (n - q * d) <= Abs(d)
    ensures 2 * (n - q * d) == Abs(d) ==> n < 0
    ensures 2 * (n - q * d) == -Abs(d) ==> n > 0
  {
    if d > 0 then RoundPositive(n, d)
    else
      var q := RoundPositive(-n, -d);
      assert -n - q * -d == -(n - q * d);
      q
  }

  /** A rounded decimal: the exact value is units / 10^places. */
  datatype Fixed = Fixed(units: int, places: nat)

  /**
   * PHP round(n / d, places): the multiple of 10^-places nearest to n / d,
   * with a half rounded away from zero.
   */
  function Round(n: int, d: int, places: nat): (r: Fixed)
    requires d != 0
    ensures r.places == places
    ensures -Abs(d) <= 2 * (n * Pow10(places) - r.units * d) <= Abs(d)
    ensures 2 * (n * Pow10(places) - r.units * d) == Abs(d) ==> n < 0
    ensures 2 * (n * Pow10(places) - r.units * d) == -Abs(d) ==> n > 0
  {
    assert n >= 0 ==> n * Pow10(places) >= 0 by {
      if n >= 0 { MulMonotone(0, n, Pow10(places)); }
    }
    assert n <= 0 ==> n * Pow10(places) <= 0 by {
      if n <= 0 { MulMonotone(n, 0, Pow10(places)); }
    }
    Fixed(RoundDiv(n * Pow10(places), d), places)
  }

  /** The value of x expressed in units of 10^-p, for p at least x's own places. */
  function ScaledTo(x: Fixed, p: nat): int
    requires p >= x.places
  {
    x.units * Pow10(p - x.places)
  }

  /** Exact subtraction of two decimals, at the finer of their two precisions. */
  function Minus(x: Fixed, y: Fixed): (r: Fixed)
    ensures r.places >= x.places && r.places >= y.places
    ensures r.places == x.places || r.places == y.places
    ensures r.units == ScaledTo(x, r.places) - ScaledTo(y, r.places)
  {
    var p := if x.places >= y.places then x.places else y.places;
    Fixed(ScaledTo(x, p) - ScaledTo(y, p), p)
  }

  /** RoundDiv of an exact multiple is the exact quotient. */
  lemma {:induction false} RoundDivExact(k: int, d: int)
    requires d > 0
    ensures RoundDiv(k * d, d) == k
  {
    var q := RoundDiv(k * d, d);
    assert -d <= 2 * (k * d - q * d) <= d;
    assert k * d - q * d == (k - q) * d;
    if q < k {
      MulMonotone(1, k - q, d);
    } else if q > k {
      MulMonotone(1, q - k, d);
    }
  }

  /** round() never decreases when its argument grows. */
  lemma RoundDivMonotone(n1: int, n2: int, d: int)
    requires d > 0 && n1 <= n2
    ensures RoundDiv(n1, d) <= RoundDiv(n2, d)
  {
    var q1 := RoundDiv(n1, d);
    var q2 := RoundDiv(n2, d);
    if n1 < n2 && q1 > q2 {
      MulMonotone(q2 + 1, q1, d);
    }
  }

  /** round(-x) == -round(x): rounding away from zero is symmetric. */
  lemma RoundDivOdd(n: int, d: int)
    requires d > 0
    ensures RoundDiv(-n, d) == -RoundDiv(n, d)
  {
  }
}
