/** Rounding half to even, as the quantisation of returns and rates uses it. */
module Rounding {

  /** The metrics of the service are whole multiples of 1e-8. */
  const UNITS: real := 100000000.0

  function Nearest(x: real): (n: int)
    ensures -0.5 <= x - n as real <= 0.5
    ensures x - n as real == 0.5 || x - n as real == -0.5 ==> n % 2 == 0
  {
    var low := x.Floor;
    var rest := x - low as real;
    if rest < 0.5 then low
    else if 0.5 < rest then low + 1
    else if low % 2 == 0 then low
    else low + 1
  }

  /** A metric, counted in units of 1e-8. */
  function Quantized(x: real): int {
    Nearest(x * UNITS)
  }

  /** The inputs that round to `n` or more: a tie goes up to `n` exactly when `n` is even. */
  predicate Reaches(x: real, n: int) {
    if n % 2 == 0 then n as real - 0.5 <= x else n as real - 0.5 < x
  }

  lemma NearestReaches(x: real, n: int)
    ensures n <= Nearest(x) <==> Reaches(x, n)
  {
    var m := Nearest(x);
    if n <= m {
      assert n == m || n + 1 <= m;
    } else {
      assert m + 1 == n || m + 2 <= n;
    }
  }

  /** The two properties of `Nearest` determine it. */
  lemma NearestIsUnique(x: real, n: int)
    requires -0.5 <= x - n as real <= 0.5
    requires x - n as real == 0.5 || x - n as real == -0.5 ==> n % 2 == 0
    ensures Nearest(x) == n
  {
    NearestReaches(x, n);
    NearestReaches(x, n + 1);
  }

  lemma NearestIsMonotone(x: real, y: real)
    requires x <= y
    ensures Nearest(x) <= Nearest(y)
  {
    NearestReaches(x, Nearest(x));
    NearestReaches(y, Nearest(x));
  }

  lemma NearestIsOdd(x: real)
    ensures Nearest(-x) == -Nearest(x)
  {
    NearestIsUnique(-x, -Nearest(x));
  }

  lemma NearestOfWhole(n: int)
    ensures Nearest(n as real) == n
  {
    NearestIsUnique(n as real, n);
  }
}
