/** Go's math.Round (half away from zero), on exact numbers. */
module Rounding {
  /** math.Round of the exact quotient n / d. */
  function RoundQuotient(n: int, d: int): int
    requires d > 0
  {
    if n >= 0 then (2 * n + d) / (2 * d) else -((-2 * n + d) / (2 * d))
  }

  lemma QuotientBounds(n: int, d: int)
    requires d > 0
    ensures n / d * d <= n < n / d * d + d
  {
  }

  /** The nearest whole number: at most half a unit away. */
  lemma RoundQuotientIsNear(n: int, d: int)
    requires d > 0
    ensures -d <= 2 * (RoundQuotient(n, d) * d - n) <= d
  {
    var m := if n >= 0 then 2 * n + d else -2 * n + d;
    var q := m / (2 * d);
    QuotientBounds(m, 2 * d);
    assert q * (2 * d) == 2 * (q * d);
    assert (-q) * d == -(q * d);
  }

  lemma RoundQuotientIsMonotone(a: int, b: int, d: int)
    requires d > 0 && a <= b
    ensures RoundQuotient(a, d) <= RoundQuotient(b, d)
  {
    if a >= 0 {
      DivisionIsMonotone(2 * a + d, 2 * b + d, 2 * d);
    } else if b < 0 {
      DivisionIsMonotone(-2 * b + d, -2 * a + d, 2 * d);
    } else {
      DivisionIsMonotone(0, -2 * a + d, 2 * d);
      DivisionIsMonotone(0, 2 * b + d, 2 * d);
    }
  }

  lemma DivisionIsMonotone(a: int, b: int, d: int)
    requires d > 0 && a <= b
    ensures a / d <= b / d
  {
    QuotientBounds(a, d);
    QuotientBounds(b, d);
    assert (a / d - b / d) * d < d;
    Cancel(a / d - b / d, d);
  }

  lemma Cancel(k: int, d: int)
    requires d > 0 && k * d < d
    ensures k <= 0
  {
    assert (k - 1) * d < 0;
  }

  /** math.Round. */
  function Round(x: real): int {
    if x >= 0.0 then (x + 0.5).Floor else -((0.5 - x).Floor)
  }

  lemma RoundIsNear(x: real)
    ensures x - 0.5 <= Round(x) as real <= x + 0.5
  {
  }

  lemma RoundOfWhole(n: int)
    ensures Round(n as real) == n
  {
  }

  lemma RoundIsMonotone(x: real, y: real)
    requires x <= y
    ensures Round(x) <= Round(y)
  {
  }
}
