/** `Math.round` on exact ratios, with the small arithmetic facts the
    percentage formulas need. Division of integers is exact here. For a
    single integer division, such as the leaderboard average
    (`Leaderboard.AverageIsRound`), this equals `Math.round` of the
    floating-point quotient. The percentages `Math.round((score / total) *
    100)` round a product of two floating-point operations instead, and
    differ from the exact rounding on the ratios listed in the README. */
module JsMath {

  /** `Math.round(x)`: the integer nearest to `x`, halves rounded up. */
  function Round(x: real): int {
    (x + 0.5).Floor
  }

  /** Euclidean division brackets its dividend. */
  lemma DivBracket(a: int, b: int)
    requires b > 0
    ensures (a / b) * b <= a < (a / b + 1) * b
  {
  }

  lemma MulMono(a: int, b: int, c: nat)
    requires a <= b
    ensures a * c <= b * c
  {
  }

  lemma RealDivBracket(n: int, d: int, p: int)
    requires d > 0 && p * d <= n < (p + 1) * d
    ensures p as real <= n as real / d as real < (p + 1) as real
  {
    var q := n as real / d as real;
    assert q - p as real == (n - p * d) as real / d as real;
    assert (p + 1) as real - q == ((p + 1) * d - n) as real / d as real;
  }

  lemma ZeroProduct(a: real, d: real)
    requires d > 0.0 && a * d == 0.0
    ensures a == 0.0
  {
    assert a == (a * d) / d;
  }

  /** `n / d + 0.5` as one fraction. */
  lemma HalfShift(n: int, d: int)
    requires d > 0
    ensures n as real / d as real + 0.5 == (2 * n + d) as real / (2 * d) as real
  {
    var q := n as real / d as real;
    assert q * d as real == n as real;
    var y := (2 * n + d) as real / (2 * d) as real;
    assert y * (2 * d) as real == (2 * n + d) as real;
    var x := q + 0.5;
    assert x * (2 * d) as real == (2 * n + d) as real;
    assert (x - y) * (2 * d) as real == 0.0;
    ZeroProduct(x - y, (2 * d) as real);
  }

  /** `Math.round(n / d)` in integer arithmetic: `(2n + d) / 2d`. */
  lemma RoundOfRatio(n: int, d: int)
    requires d > 0
    ensures Round(n as real / d as real) == (2 * n + d) / (2 * d)
  {
    var p := (2 * n + d) / (2 * d);
    DivBracket(2 * n + d, 2 * d);
    RealDivBracket(2 * n + d, 2 * d, p);
    HalfShift(n, d);
  }

  /** The rounded ratio of `n <= m * d` to `d` is at most `m`. */
  lemma RoundedRatioBounds(n: int, d: int, m: nat)
    requires d > 0 && 0 <= n <= m * d
    ensures 0 <= (2 * n + d) / (2 * d) <= m
  {
    var p := (2 * n + d) / (2 * d);
    DivBracket(2 * n + d, 2 * d);
    MulMono(n, m * d, 2);
    if p > m {
      MulMono(m + 1, p, 2 * d);
    }
  }
}
