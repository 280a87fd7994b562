/** Integer and real arithmetic as the Go code uses it. Floats are exact reals. */
module Numbers {

  function Abs(x: real): real {
    if x < 0.0 then -x else x
  }

  function MaxReal(x: real, y: real): real {
    if x < y then y else x
  }

  function MinInt(x: int, y: int): int {
    if x < y then x else y
  }

  function MaxInt(x: int, y: int): int {
    if x < y then y else x
  }

  /** Go's `/` and `%` on integers: the quotient is truncated toward zero. */
  function TruncDiv(a: int, b: int): int
    requires b != 0
  {
    if a >= 0 then a / b else -((-a) / b)
  }

  function TruncMod(a: int, b: int): int
    requires b != 0
  {
    a - TruncDiv(a, b) * b
  }

  /** Smallest integer n with a <= n * b. */
  function CeilDiv(a: int, b: int): int
    requires b > 0
  {
    -((-a) / b)
  }

  lemma QuotientAtLeast(a: int, b: int, v: int)
    requires b > 0
    ensures v <= a / b <==> v * b <= a
  {
    var q, r := a / b, a % b;
    assert a == q * b + r;
    if v <= q {
      assert v * b <= q * b;
    } else {
      assert v * b >= (q + 1) * b;
    }
  }

  lemma CeilAtMost(a: int, b: int, t: int)
    requires b > 0
    ensures CeilDiv(a, b) <= t <==> a <= t * b
  {
    QuotientAtLeast(-a, b, -t);
    assert (-t) * b == -(t * b);
  }

  lemma SmallModulus(x: nat, n: nat)
    requires x < n
    ensures x % n == x
  {
  }

  lemma DivisionIdentity(x: int, n: int)
    requires n > 0
    ensures x == x / n * n + x % n && 0 <= x % n < n
  {
  }

  lemma UniqueQuotient(x: int, n: int, q: int, r: int)
    requires n > 0 && 0 <= r < n && x == q * n + r
    ensures x / n == q && x % n == r
  {
    QuotientAtLeast(x, n, q);
    QuotientAtLeast(x, n, q + 1);
    assert (q + 1) * n == q * n + n;
    assert x / n == q;
    DivisionIdentity(x, n);
  }

  lemma ModulusShift(x: int, n: int)
    requires n > 0
    ensures (x + n) % n == x % n
  {
    DivisionIdentity(x, n);
    UniqueQuotient(x + n, n, x / n + 1, x % n);
  }

  lemma MulOrder(a: int, b: int, n: int)
    requires a <= b && n >= 0
    ensures a * n <= b * n
  {
  }

  lemma DifferentMultiples(p: int, q: int, n: int)
    requires n > 0
    ensures p > q ==> p * n - q * n >= n
    ensures q > p ==> q * n - p * n >= n
  {
    if p > q {
      MulOrder(q + 1, p, n);
    } else if q > p {
      MulOrder(p + 1, q, n);
    }
  }

  /** Two different numbers with the same remainder are at least the modulus apart. */
  lemma TwoCongruent(x: int, y: int, n: int)
    requires n > 0 && x % n == y % n && x != y
    ensures x - y >= n || y - x >= n
  {
    DivisionIdentity(x, n);
    DivisionIdentity(y, n);
    DifferentMultiples(x / n, y / n, n);
  }

  /** Go's math.Round: halves move away from zero. */
  function Round(x: real): int {
    if x >= 0.0 then (x + 0.5).Floor else -((0.5 - x).Floor)
  }

  lemma RoundMonotone(x: real, y: real)
    requires x <= y
    ensures Round(x) <= Round(y)
  {
  }

  lemma RoundNearest(x: real)
    ensures Abs(Round(x) as real - x) <= 0.5
  {
  }

  lemma RoundInteger(n: int)
    ensures Round(n as real) == n
  {
  }

  function Pow10(decimals: nat): (r: real)
    ensures r >= 1.0
  {
    if decimals == 0 then 1.0 else 10.0 * Pow10(decimals - 1)
  }

  lemma Pow10IsInteger(decimals: nat) returns (n: int)
    ensures Pow10(decimals) == n as real && n >= 1
  {
    if decimals == 0 {
      n := 1;
    } else {
      var m := Pow10IsInteger(decimals - 1);
      n := 10 * m;
    }
  }

  /** n units of 1/mul. */
  function GridPoint(n: int, mul: real): real
    requires mul > 0.0
  {
    n as real / mul
  }

  function Scaled(v: real, mul: real): real { v * mul }

  function RoundToGrid(v: real, mul: real): real
    requires mul > 0.0
  {
    GridPoint(Round(Scaled(v, mul)), mul)
  }

  function RoundToPrecision(v: real, decimals: nat): real {
    RoundToGrid(v, Pow10(decimals))
  }

  /** v has at most `decimals` decimal places. */
  ghost predicate OnGrid(v: real, decimals: nat) {
    exists n: int :: GridPoint(n, Pow10(decimals)) == v
  }

  lemma AbsProduct(x: real, y: real)
    ensures Abs(x * y) == Abs(x) * Abs(y)
  {
  }

  lemma MulMonotone(x: real, y: real, m: real)
    requires x <= y && m >= 0.0
    ensures x * m <= y * m
  {
    assert (y - x) * m >= 0.0;
  }

  lemma ScaledMonotone(x: real, y: real, m: real)
    requires x <= y && m >= 0.0
    ensures Scaled(x, m) <= Scaled(y, m)
  {
    MulMonotone(x, y, m);
  }

  lemma ScaledStep(x: real, m: real)
    ensures Scaled(x, m + 1.0) == Scaled(x, m) + x
  {
  }

  lemma {:induction false} ProductAsReal(k: int, m: nat)
    ensures (k * m) as real == Scaled(k as real, m as real)
  {
    if m == 0 {
      assert k * m == 0;
    } else {
      ProductAsReal(k, m - 1);
      assert k * m == k * (m - 1) + k;
      assert (k * (m - 1) + k) as real == (k * (m - 1)) as real + k as real;
      ScaledStep(k as real, (m - 1) as real);
      assert m as real == (m - 1) as real + 1.0;
    }
  }

  lemma NonNegativeProduct(x: real, y: real)
    requires x >= 0.0 && y >= 0.0
    ensures x * y >= 0.0
  {
  }

  lemma QuotientIs(n: real, x: real, q: real)
    requires x > 0.0 && q * x == n
    ensures n / x == q
  {
    assert (n / x - q) * x == 0.0;
  }

  lemma GridMonotone(m: int, n: int, mul: real)
    requires m <= n && mul > 0.0
    ensures GridPoint(m, mul) <= GridPoint(n, mul)
  {
    assert GridPoint(n, mul) - GridPoint(m, mul) == (n - m) as real / mul;
  }

  lemma RoundToGridMonotone(x: real, y: real, mul: real)
    requires x <= y && mul > 0.0
    ensures RoundToGrid(x, mul) <= RoundToGrid(y, mul)
  {
    MulMonotone(x, y, mul);
    RoundMonotone(Scaled(x, mul), Scaled(y, mul));
    GridMonotone(Round(Scaled(x, mul)), Round(Scaled(y, mul)), mul);
  }

  lemma RoundToPrecisionMonotone(x: real, y: real, decimals: nat)
    requires x <= y
    ensures RoundToPrecision(x, decimals) <= RoundToPrecision(y, decimals)
  {
    RoundToGridMonotone(x, y, Pow10(decimals));
  }

  lemma RoundToGridFixes(n: int, mul: real)
    requires mul > 0.0
    ensures RoundToGrid(GridPoint(n, mul), mul) == GridPoint(n, mul)
  {
    assert Scaled(GridPoint(n, mul), mul) == n as real;
    RoundInteger(n);
  }

  lemma RoundToPrecisionFixesGrid(v: real, decimals: nat)
    requires OnGrid(v, decimals)
    ensures RoundToPrecision(v, decimals) == v
  {
    var n :| GridPoint(n, Pow10(decimals)) == v;
    RoundToGridFixes(n, Pow10(decimals));
  }

  lemma RoundToGridIsGridPoint(v: real, mul: real) returns (n: int)
    requires mul > 0.0
    ensures RoundToGrid(v, mul) == GridPoint(n, mul)
  {
    n := Round(Scaled(v, mul));
  }

  lemma RoundToPrecisionOnGrid(v: real, decimals: nat)
    ensures OnGrid(RoundToPrecision(v, decimals), decimals)
  {
    var n := RoundToGridIsGridPoint(v, Pow10(decimals));
  }

  lemma IntegerIsGridPoint(k: int, mul: real, n: int)
    requires mul > 0.0 && mul == n as real
    ensures GridPoint(k * n, mul) == k as real
  {
    ProductAsReal(k, n);
    QuotientIs((k * n) as real, mul, k as real);
  }

  lemma IntegerOnGrid(k: int, decimals: nat)
    ensures OnGrid(k as real, decimals)
  {
    var n := Pow10IsInteger(decimals);
    IntegerIsGridPoint(k, Pow10(decimals), n);
  }

  lemma GridSum(m: int, n: int, mul: real)
    requires mul > 0.0
    ensures GridPoint(m + n, mul) == GridPoint(m, mul) + GridPoint(n, mul)
  {
    assert (m + n) as real == m as real + n as real;
  }

  lemma GridPlusInteger(v: real, k: int, decimals: nat)
    requires OnGrid(v, decimals)
    ensures OnGrid(v + k as real, decimals)
  {
    var n :| GridPoint(n, Pow10(decimals)) == v;
    var whole := Pow10IsInteger(decimals);
    IntegerIsGridPoint(k, Pow10(decimals), whole);
    GridSum(n, k * whole, Pow10(decimals));
    assert GridPoint(n + k * whole, Pow10(decimals)) == v + k as real;
  }

  lemma GridAbs(v: real, decimals: nat)
    requires OnGrid(v, decimals)
    ensures OnGrid(Abs(v), decimals)
  {
    var n :| GridPoint(n, Pow10(decimals)) == v;
    GridSum(n, -n, Pow10(decimals));
    assert GridPoint(-n, Pow10(decimals)) == -v;
  }

  /** Halves move away from zero, on both sides. */
  lemma RoundsHalvesAway(n: nat, x: real)
    ensures Round(n as real + 0.5) == n + 1 && Round(-x) == -Round(x)
  {
    assert (n as real + 0.5 + 0.5).Floor == n + 1;
  }

  lemma RoundSplits(n: nat, x: real)
    requires x >= 0.0
    ensures Round(n as real + x) == n + Round(x)
  {
    assert (n as real + x + 0.5).Floor == n + (x + 0.5).Floor;
  }

  /** Adding something that is not negative to a grid point rounds like the something. */
  lemma RoundToGridSplits(n: nat, x: real, mul: real)
    requires mul > 0.0 && x >= 0.0
    ensures RoundToGrid(GridPoint(n, mul) + x, mul) == GridPoint(n, mul) + RoundToGrid(x, mul)
  {
    var g := GridPoint(n, mul);
    assert g * mul == n as real;
    assert Scaled(g + x, mul) == n as real + Scaled(x, mul);
    NonNegativeProduct(x, mul);
    RoundSplits(n, Scaled(x, mul));
    GridSum(n, Round(Scaled(x, mul)), mul);
    hide Round, Scaled;
  }

  lemma GridNotNegative(n: int, mul: real)
    requires mul > 0.0 && GridPoint(n, mul) >= 0.0
    ensures n >= 0
  {
    var g := GridPoint(n, mul);
    assert g * mul == n as real;
    NonNegativeProduct(g, mul);
  }

  lemma RoundToPrecisionSplits(v: real, x: real, decimals: nat)
    requires OnGrid(v, decimals) && v >= 0.0 && x >= 0.0
    ensures RoundToPrecision(v + x, decimals) == v + RoundToPrecision(x, decimals)
  {
    var n :| GridPoint(n, Pow10(decimals)) == v;
    GridNotNegative(n, Pow10(decimals));
    RoundToGridSplits(n, x, Pow10(decimals));
  }

  lemma CancelFactor(x: real, y: real, mul: real)
    requires mul > 0.0 && x * mul <= y * mul
    ensures x <= y
  {
    assert (y - x) * mul >= 0.0;
  }

  lemma NearQuotient(x: real, v: real, mul: real)
    requires mul > 0.0 && Abs(x - v * mul) <= 0.5
    ensures Abs(x / mul - v) <= 0.5 / mul
  {
    var q, h := x / mul, 0.5 / mul;
    assert q * mul == x && h * mul == 0.5;
    AbsProduct(q - v, mul);
    assert (q - v) * mul == x - v * mul;
    assert Abs(q - v) * mul == Abs(q - v) * Abs(mul) == Abs((q - v) * mul);
    hide Abs;
    CancelFactor(Abs(q - v), h, mul);
  }

  /** Rounding moves a value by at most half of the last decimal. */
  lemma RoundToPrecisionIsNearest(v: real, decimals: nat)
    ensures Abs(RoundToPrecision(v, decimals) - v) <= 0.5 / Pow10(decimals)
  {
    var mul := Pow10(decimals);
    RoundNearest(Scaled(v, mul));
    hide Round, Pow10;
    NearQuotient(Round(Scaled(v, mul)) as real, v, mul);
  }

  /** Rounding never crosses an integer. */
  lemma RoundingKeepsIntegerBounds(v: real, k: int, decimals: nat)
    ensures v <= k as real ==> RoundToPrecision(v, decimals) <= k as real
    ensures k as real <= v ==> k as real <= RoundToPrecision(v, decimals)
  {
    IntegerOnGrid(k, decimals);
    RoundToPrecisionFixesGrid(k as real, decimals);
    if v <= k as real {
      RoundToPrecisionMonotone(v, k as real, decimals);
    }
    if k as real <= v {
      RoundToPrecisionMonotone(k as real, v, decimals);
    }
  }
}
