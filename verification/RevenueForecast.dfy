/** Revenue forecast by moving average and least squares (services/analytics/payment_metrics.py), over
    real numbers. Values are ordered from the newest period (index 0) to the oldest. */
module RevenueForecast {

  /** f(0) + ... + f(n-1) */
  function SumTo(n: nat, f: int -> real): real {
    if n == 0 then 0.0 else SumTo(n - 1, f) + f(n - 1)
  }

  function At(y: seq<real>, k: int): real {
    if 0 <= k < |y| then y[k] else 0.0
  }

  function Values(y: seq<real>): int -> real {
    k => At(y, k)
  }

  function Index(): int -> real {
    k => k as real
  }

  function One(): int -> real {
    k => 1.0
  }

  function Times(a: real, b: real): real {
    a * b
  }

  function Products(f: int -> real, g: int -> real): int -> real {
    k => Times(f(k), g(k))
  }

  function Shifted(f: int -> real, mean: real): int -> real {
    k => f(k) - mean
  }

  function Line(slope: real, intercept: real): int -> real {
    k => slope * k as real + intercept
  }

  function Minus(f: int -> real, g: int -> real): int -> real {
    k => f(k) - g(k)
  }

  function Sum(y: seq<real>): real {
    SumTo(|y|, Values(y))
  }

  function Cross(y: seq<real>, xMean: real, yMean: real): real {
    SumTo(|y|, Products(Shifted(Index(), xMean), Shifted(Values(y), yMean)))
  }

  function Spread(n: nat, xMean: real): real {
    SumTo(n, Products(Shifted(Index(), xMean), Shifted(Index(), xMean)))
  }

  function LinearRegression(values: seq<real>): (real, real) {
    if |values| < 2 then (0.0, if values == [] then 0.0 else values[0]) else
      var n := |values| as real;
      var xMean := SumTo(|values|, Index()) / n;
      var yMean := Sum(values) / n;
      var denominator := Spread(|values|, xMean);
      if denominator == 0.0 then (0.0, yMean) else
        var slope := Cross(values, xMean, yMean) / denominator;
        (slope, yMean - slope * xMean)
  }

  function Residual(y: seq<real>, slope: real, intercept: real): int -> real {
    Minus(Values(y), Line(slope, intercept))
  }

  /** Sum of squared errors of a line. */
  function SquaredError(y: seq<real>, slope: real, intercept: real): real {
    SumTo(|y|, Products(Residual(y, slope, intercept), Residual(y, slope, intercept)))
  }

  // ---------------------------------------------------------------- sums are linear

  ghost predicate Combines(n: nat, h: int -> real, f1: int -> real, c2: real, f2: int -> real, c3: real, f3: int -> real,
                           c4: real, f4: int -> real)
  {
    forall k | 0 <= k < n :: h(k) == f1(k) + c2 * f2(k) + c3 * f3(k) + c4 * f4(k)
  }

  lemma {:induction false} SumLinear(n: nat, h: int -> real, f1: int -> real, c2: real, f2: int -> real,
                                     c3: real, f3: int -> real, c4: real, f4: int -> real)
    requires Combines(n, h, f1, c2, f2, c3, f3, c4, f4)
    ensures SumTo(n, h) == SumTo(n, f1) + c2 * SumTo(n, f2) + c3 * SumTo(n, f3) + c4 * SumTo(n, f4)
  {
    if n > 0 {
      SumLinear(n - 1, h, f1, c2, f2, c3, f3, c4, f4);
      Distribute(c2, SumTo(n - 1, f2), f2(n - 1));
      Distribute(c3, SumTo(n - 1, f3), f3(n - 1));
      Distribute(c4, SumTo(n - 1, f4), f4(n - 1));
    }
  }

  lemma Distribute(p: real, x: real, y: real)
    ensures p * (x + y) == p * x + p * y
  {
  }

  lemma {:induction false} SumOfOnes(n: nat)
    ensures SumTo(n, One()) == n as real
  {
    if n > 0 {
      SumOfOnes(n - 1);
    }
  }

  ghost predicate Gap(n: nat, r: int -> real, d: int -> real, e: int -> real) {
    forall k | 0 <= k < n :: e(k) == r(k) - d(k)
  }

  lemma ResidualsGap(y: seq<real>, s: real, i: real, a: real, b: real, p: real, q: real)
    requires a == s + p && b == i + q
    ensures Gap(|y|, Residual(y, s, i), Line(p, q), Residual(y, a, b))
  {
    forall k | 0 <= k < |y|
      ensures Residual(y, a, b)(k) == Residual(y, s, i)(k) - Line(p, q)(k)
    {
      LineDifference(At(y, k), k as real, s, i, a, b, p, q);
    }
  }

  lemma SquaresCombine(n: nat, r: int -> real, e: int -> real, p: real, q: real)
    requires Gap(n, r, Line(p, q), e)
    ensures Combines(n, Products(e, e), Products(r, r), -2.0 * p, Products(Index(), r), -2.0 * q, r,
                     1.0, Products(Line(p, q), Line(p, q)))
  {
    var d := Line(p, q);
    forall k | 0 <= k < n
      ensures Products(e, e)(k) == Products(r, r)(k) + -2.0 * p * Products(Index(), r)(k) + -2.0 * q * r(k)
                                   + 1.0 * Products(d, d)(k)
    {
      SquareOfDifference(k as real, r(k), d(k), e(k), p, q);
    }
  }

  lemma ErrorCombines(y: seq<real>, s: real, i: real, a: real, b: real, p: real, q: real)
    requires a == s + p && b == i + q
    ensures var r, d, e := Residual(y, s, i), Line(p, q), Residual(y, a, b);
            Combines(|y|, Products(e, e), Products(r, r), -2.0 * p, Products(Index(), r), -2.0 * q, r,
                     1.0, Products(d, d))
  {
    ResidualsGap(y, s, i, a, b, p, q);
    SquaresCombine(|y|, Residual(y, s, i), Residual(y, a, b), p, q);
  }

  lemma LineDifference(v: real, k: real, s: real, i: real, a: real, b: real, p: real, q: real)
    requires a == s + p && b == i + q
    ensures v - (a * k + b) == (v - (s * k + i)) - (p * k + q)
  {
  }

  lemma SquareOfDifference(k: real, r: real, d: real, e: real, p: real, q: real)
    requires e == r - d && d == p * k + q
    ensures Times(e, e) == Times(r, r) + -2.0 * p * Times(k, r) + -2.0 * q * r + 1.0 * Times(d, d)
  {
  }

  /** The error of another line exceeds that of a line with normal residuals r by the squared gap d. */
  lemma ErrorOfOther(n: nat, r: int -> real, d: int -> real, e: int -> real, p2: real, q2: real)
    requires Combines(n, Products(e, e), Products(r, r), p2, Products(Index(), r), q2, r, 1.0, Products(d, d))
    requires SumTo(n, r) == 0.0 && SumTo(n, Products(Index(), r)) == 0.0
    ensures SumTo(n, Products(e, e)) == SumTo(n, Products(r, r)) + SumTo(n, Products(d, d))
  {
    SumLinear(n, Products(e, e), Products(r, r), p2, Products(Index(), r), q2, r, 1.0, Products(d, d));
  }

  lemma {:induction false} SumXClosed(n: nat)
    ensures 2.0 * SumTo(n, Index()) == n as real * (n as real - 1.0)
  {
    if n > 0 {
      SumXClosed(n - 1);
    }
  }

  lemma {:induction false} SpreadClosed(n: nat, m: real)
    ensures var r := n as real;
            6.0 * Spread(n, m) == r * (r - 1.0) * (2.0 * r - 1.0) - 6.0 * m * (r * (r - 1.0)) + 6.0 * r * (m * m)
  {
    if n > 0 {
      SpreadClosed(n - 1, m);
      var q := (n - 1) as real;
      NextCube(q, m, Spread(n - 1, m));
    }
  }

  lemma NextCube(q: real, m: real, spread: real)
    requires 6.0 * spread == q * (q - 1.0) * (2.0 * q - 1.0) - 6.0 * m * (q * (q - 1.0)) + 6.0 * q * (m * m)
    ensures 6.0 * (spread + Times(q - m, q - m))
         == (q + 1.0) * q * (2.0 * (q + 1.0) - 1.0) - 6.0 * m * ((q + 1.0) * q) + 6.0 * (q + 1.0) * (m * m)
  {
  }

  /** The denominator is n(n-1)(n+1)/12, so it is never zero for two or more values. */
  lemma DenominatorPositive(n: nat)
    requires n >= 2
    ensures var r := n as real; 12.0 * Spread(n, SumTo(n, Index()) / r) == r * (r - 1.0) * (r + 1.0)
    ensures Spread(n, SumTo(n, Index()) / n as real) > 0.0
  {
    SumXClosed(n);
    MeanIsMiddle(n as real, SumTo(n, Index()));
    SpreadAtMiddle(n, n as real, SumTo(n, Index()) / n as real);
  }

  lemma SpreadAtMiddle(n: nat, r: real, m: real)
    requires n >= 2 && r == n as real && 2.0 * m == r - 1.0
    ensures 12.0 * Spread(n, m) == r * (r - 1.0) * (r + 1.0) && Spread(n, m) > 0.0
  {
    SpreadClosed(n, m);
    Centered(r, m);
    PositiveProduct(r);
  }

  lemma MeanIsMiddle(r: real, total: real)
    requires r > 0.0 && 2.0 * total == r * (r - 1.0)
    ensures 2.0 * (total / r) == r - 1.0
  {
    var m := total / r;
    assert m * r == total;
    CancelFactor(2.0 * m - (r - 1.0), r);
  }

  lemma CancelFactor(p: real, r: real)
    requires r > 0.0 && p * r == 0.0
    ensures p == 0.0
  {
  }

  lemma Centered(r: real, m: real)
    requires 2.0 * m == r - 1.0
    ensures 2.0 * (r * (r - 1.0) * (2.0 * r - 1.0) - 6.0 * m * (r * (r - 1.0)) + 6.0 * r * (m * m))
         == r * (r - 1.0) * (r + 1.0)
  {
    assert m == (r - 1.0) / 2.0;
  }

  lemma PositiveProduct(r: real)
    requires r >= 2.0
    ensures r * (r - 1.0) * (r + 1.0) > 0.0
  {
    assert r * (r - 1.0) > 0.0;
  }

  lemma ShiftedSum(n: nat, f: int -> real, m: real, nm: real)
    requires nm == -m && SumTo(n, f) == m * n as real
    ensures SumTo(n, Shifted(f, m)) == 0.0
  {
    forall k | 0 <= k < n ensures Shifted(f, m)(k) == f(k) + nm * One()(k) + 0.0 * One()(k) + 0.0 * One()(k) {
    }
    SumLinear(n, Shifted(f, m), f, nm, One(), 0.0, One(), 0.0, One());
    SumOfOnes(n);
  }

  /** A line through the means leaves residuals that sum to zero. */
  lemma ResidualsVanish(y: seq<real>, xm: real, ym: real, s: real, i: real, ns: real)
    requires SumTo(|y|, Index()) == xm * |y| as real && Sum(y) == ym * |y| as real && i == ym - s * xm && ns == -s
    ensures SumTo(|y|, Residual(y, s, i)) == 0.0
  {
    var dx, dy := Shifted(Index(), xm), Shifted(Values(y), ym);
    ShiftedSum(|y|, Index(), xm, -xm);
    ShiftedSum(|y|, Values(y), ym, -ym);
    forall k | 0 <= k < |y|
      ensures Residual(y, s, i)(k) == dy(k) + ns * dx(k) + 0.0 * One()(k) + 0.0 * One()(k)
    {
      ResidualCentered(At(y, k), k as real, xm, ym, s, i, ns);
    }
    SumLinear(|y|, Residual(y, s, i), dy, ns, dx, 0.0, One(), 0.0, One());
  }

  lemma ResidualCentered(v: real, k: real, xm: real, ym: real, s: real, i: real, ns: real)
    requires i == ym - s * xm && ns == -s
    ensures v - (s * k + i) == (v - ym) + ns * (k - xm)
  {
  }

  lemma TimesCentered(w: real, r: real, u: real, ns: real)
    requires r == u + ns * w
    ensures Times(w, r) == Times(w, u) + ns * Times(w, w)
  {
  }

  lemma ProductsCombine(n: nat, w: int -> real, u: int -> real, r: int -> real, ns: real)
    requires forall k | 0 <= k < n :: r(k) == u(k) + ns * w(k)
    ensures Combines(n, Products(w, r), Products(w, u), ns, Products(w, w), 0.0, One(), 0.0, One())
  {
    forall k | 0 <= k < n
      ensures Products(w, r)(k) == Products(w, u)(k) + ns * Products(w, w)(k) + 0.0 * One()(k) + 0.0 * One()(k)
    {
      TimesCentered(w(k), r(k), u(k), ns);
    }
  }

  lemma CenteredResidualsCombine(y: seq<real>, xm: real, ym: real, s: real, i: real, ns: real)
    requires i == ym - s * xm && ns == -s
    ensures var dx, dy := Shifted(Index(), xm), Shifted(Values(y), ym);
            Combines(|y|, Products(dx, Residual(y, s, i)), Products(dx, dy), ns, Products(dx, dx), 0.0, One(), 0.0, One())
  {
    var dx, dy := Shifted(Index(), xm), Shifted(Values(y), ym);
    forall k | 0 <= k < |y| ensures Residual(y, s, i)(k) == dy(k) + ns * dx(k) {
      ResidualCentered(At(y, k), k as real, xm, ym, s, i, ns);
    }
    ProductsCombine(|y|, dx, dy, Residual(y, s, i), ns);
  }

  /** If moreover the slope is the ratio of the centered sums, the residuals are orthogonal to the index. */
  lemma CenteredResidualsVanish(y: seq<real>, xm: real, ym: real, s: real, i: real, ns: real)
    requires Cross(y, xm, ym) == s * Spread(|y|, xm) && ns == -s
    requires var dx, dy := Shifted(Index(), xm), Shifted(Values(y), ym);
             Combines(|y|, Products(dx, Residual(y, s, i)), Products(dx, dy), ns, Products(dx, dx), 0.0, One(), 0.0, One())
    ensures SumTo(|y|, Products(Shifted(Index(), xm), Residual(y, s, i))) == 0.0
  {
    var dx, dy := Shifted(Index(), xm), Shifted(Values(y), ym);
    SumVanishes(|y|, Products(dx, Residual(y, s, i)), Products(dx, dy), Products(dx, dx), s, ns);
  }

  lemma SumVanishes(n: nat, h: int -> real, f: int -> real, g: int -> real, s: real, ns: real)
    requires Combines(n, h, f, ns, g, 0.0, One(), 0.0, One()) && SumTo(n, f) == s * SumTo(n, g) && ns == -s
    ensures SumTo(n, h) == 0.0
  {
    SumLinear(n, h, f, ns, g, 0.0, One(), 0.0, One());
    Opposite(s, ns, SumTo(n, g), SumTo(n, f), SumTo(n, h), SumTo(n, One()));
  }

  lemma Opposite(s: real, ns: real, d: real, k: real, total: real, ones: real)
    requires ns == -s && k == s * d && total == k + ns * d + 0.0 * ones + 0.0 * ones
    ensures total == 0.0
  {
  }

  lemma Uncentered(n: nat, r: int -> real, xm: real)
    requires SumTo(n, r) == 0.0 && SumTo(n, Products(Shifted(Index(), xm), r)) == 0.0
    ensures SumTo(n, Products(Index(), r)) == 0.0
  {
    var dx := Shifted(Index(), xm);
    forall k | 0 <= k < n
      ensures Products(Index(), r)(k) == Products(dx, r)(k) + xm * r(k) + 0.0 * One()(k) + 0.0 * One()(k)
    {
      assert k as real * r(k) == (k as real - xm) * r(k) + xm * r(k);
    }
    SumLinear(n, Products(Index(), r), Products(dx, r), xm, r, 0.0, One(), 0.0, One());
  }

  /** The normal equations: the residuals of the returned line sum to zero, weighted by index or not. */
  lemma NormalEquations(y: seq<real>)
    requires |y| >= 2
    ensures var (s, i) := LinearRegression(y);
            SumTo(|y|, Residual(y, s, i)) == 0.0 && SumTo(|y|, Products(Index(), Residual(y, s, i))) == 0.0
  {
    var xm, ym := RegressionMeets(y);
    var (s, i) := LinearRegression(y);
    ResidualsVanish(y, xm, ym, s, i, -s);
    CenteredResidualsCombine(y, xm, ym, s, i, -s);
    CenteredResidualsVanish(y, xm, ym, s, i, -s);
    Uncentered(|y|, Residual(y, s, i), xm);
  }

  /** The returned line goes through the means, and its slope solves the normal equation of the code. */
  lemma RegressionMeets(y: seq<real>) returns (xm: real, ym: real)
    requires |y| >= 2
    ensures SumTo(|y|, Index()) == xm * |y| as real && Sum(y) == ym * |y| as real
    ensures Cross(y, xm, ym) == LinearRegression(y).0 * Spread(|y|, xm)
    ensures LinearRegression(y).1 == ym - LinearRegression(y).0 * xm
  {
    xm, ym := SumTo(|y|, Index()) / |y| as real, Sum(y) / |y| as real;
    DenominatorPositive(|y|);
    Quotient(SumTo(|y|, Index()), |y| as real);
    Quotient(Sum(y), |y| as real);
    Quotient(Cross(y, xm, ym), Spread(|y|, xm));
  }

  lemma Quotient(a: real, b: real)
    requires b > 0.0
    ensures a == a / b * b
  {
  }

  lemma {:induction false} SumOfSquares(n: nat, f: int -> real)
    ensures SumTo(n, Products(f, f)) >= 0.0
    ensures (forall k | 0 <= k < n :: f(k) == 0.0) ==> SumTo(n, Products(f, f)) == 0.0
  {
    if n > 0 {
      SumOfSquares(n - 1, f);
      SquareSign(f(n - 1));
    }
  }

  lemma {:induction false} SumOfSquaresPositive(n: nat, f: int -> real, k: nat)
    requires k < n && f(k) != 0.0
    ensures SumTo(n, Products(f, f)) > 0.0
  {
    SumOfSquares(n - 1, f);
    SquareSign(f(n - 1));
    if k < n - 1 {
      SumOfSquaresPositive(n - 1, f, k);
    }
  }

  /** Two or more points tell a line from the zero line. */
  lemma GapPositive(n: nat, p: real, q: real)
    requires n >= 2
    ensures p != 0.0 || q != 0.0 ==> SumTo(n, Products(Line(p, q), Line(p, q))) > 0.0
    ensures p == 0.0 && q == 0.0 ==> SumTo(n, Products(Line(p, q), Line(p, q))) == 0.0
  {
    SumOfSquares(n, Line(p, q));
    if q != 0.0 {
      SumOfSquaresPositive(n, Line(p, q), 0);
    } else if p != 0.0 {
      SumOfSquaresPositive(n, Line(p, q), 1);
    }
  }

  lemma SquareSign(v: real)
    ensures Times(v, v) >= 0.0
    ensures v != 0.0 ==> Times(v, v) > 0.0
    ensures v == 0.0 ==> Times(v, v) == 0.0
  {
    if v > 0.0 {
      PositiveTimes(v, v);
    } else if v < 0.0 {
      PositiveTimes(-v, -v);
      assert Times(v, v) == Times(-v, -v);
    }
  }

  lemma PositiveTimes(a: real, b: real)
    requires a > 0.0 && b > 0.0
    ensures Times(a, b) > 0.0
  {
  }

  /** The returned line is the unique minimiser of the squared error over all real lines. */
  lemma LeastSquares(y: seq<real>, a: real, b: real)
    requires |y| >= 2
    ensures var (s, i) := LinearRegression(y);
            && SquaredError(y, s, i) <= SquaredError(y, a, b)
            && (SquaredError(y, s, i) == SquaredError(y, a, b) <==> a == s && b == i)
  {
    var (s, i) := LinearRegression(y);
    NormalEquations(y);
    NormalLineIsBest(y, s, i, a, b, a - s, b - i);
  }

  lemma NormalLineIsBest(y: seq<real>, s: real, i: real, a: real, b: real, p: real, q: real)
    requires |y| >= 2 && a == s + p && b == i + q
    requires SumTo(|y|, Residual(y, s, i)) == 0.0 && SumTo(|y|, Products(Index(), Residual(y, s, i))) == 0.0
    ensures SquaredError(y, s, i) <= SquaredError(y, a, b)
    ensures SquaredError(y, s, i) == SquaredError(y, a, b) <==> a == s && b == i
  {
    ErrorCombines(y, s, i, a, b, p, q);
    ErrorOfOther(|y|, Residual(y, s, i), Line(p, q), Residual(y, a, b), -2.0 * p, -2.0 * q);
    GapPositive(|y|, p, q);
  }

  /** Collinear data is reproduced exactly. */
  lemma CollinearReproduced(y: seq<real>, a: real, b: real)
    requires |y| >= 2 && forall k | 0 <= k < |y| :: y[k] == a * k as real + b
    ensures LinearRegression(y) == (a, b)
  {
    var (s, i) := LinearRegression(y);
    LeastSquares(y, a, b);
    SumOfSquares(|y|, Residual(y, a, b));
    SumOfSquares(|y|, Residual(y, s, i));
  }

  // ---------------------------------------------------------------- the forecast

  datatype Method = InsufficientData | Combined

  function Max(a: real, b: real): real {
    if a > b then a else b
  }

  function Min(a: real, b: real): real {
    if a < b then a else b
  }

  /** Standard deviations of `values`: the non-negative root of the mean squared deviation. */
  predicate IsStdDev(values: seq<real>, sd: real)
    requires values != []
  {
    var n := |values| as real;
    sd >= 0.0 && sd * sd == SquaredError(values, 0.0, Sum(values) / n) / n
  }

  function Confidence(values: seq<real>, sd: real): real {
    if |values| < 2 then 10.0 else
      var mean := Sum(values) / |values| as real;
      if mean == 0.0 then 10.0 else
        var cv := sd / mean;
        var stability := Max(0.0, 100.0 * (1.0 - cv / 2.0));
        var data := Min(100.0, |values| as real / 8.0 * 100.0);
        0.6 * stability + 0.4 * data
  }

  function MovingAverage(values: seq<real>): real
    requires values != []
  {
    var window := if |values| < 4 then |values| else 4;
    Sum(values[..window]) / window as real
  }

  function RegressionForecast(values: seq<real>): real {
    var (slope, intercept) := LinearRegression(values);
    slope * |values| as real + intercept
  }

  /** Forecast, confidence and method; `sd` is the standard deviation of the values. */
  function ForecastSingleValue(values: seq<real>, sd: real): (real, real, Method) {
    if |values| < 2 then (if values == [] then 0.0 else values[0], 10.0, InsufficientData) else
      var combined := 0.6 * MovingAverage(values) + 0.4 * Max(0.0, RegressionForecast(values));
      (combined, Max(10.0, Min(95.0, Confidence(values, sd))), Combined)
  }

  lemma {:induction false} SumNonnegative(n: nat, f: int -> real)
    requires forall k | 0 <= k < n :: f(k) >= 0.0
    ensures SumTo(n, f) >= 0.0
  {
    if n > 0 {
      SumNonnegative(n - 1, f);
    }
  }

  /** Revenue that was never negative is not forecast to be negative, and the forecast is at least
      60% of the recent average. */
  lemma ForecastNonnegative(values: seq<real>, sd: real)
    requires forall k | 0 <= k < |values| :: values[k] >= 0.0
    ensures ForecastSingleValue(values, sd).0 >= 0.0
    ensures |values| >= 2 ==> ForecastSingleValue(values, sd).0 >= 0.6 * MovingAverage(values)
    ensures 10.0 <= ForecastSingleValue(values, sd).1 <= 95.0
  {
    if |values| >= 2 {
      var window := if |values| < 4 then |values| else 4;
      SumNonnegative(window, Values(values[..window]));
    }
  }

  /** With non-negative revenue the confidence before clipping is a percentage. */
  lemma ConfidenceIsPercentage(values: seq<real>, sd: real)
    requires values != [] && IsStdDev(values, sd) && forall k | 0 <= k < |values| :: values[k] >= 0.0
    ensures 0.0 <= Confidence(values, sd) <= 100.0
  {
    SumNonnegative(|values|, Values(values));
    var mean := Sum(values) / |values| as real;
    if |values| >= 2 && mean != 0.0 {
      assert mean > 0.0;
      assert sd / mean >= 0.0;
    }
  }

  // ---------------------------------------------------------------- the forecast on data

  lemma SumOfFirst(y: seq<real>)
    ensures |y| >= 2 ==> Sum(y[..2]) == y[0] + y[1]
    ensures |y| >= 3 ==> Sum(y[..3]) == y[0] + y[1] + y[2]
    ensures |y| >= 4 ==> Sum(y[..4]) == y[0] + y[1] + y[2] + y[3]
  {
    if |y| >= 2 {
      SumUpTo(y[..2], 2);
    }
    if |y| >= 3 {
      SumUpTo(y[..3], 3);
    }
    if |y| >= 4 {
      SumUpTo(y[..4], 4);
    }
  }

  lemma SumUpTo(y: seq<real>, n: nat)
    requires 2 <= n <= 4 && |y| == n
    ensures Sum(y) == y[0] + y[1] + (if n >= 3 then y[2] else 0.0) + (if n >= 4 then y[3] else 0.0)
  {
    var f := Values(y);
    assert SumTo(2, f) == SumTo(1, f) + f(1) && SumTo(1, f) == SumTo(0, f) + f(0);
    assert n >= 3 ==> SumTo(3, f) == SumTo(2, f) + f(2);
    assert n >= 4 ==> SumTo(4, f) == SumTo(3, f) + f(3);
  }

  /** The average is that of the newest four values, or of all if there are fewer; older ones do not enter. */
  lemma AverageOfNewest(y: seq<real>)
    requires |y| >= 2
    ensures |y| == 2 ==> MovingAverage(y) == (y[0] + y[1]) / 2.0
    ensures |y| == 3 ==> MovingAverage(y) == (y[0] + y[1] + y[2]) / 3.0
    ensures |y| >= 4 ==> MovingAverage(y) == (y[0] + y[1] + y[2] + y[3]) / 4.0
  {
    SumOfFirst(y);
  }

  /** For any values: with the line that fits them best in the sense of least squares, the forecast is six tenths
      of the average of the newest four and four tenths of that line at index n, or of nothing if it is negative
      there. */
  lemma ForecastByBestLine(y: seq<real>, a: real, b: real, sd: real)
    requires |y| >= 2 && forall c, d :: SquaredError(y, a, b) <= SquaredError(y, c, d)
    ensures var n := |y| as real;
            var newest := if |y| == 2 then (y[0] + y[1]) / 2.0
                          else if |y| == 3 then (y[0] + y[1] + y[2]) / 3.0
                          else (y[0] + y[1] + y[2] + y[3]) / 4.0;
            ForecastSingleValue(y, sd).0 == 0.6 * newest + 0.4 * (if a * n + b > 0.0 then a * n + b else 0.0)
  {
    AverageOfNewest(y);
    BestLineExtrapolated(y, a, b);
  }

  lemma BestLineExtrapolated(y: seq<real>, a: real, b: real)
    requires |y| >= 2 && forall c, d :: SquaredError(y, a, b) <= SquaredError(y, c, d)
    ensures RegressionForecast(y) == a * |y| as real + b
  {
    var (s, i) := LinearRegression(y);
    LeastSquares(y, a, b);
    assert SquaredError(y, a, b) <= SquaredError(y, s, i);
  }

  lemma CollinearAverage(y: seq<real>, a: real, b: real)
    requires |y| >= 2 && forall k | 0 <= k < |y| :: y[k] == a * k as real + b
    ensures MovingAverage(y) == if |y| == 2 then b + a / 2.0 else if |y| == 3 then b + a else b + 3.0 * a / 2.0
  {
    AverageOfNewest(y);
    assert y[0] == a * 0 as real + b && y[1] == a * 1 as real + b;
    assert |y| >= 3 ==> y[2] == a * 2 as real + b;
    assert |y| >= 4 ==> y[3] == a * 3 as real + b;
  }

  lemma CollinearExtrapolated(y: seq<real>, a: real, b: real)
    requires |y| >= 2 && forall k | 0 <= k < |y| :: y[k] == a * k as real + b
    ensures RegressionForecast(y) == a * |y| as real + b
  {
    CollinearReproduced(y, a, b);
  }

  /** Values on a line are forecast as six tenths of the average of the newest four and four tenths of the line at
      index n, or of nothing if it is negative there. */
  lemma CollinearForecast(y: seq<real>, a: real, b: real, sd: real)
    requires |y| >= 2 && forall k | 0 <= k < |y| :: y[k] == a * k as real + b
    ensures var n := |y| as real;
            var newest := if |y| == 2 then b + a / 2.0 else if |y| == 3 then b + a else b + 3.0 * a / 2.0;
            ForecastSingleValue(y, sd).0 == 0.6 * newest + 0.4 * (if a * n + b > 0.0 then a * n + b else 0.0)
  {
    CollinearAverage(y, a, b);
    CollinearExtrapolated(y, a, b);
  }

  /** Revenue that never changes is forecast to stay as it is. */
  lemma ConstantForecast(y: seq<real>, c: real, sd: real)
    requires |y| >= 2 && c >= 0.0 && forall k | 0 <= k < |y| :: y[k] == c
    ensures ForecastSingleValue(y, sd).0 == c
  {
    forall k | 0 <= k < |y| ensures y[k] == 0.0 * k as real + c {
    }
    CollinearForecast(y, 0.0, c, sd);
  }

  /** The confidence before clipping, by the coefficient of variation t: 60 points fall to none at t = 2, and
      each value brings 5 points up to 40. */
  lemma ConfidenceByVariation(y: seq<real>, sd: real, t: real)
    requires |y| >= 2 && Sum(y) > 0.0 && t >= 0.0 && sd / (Sum(y) / |y| as real) == t
    ensures Confidence(y, sd)
         == (if t < 2.0 then 60.0 - 30.0 * t else 0.0) + (if |y| < 8 then 5.0 * |y| as real else 40.0)
  {
    assert Sum(y) / |y| as real > 0.0;
  }

  /** So steady revenue is forecast with a confidence of 70 for two values, and of at most 95 for seven or more. */
  lemma SteadyConfidence(y: seq<real>)
    requires |y| >= 2 && Sum(y) > 0.0
    ensures ForecastSingleValue(y, 0.0).1 == if |y| < 7 then 60.0 + 5.0 * |y| as real else 95.0
  {
    ConfidenceByVariation(y, 0.0, 0.0);
  }

  // ---------------------------------------------------------------- the direction of the forecast

  /** Each value weighted by how much older it is than the middle: negative when the newer values weigh more. */
  function Tilt(y: seq<real>): real {
    SumTo(|y|, TiltTerm(y))
  }

  function TiltTerm(y: seq<real>): int -> real {
    k => Times(2.0 * k as real - (|y| as real - 1.0), At(y, k))
  }

  lemma Middle(xm: real, r: real, total: real)
    requires r > 0.0 && total == xm * r && 2.0 * total == r * (r - 1.0)
    ensures 2.0 * xm == r - 1.0
  {
    assert (2.0 * xm - (r - 1.0)) * r == 2.0 * (xm * r) - r * (r - 1.0);
    CancelFactor(2.0 * xm - (r - 1.0), r);
  }

  lemma TimesRecentered(w: real, v: real, c: real, d: real, shift: real)
    requires shift == d - c
    ensures Times(w, v - c) == Times(w, v - d) + shift * w
  {
  }

  lemma CentersCombine(y: seq<real>, xm: real, c: real, d: real, shift: real)
    requires shift == d - c
    ensures var dx := Shifted(Index(), xm);
            Combines(|y|, Products(dx, Shifted(Values(y), c)), Products(dx, Shifted(Values(y), d)), shift, dx,
                     0.0, One(), 0.0, One())
  {
    var dx := Shifted(Index(), xm);
    forall k | 0 <= k < |y|
      ensures Products(dx, Shifted(Values(y), c))(k)
           == Products(dx, Shifted(Values(y), d))(k) + shift * dx(k) + 0.0 * One()(k) + 0.0 * One()(k)
    {
      TimesRecentered(dx(k), At(y, k), c, d, shift);
    }
  }

  /** The centered sum does not depend on what is subtracted from the values. */
  lemma CrossAnyCenter(y: seq<real>, xm: real, c: real, d: real)
    requires SumTo(|y|, Index()) == xm * |y| as real
    ensures Cross(y, xm, c) == Cross(y, xm, d)
  {
    var dx, shift := Shifted(Index(), xm), d - c;
    var atC, atD := Products(dx, Shifted(Values(y), c)), Products(dx, Shifted(Values(y), d));
    CentersCombine(y, xm, c, d, shift);
    SumLinear(|y|, atC, atD, shift, dx, 0.0, One(), 0.0, One());
    ShiftedSum(|y|, Index(), xm, -xm);
    NoMore(shift, SumTo(|y|, dx), SumTo(|y|, atC), SumTo(|y|, atD), SumTo(|y|, One()));
  }

  lemma NoMore(p: real, zero: real, a: real, b: real, ones: real)
    requires zero == 0.0 && a == b + p * zero + 0.0 * ones + 0.0 * ones
    ensures a == b
  {
  }

  lemma TiltAtPoint(k: real, v: real, xm: real, m: real)
    requires 2.0 * xm == m
    ensures Times(2.0 * k - m, v) == Times(k - xm, v - 0.0) + 1.0 * Times(k - xm, v - 0.0)
  {
    assert 2.0 * k - m == (k - xm) + (k - xm);
  }

  lemma TiltIsCross(y: seq<real>, xm: real)
    requires 2.0 * xm == |y| as real - 1.0
    ensures Tilt(y) == 2.0 * Cross(y, xm, 0.0)
  {
    var terms := Products(Shifted(Index(), xm), Shifted(Values(y), 0.0));
    forall k | 0 <= k < |y|
      ensures TiltTerm(y)(k) == terms(k) + 1.0 * terms(k) + 0.0 * One()(k) + 0.0 * One()(k)
    {
      TiltAtPoint(k as real, At(y, k), xm, |y| as real - 1.0);
    }
    SumLinear(|y|, TiltTerm(y), terms, 1.0, terms, 0.0, One(), 0.0, One());
  }

  lemma SignOfFactor(s: real, d: real, c: real)
    requires d > 0.0 && c == s * d
    ensures (s > 0.0 <==> c > 0.0) && (s < 0.0 <==> c < 0.0)
  {
    if s > 0.0 {
      PositiveTimes(s, d);
      assert Times(s, d) == c;
    } else if s < 0.0 {
      PositiveTimes(-s, d);
      assert Times(-s, d) == -c;
    }
  }

  /** What the proofs below know of a regression. */
  lemma RegressionFacts(y: seq<real>) returns (xm: real, ym: real)
    requires |y| >= 2
    ensures 2.0 * xm == |y| as real - 1.0 && SumTo(|y|, Index()) == xm * |y| as real && Sum(y) == ym * |y| as real
    ensures Cross(y, xm, ym) == LinearRegression(y).0 * Spread(|y|, xm) && Spread(|y|, xm) > 0.0
    ensures LinearRegression(y).1 == ym - LinearRegression(y).0 * xm
  {
    xm, ym := RegressionMeets(y);
    SumXClosed(|y|);
    Middle(xm, |y| as real, SumTo(|y|, Index()));
    SpreadAtMiddle(|y|, |y| as real, xm);
  }

  /** The slope has the sign of the tilt of the values. */
  lemma SlopeSign(y: seq<real>)
    requires |y| >= 2
    ensures (LinearRegression(y).0 > 0.0 <==> Tilt(y) > 0.0) && (LinearRegression(y).0 < 0.0 <==> Tilt(y) < 0.0)
  {
    var xm, ym := RegressionFacts(y);
    TiltIsCross(y, xm);
    CrossAnyCenter(y, xm, 0.0, ym);
    SignOfFactor(LinearRegression(y).0, Spread(|y|, xm), Cross(y, xm, ym));
  }

  /** The next period of the fitted line lies at index -1, because index 0 is the newest period. The value the
      code extrapolates, at index n, equals it if and only if the values are not tilted; when the newer ones
      weigh more, as in growing revenue, it lies strictly below, and when the older ones do strictly above. */
  lemma ExtrapolatesIntoThePast(values: seq<real>)
    requires |values| >= 2
    ensures var (slope, intercept) := LinearRegression(values);
            var next := intercept - slope;
            && (RegressionForecast(values) == next <==> Tilt(values) == 0.0)
            && (RegressionForecast(values) < next <==> Tilt(values) < 0.0)
  {
    var (slope, intercept) := LinearRegression(values);
    SlopeSign(values);
    BeyondTheEnd(slope, intercept, |values| as real);
  }

  lemma BeyondTheEnd(slope: real, intercept: real, n: real)
    requires n >= 0.0
    ensures slope * n + intercept == intercept - slope <==> slope == 0.0
    ensures slope * n + intercept < intercept - slope <==> slope < 0.0
  {
    assert slope * n + slope == slope * (n + 1.0);
    SignOfFactor(slope, n + 1.0, slope * (n + 1.0));
  }

  // ---------------------------------------------------------------- growing revenue

  /** Every period brought more than the one before it; the newest comes first. */
  ghost predicate Grows(y: seq<real>) {
    forall i, j | 0 <= i < j < |y| :: y[i] > y[j]
  }

  lemma {:induction false} SumNonpositive(n: nat, f: int -> real)
    requires forall k | 0 <= k < n :: f(k) <= 0.0
    ensures SumTo(n, f) <= 0.0
  {
    if n > 0 {
      SumNonpositive(n - 1, f);
    }
  }

  lemma OppositeSigns(a: real, b: real)
    requires (a <= 0.0 && b >= 0.0) || (a >= 0.0 && b <= 0.0)
    ensures Times(a, b) <= 0.0
    ensures a != 0.0 && b != 0.0 ==> Times(a, b) < 0.0
  {
    if a < 0.0 && b > 0.0 {
      PositiveTimes(-a, b);
      assert Times(a, b) == -Times(-a, b);
    } else if a > 0.0 && b < 0.0 {
      PositiveTimes(a, -b);
      assert Times(a, b) == -Times(a, -b);
    }
  }

  /** Values before the middle one are larger than it, values after it smaller. */
  lemma GrowthTerm(y: seq<real>, xm: real, k: nat)
    requires |y| >= 2 && Grows(y) && 2.0 * xm == |y| as real - 1.0 && k < |y|
    ensures var term := Products(Shifted(Index(), xm), Shifted(Values(y), y[(|y| - 1) / 2]))(k);
            term <= 0.0 && (k == |y| - 1 ==> term < 0.0)
  {
    var m := (|y| - 1) / 2;
    assert 2 * m <= |y| - 1 <= 2 * m + 1;
    OppositeSigns(k as real - xm, y[k] - y[m]);
  }

  lemma GrowthTiltsDown(y: seq<real>)
    requires |y| >= 2 && Grows(y)
    ensures Tilt(y) < 0.0
  {
    var xm, ym := RegressionFacts(y);
    var c := y[(|y| - 1) / 2];
    var terms := Products(Shifted(Index(), xm), Shifted(Values(y), c));
    forall k | 0 <= k < |y| ensures terms(k) <= 0.0 && (k == |y| - 1 ==> terms(k) < 0.0) {
      GrowthTerm(y, xm, k);
    }
    SumNonpositive(|y| - 1, terms);
    TiltIsCross(y, xm);
    CrossAnyCenter(y, xm, 0.0, c);
  }

  lemma {:induction false} SumAtMost(n: nat, f: int -> real, top: real)
    requires forall k | 0 <= k < n :: f(k) <= top
    ensures SumTo(n, f) <= Times(n as real, top)
    ensures n > 0 && f(n - 1) < top ==> SumTo(n, f) < Times(n as real, top)
  {
    if n > 0 {
      SumAtMost(n - 1, f, top);
      OneMoreTimes(n as real, top);
    }
  }

  lemma OneMoreTimes(n: real, top: real)
    ensures Times(n, top) == Times(n - 1.0, top) + top
  {
  }

  /** The average of growing values is below the newest one. */
  lemma MeanBelowNewest(y: seq<real>, mean: real)
    requires |y| >= 2 && Grows(y) && Sum(y) == mean * |y| as real
    ensures mean < y[0]
  {
    SumAtMost(|y|, Values(y), y[0]);
    assert Times(|y| as real, y[0]) - Sum(y) == (y[0] - mean) * |y| as real;
    SignOfFactor(y[0] - mean, |y| as real, (y[0] - mean) * |y| as real);
  }

  lemma LineBelowMean(slope: real, intercept: real, n: real, xm: real, ym: real, value: real)
    requires slope < 0.0 && n >= 2.0 && 2.0 * xm == n - 1.0
    requires intercept == ym - slope * xm && value == slope * n + intercept
    ensures value < ym
  {
    assert slope * n - slope * xm == slope * (n - xm);
    SignOfFactor(slope, n - xm, slope * (n - xm));
  }

  lemma SlopeFalls(y: seq<real>)
    requires |y| >= 2 && Grows(y)
    ensures LinearRegression(y).0 < 0.0
  {
    GrowthTiltsDown(y);
    SlopeSign(y);
  }

  lemma RegressionBelowNewest(y: seq<real>)
    requires |y| >= 2 && Grows(y)
    ensures RegressionForecast(y) < y[0]
  {
    var xm, ym := RegressionFacts(y);
    SlopeFalls(y);
    MeanBelowNewest(y, ym);
    LineBelowMean(LinearRegression(y).0, LinearRegression(y).1, |y| as real, xm, ym, RegressionForecast(y));
  }

  lemma AverageBelowNewest(y: seq<real>)
    requires |y| >= 2 && Grows(y)
    ensures MovingAverage(y) < y[0]
  {
    var window := if |y| < 4 then |y| else 4;
    Quotient(Sum(y[..window]), window as real);
    MeanBelowNewest(y[..window], MovingAverage(y));
  }

  lemma BothBelow(average: real, regression: real, top: real)
    requires average < top && regression < top && 0.0 < top
    ensures 0.6 * average + 0.4 * Max(0.0, regression) < top
  {
  }

  /** Revenue that grew in every period is forecast to fall below the newest period. */
  lemma GrowthIsForecastToFall(y: seq<real>, sd: real)
    requires |y| >= 2 && Grows(y) && forall k | 0 <= k < |y| :: y[k] >= 0.0
    ensures ForecastSingleValue(y, sd).0 < y[0]
  {
    AverageBelowNewest(y);
    RegressionBelowNewest(y);
    assert y[0] > y[1];
    BothBelow(MovingAverage(y), RegressionForecast(y), y[0]);
  }

  /** Revenue of 10, 20, 30 in three successive periods (newest first: 30, 20, 10) is forecast to drop to 12. */
  lemma GrowingRevenueForecastFalls(sd: real)
    ensures ForecastSingleValue([30.0, 20.0, 10.0], sd).0 == 12.0
  {
    var y := [30.0, 20.0, 10.0];
    CollinearReproduced(y, -10.0, 30.0);
    assert y[..3] == y;
    var f := Values(y);
    assert SumTo(3, f) == SumTo(2, f) + f(2) && SumTo(2, f) == SumTo(1, f) + f(1) && SumTo(1, f) == SumTo(0, f) + f(0);
  }
}
