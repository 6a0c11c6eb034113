/**
 The syscall tracer's statistics: the z-score detector and the ratio detectors over a
 histogram of syscall counts.  Floating point is modelled by reals, and a comparison with a
 square root by a comparison of squares.
 */
module DaemonTracers {
  import opened Options
  import opened Reals
  import opened Seqs

  type Histogram = map<string, nat>

  // ----- sums over a histogram

  ghost function Total(m: Histogram): nat {
    if m == map[] then 0
    else
      var k :| k in m;
      m[k] + Total(m - {k})
  }

  /** The sum of the squared deviations of the counts from `mu`. */
  ghost function Squares(m: Histogram, mu: real): real {
    if m == map[] then 0.0
    else
      var k :| k in m;
      Sq(m[k] as real - mu) + Squares(m - {k}, mu)
  }

  function Sq(x: real): real {
    x * x
  }

  lemma RemovalCommutes(m: Histogram, a: string, b: string)
    ensures m - {a} - {b} == m - {b} - {a}
  {}

  lemma {:induction false} TotalRemove(m: Histogram, k: string)
    requires k in m
    ensures Total(m) == m[k] + Total(m - {k})
    decreases m
  {
    var p :| p in m && Total(m) == m[p] + Total(m - {p});
    if p == k {
    } else {
      TotalRemove(m - {p}, k);
      TotalRemove(m - {k}, p);
      RemovalCommutes(m, p, k);
    }
  }

  lemma {:induction false} SquaresRemove(m: Histogram, mu: real, k: string)
    requires k in m
    ensures Squares(m, mu) == Sq(m[k] as real - mu) + Squares(m - {k}, mu)
    decreases m
  {
    var p :| p in m && Squares(m, mu) == Sq(m[p] as real - mu) + Squares(m - {p}, mu);
    if p == k {
    } else {
      SquaresRemove(m - {p}, mu, k);
      SquaresRemove(m - {k}, mu, p);
      RemovalCommutes(m, p, k);
    }
  }

  // ----- Samuelson's inequality

  lemma SquareSign(x: real)
    ensures Sq(x) >= 0.0 && (Sq(x) == 0.0 ==> x == 0.0)
  {
    if x > 0.0 {
      ProductSign(x, x);
    } else if x < 0.0 {
      ProductSign(-x, -x);
      assert Sq(x) == (-x) * (-x);
    }
  }

  /** `n` copies of `x`, added up. */
  ghost function Times(n: nat, x: real): real {
    if n == 0 then 0.0 else x + Times(n - 1, x)
  }

  lemma {:induction false} TimesIsProduct(n: nat, x: real)
    ensures Times(n, x) == n as real * x
  {
    if n == 0 {
    } else {
      TimesIsProduct(n - 1, x);
      assert n as real * x == (n - 1) as real * x + x;
    }
  }

  /** One term more in the inequality between the square of a sum and the sum of squares:
      n times the difference of the two sides is a sum of three nonnegative terms. */
  lemma SquareStep(n: nat, s: real, q: real, y: real, s': real, q': real)
    requires Sq(s) <= Times(n, q) && q >= 0.0
    requires s' == s + y && q' == Sq(y) + q
    ensures Sq(s') <= Times(n + 1, q') && q' >= 0.0
  {
    SquareSign(y);
    TimesIsProduct(n, q);
    TimesIsProduct(n + 1, q');
    if n == 0 {
      SquareSign(s);
    } else {
      SquareStepArithmetic(n as real, s, q, y);
    }
  }

  lemma SquareStepArithmetic(n: real, s: real, q: real, y: real)
    requires n > 0.0 && s * s <= n * q
    ensures (s + y) * (s + y) <= (n + 1.0) * (y * y + q)
  {
    var gap, z := n * q - s * s, s - n * y;
    SquareSign(z);
    ScaledLe(n, 0.0, gap);
    SquareStepIdentity(n, s, q, y);
    ScaledLe(n, 0.0, (n + 1.0) * (y * y + q) - (s + y) * (s + y));
  }

  lemma SquareStepIdentity(n: real, s: real, q: real, y: real)
    ensures n * ((n + 1.0) * (y * y + q) - (s + y) * (s + y))
         == n * (n * q - s * s) + (n * q - s * s) + (s - n * y) * (s - n * y)
  {}

  /** The sum of the deviations of the counts from `mu`. */
  ghost function Deviations(m: Histogram, mu: real): real {
    if m == map[] then 0.0
    else
      var k :| k in m;
      m[k] as real - mu + Deviations(m - {k}, mu)
  }

  lemma {:induction false} DeviationsRemove(m: Histogram, mu: real, k: string)
    requires k in m
    ensures Deviations(m, mu) == m[k] as real - mu + Deviations(m - {k}, mu)
    decreases m
  {
    var p :| p in m && Deviations(m, mu) == m[p] as real - mu + Deviations(m - {p}, mu);
    if p == k {
    } else {
      DeviationsRemove(m - {p}, mu, k);
      DeviationsRemove(m - {k}, mu, p);
      RemovalCommutes(m, p, k);
    }
  }

  lemma {:induction false} DeviationsTotal(m: Histogram, mu: real)
    ensures Deviations(m, mu) == Total(m) as real - Times(|m|, mu)
    decreases m
  {
    if m == map[] {
    } else {
      var k :| k in m;
      DeviationsTotal(m - {k}, mu);
      DeviationsRemove(m, mu, k);
      TotalRemove(m, k);
      assert |m| == |m - {k}| + 1;
    }
  }

  /** The square of the sum of n deviations is at most n times the sum of their squares. */
  lemma {:induction false} SumSquared(m: Histogram, mu: real)
    ensures Squares(m, mu) >= 0.0
    ensures Sq(Deviations(m, mu)) <= Times(|m|, Squares(m, mu))
    decreases m
  {
    if m == map[] {
    } else {
      var k :| k in m;
      var rest := m - {k};
      assert |m| == |rest| + 1;
      SumSquared(rest, mu);
      DeviationsRemove(m, mu, k);
      SquaresRemove(m, mu, k);
      SquareStep(|rest|, Deviations(rest, mu), Squares(rest, mu), m[k] as real - mu,
                 Deviations(m, mu), Squares(m, mu));
    }
  }

  ghost function Mean(m: Histogram): real
    requires m != map[]
  {
    Total(m) as real / |m| as real
  }

  ghost function Variance(m: Histogram): real
    requires m != map[]
  {
    Squares(m, Mean(m)) / |m| as real
  }

  lemma AverageTimes(n: nat, sum: real)
    requires n > 0
    ensures Times(n, sum / n as real) == sum
  {
    TimesIsProduct(n, sum / n as real);
    DivideAndMultiply(sum, n as real);
  }

  lemma DeviationsFromMean(m: Histogram)
    requires m != map[]
    ensures Deviations(m, Mean(m)) == 0.0
    ensures Squares(m, Mean(m)) == Times(|m|, Variance(m))
  {
    DeviationsTotal(m, Mean(m));
    AverageTimes(|m|, Total(m) as real);
    AverageTimes(|m|, Squares(m, Mean(m)));
  }

  /** With the sum of squares split into one square and the others. */
  lemma SamuelsonIdentity(r: real, x: real, others: real, v: real)
    requires x + others == (r + 1.0) * v
    ensures r * others - x == (r + 1.0) * (r * v - x)
  {
    assert r * others == r * ((r + 1.0) * v) - r * x;
    assert r * ((r + 1.0) * v) == (r + 1.0) * (r * v);
  }

  lemma SameSign(n: real, a: real, b: real)
    requires n > 0.0 && a == n * b
    ensures a >= 0.0 <==> b >= 0.0
  {
    if b > 0.0 {
      ProductSign(n, b);
    } else if b < 0.0 {
      ProductSign(n, -b);
      assert n * -b == -a;
    }
  }

  lemma SamuelsonArithmetic(r: nat, d: real, others: real, v: real)
    requires Sq(d) + others == Times(r + 1, v)
    ensures Sq(d) <= Times(r, others) <==> Sq(d) <= Times(r, v)
  {
    TimesIsProduct(r + 1, v);
    TimesIsProduct(r, v);
    TimesIsProduct(r, others);
    var n, x := (r + 1) as real, Sq(d);
    SamuelsonIdentity(r as real, x, others, v);
    SameSign(n, Times(r, others) - x, Times(r, v) - x);
  }

  lemma SamuelsonEquality(r: nat, d: real, others: real, v: real)
    requires Sq(d) + others == Times(r + 1, v) && Sq(d) == Times(r, others)
    ensures Sq(d) == Times(r, v)
  {
    TimesIsProduct(r + 1, v);
    TimesIsProduct(r, v);
    TimesIsProduct(r, others);
    var n, x := (r + 1) as real, Sq(d);
    SamuelsonIdentity(r as real, x, others, v);
    SameSign(n, 0.0, Times(r, v) - x);
    SameSign(n, 0.0, x - Times(r, v));
  }

  lemma SamuelsonAt(m: Histogram, k: string, mu: real, v: real)
    requires k in m && Deviations(m, mu) == 0.0 && Squares(m, mu) == Times(|m|, v)
    ensures Sq(m[k] as real - mu) <= Times(|m| - 1, v)
  {
    var d, rest := m[k] as real - mu, m - {k};
    assert |rest| == |m| - 1;
    DeviationsRemove(m, mu, k);
    SquaresRemove(m, mu, k);
    SumSquared(rest, mu);
    SquareOfNegation(d, Deviations(rest, mu));
    SamuelsonArithmetic(|rest|, d, Squares(rest, mu), v);
  }

  /** Samuelson's inequality: no count is more than sqrt(n - 1) standard deviations from
      the mean of n counts. */
  lemma Samuelson(m: Histogram, k: string)
    requires k in m
    ensures Sq(m[k] as real - Mean(m)) <= (|m| - 1) as real * Variance(m)
  {
    DeviationsFromMean(m);
    SamuelsonAt(m, k, Mean(m), Variance(m));
    TimesIsProduct(|m| - 1, Variance(m));
  }

  lemma SquareOfNegation(x: real, y: real)
    requires x + y == 0.0
    ensures Sq(y) == Sq(x)
  {
    assert y == -x;
  }

  // ----- the detector

  datatype AnomalyKind = LatencySpike | ResourceExhaustion

  /** The z-score is `deviation / sqrt(variance)`. */
  datatype Anomaly = Anomaly(kind: AnomalyKind, deviation: real, variance: real)

  /** `z_score.abs() > threshold`, without the square root. */
  predicate Exceeds(deviation: real, variance: real, threshold: real) {
    threshold < 0.0 || Sq(deviation) > Sq(threshold) * variance
  }

  function Count(m: Histogram, syscall: string): nat {
    if syscall in m then m[syscall] else 0
  }

  ghost function Detect(m: Histogram, sampleCount: nat, syscall: string, threshold: real): Option<Anomaly> {
    if sampleCount < 10 || Total(m) == 0 then None
    else
      var deviation := Count(m, syscall) as real - Mean(m);
      if Variance(m) < 0.000001 || !Exceeds(deviation, Variance(m), threshold) then None
      else Some(Anomaly(if deviation > 0.0 then LatencySpike else ResourceExhaustion, deviation, Variance(m)))
  }

  /** For the standard deviation, the comparisons of squares are the comparisons of the
      program. */
  lemma ComparingSquares(deviation: real, variance: real, stdDev: real, threshold: real)
    requires stdDev >= 0.0 && stdDev * stdDev == variance
    ensures variance < 0.000001 <==> stdDev < 0.001
    ensures stdDev >= 0.001 ==>
              var z := deviation / stdDev;
              && (Exceeds(deviation, variance, threshold) <==> (if z < 0.0 then -z else z) > threshold)
              && (deviation > 0.0 <==> z > 0.0)
  {
    SquareOrder(stdDev, 0.001);
    SquareOrder(0.001, stdDev);
    if stdDev >= 0.001 {
      var z := deviation / stdDev;
      DivideAndMultiply(deviation, stdDev);
      var a := if z < 0.0 then -z else z;
      assert Sq(deviation) == Sq(a) * variance;
      if threshold >= 0.0 {
        SquareOrder(threshold, a);
        ScaledLe(variance, Sq(a), Sq(threshold));
      }
    }
  }

  lemma SquareOrder(a: real, b: real)
    requires a >= 0.0 && b >= 0.0
    ensures a < b <==> Sq(a) < Sq(b)
  {
    if a != b {
      var (x, y) := if a < b then (a, b) else (b, a);
      ProductSign(y - x, y + x);
      assert Sq(y) - Sq(x) == (y - x) * (y + x);
    }
  }

  /** Two syscalls, and n - 1 > threshold^2 unless the threshold is negative. */
  predicate ManyEnough(n: nat, threshold: real) {
    n >= 2 && (threshold >= 0.0 ==> (n - 1) as real > Sq(threshold))
  }

  /** A single syscall does not vary. */
  lemma AloneHasNoVariance(m: Histogram, k: string)
    requires k in m && |m| == 1
    ensures Variance(m) == 0.0
  {
    var d := m[k] as real - Mean(m);
    Samuelson(m, k);
    SquareSign(d);
    assert |m - {k}| == 0;
    SquaresRemove(m, Mean(m), k);
  }

  /** A syscall in the histogram is reported only among that many. */
  lemma ReportNeedsManySyscalls(m: Histogram, sampleCount: nat, syscall: string, threshold: real)
    requires syscall in m
    requires Detect(m, sampleCount, syscall, threshold).Some?
    ensures ManyEnough(|m|, threshold)
  {
    Samuelson(m, syscall);
    var v := Variance(m);
    ScaledLe(v, (|m| - 1) as real, Sq(threshold));
    if |m| == 1 {
      AloneHasNoVariance(m, syscall);
    }
  }

  // ----- the detector in whole numbers

  ghost function SquaredCounts(m: Histogram): nat {
    if m == map[] then 0
    else
      var k :| k in m;
      m[k] * m[k] + SquaredCounts(m - {k})
  }

  /** n^2 times the variance of n counts. */
  ghost function Spread(m: Histogram): int {
    |m| * SquaredCounts(m) - Total(m) * Total(m)
  }

  lemma {:induction false} SquaredRemove(m: Histogram, k: string)
    requires k in m
    ensures SquaredCounts(m) == m[k] * m[k] + SquaredCounts(m - {k})
    decreases m
  {
    var p :| p in m && SquaredCounts(m) == m[p] * m[p] + SquaredCounts(m - {p});
    if p == k {
    } else {
      SquaredRemove(m - {p}, k);
      SquaredRemove(m - {k}, p);
      RemovalCommutes(m, p, k);
    }
  }

  lemma SquareOfDifference(x: nat, mu: real)
    ensures Sq(x as real - mu) == (x * x) as real - 2.0 * Prod(mu, x as real) + Sq(mu)
  {}

  function Prod(a: real, b: real): real {
    a * b
  }

  lemma Distributes(a: real, b: real, c: real)
    ensures Prod(a, b + c) == Prod(a, b) + Prod(a, c)
  {}

  lemma {:induction false} SquaresExpanded(m: Histogram, mu: real)
    ensures Squares(m, mu) == SquaredCounts(m) as real - 2.0 * Prod(mu, Total(m) as real) + Times(|m|, Sq(mu))
    decreases m
  {
    if m == map[] {
      assert Prod(mu, 0.0) == 0.0;
    } else {
      var k :| k in m;
      var rest := m - {k};
      SquaresExpanded(rest, mu);
      SquaresRemove(m, mu, k);
      SquaredRemove(m, k);
      TotalRemove(m, k);
      SquareOfDifference(m[k], mu);
      Distributes(mu, m[k] as real, Total(rest) as real);
      assert |m| == |rest| + 1;
    }
  }

  lemma SpreadArithmetic(n: real, mu: real, t: real, q: real, squares: real)
    requires n * mu == t && squares == q - 2.0 * (mu * t) + n * (mu * mu)
    ensures n * squares == n * q - t * t
  {
    assert n * squares == n * q - 2.0 * (n * (mu * t)) + n * (n * (mu * mu));
    assert n * (mu * t) == (n * mu) * t;
    assert n * (n * (mu * mu)) == (n * mu) * (n * mu);
  }

  lemma CastProduct(a: int, b: int)
    ensures (a * b) as real == a as real * b as real
  {}

  lemma CastSpread(n: nat, t: int, q: int)
    ensures (n * q - t * t) as real == n as real * q as real - t as real * t as real
  {
    CastProduct(n, q);
    CastProduct(t, t);
  }

  lemma SpreadOfNumbers(n: nat, mu: real, t: int, q: int, squares: real)
    requires Times(n, mu) == t as real
    requires squares == q as real - 2.0 * Prod(mu, t as real) + Times(n, Sq(mu))
    ensures Times(n, squares) == (n * q - t * t) as real
  {
    TimesIsProduct(n, mu);
    TimesIsProduct(n, Sq(mu));
    TimesIsProduct(n, squares);
    SpreadArithmetic(n as real, mu, t as real, q as real, squares);
    CastSpread(n, t, q);
  }

  lemma SpreadAt(m: Histogram, mu: real, v: real)
    requires Times(|m|, mu) == Total(m) as real && Squares(m, mu) == Times(|m|, v)
    ensures Times(|m|, Times(|m|, v)) == Spread(m) as real
  {
    SquaresExpanded(m, mu);
    SpreadOfNumbers(|m|, mu, Total(m), SquaredCounts(m), Squares(m, mu));
  }

  lemma SpreadIsVariance(m: Histogram)
    requires m != map[]
    ensures Times(|m|, Times(|m|, Variance(m))) == Spread(m) as real
  {
    AverageTimes(|m|, Total(m) as real);
    AverageTimes(|m|, Squares(m, Mean(m)));
    SpreadAt(m, Mean(m), Variance(m));
  }

  /** n times the deviation from the mean. */
  ghost function Excess(m: Histogram, syscall: string): int {
    |m| * Count(m, syscall) - Total(m)
  }

  lemma ExcessOfNumbers(n: nat, c: int, mu: real, t: int)
    requires Times(n, mu) == t as real
    ensures Times(n, c as real - mu) == (n * c - t) as real
  {
    TimesIsProduct(n, mu);
    TimesIsProduct(n, c as real - mu);
    CastProduct(n, c);
    assert n as real * (c as real - mu) == n as real * c as real - n as real * mu;
  }

  lemma ComparisonScaled(n: real, d: real, v: real, t: real)
    requires n > 0.0
    ensures Sq(d) > t * v <==> Sq(n * d) > t * (n * (n * v))
  {
    ProductSign(n, n);
    ScaledLe(n * n, Sq(d), t * v);
    assert (n * n) * Sq(d) == Sq(n * d);
    assert (n * n) * (t * v) == t * (n * (n * v));
  }

  lemma FloorScaled(n: real, v: real, w: real)
    requires n > 0.0 && w == n * (n * v)
    ensures v < 0.000001 <==> 1000000.0 * w < n * n
  {
    ProductSign(n, n);
    ScaledLe(n * n, 0.000001, v);
    assert (n * n) * v == w;
  }

  lemma SignScaled(n: real, d: real)
    requires n > 0.0
    ensures d > 0.0 <==> n * d > 0.0
    ensures d == 0.0 <==> n * d == 0.0
  {
    ScaledLe(n, d, 0.0);
    ScaledLe(n, 0.0, d);
  }

  lemma WholeNumbers(n: nat, spread: int)
    ensures 1000000.0 * spread as real < n as real * n as real <==> 1000000 * spread < n * n
  {
    CastProduct(n, n);
    assert (1000000 * spread) as real == 1000000.0 * spread as real;
  }

  /** The detector's three comparisons, for n calls with this deviation and variance. */
  lemma FloorCompared(n: nat, v: real, spread: int)
    requires n > 0 && Times(n, Times(n, v)) == spread as real
    ensures v < 0.000001 <==> 1000000 * spread < n * n
  {
    TimesIsProduct(n, v);
    TimesIsProduct(n, Times(n, v));
    FloorScaled(n as real, v, spread as real);
    WholeNumbers(n, spread);
  }

  /** The z-score is above the threshold, with n times the deviation and n^2 times the
      variance. */
  predicate ScoreAbove(excess: int, spread: int, threshold: real) {
    threshold < 0.0 || Sq(excess as real) > Sq(threshold) * spread as real
  }

  lemma ScoreCompared(n: nat, d: real, v: real, threshold: real, excess: int, spread: int)
    requires n > 0 && Times(n, d) == excess as real && Times(n, Times(n, v)) == spread as real
    ensures Exceeds(d, v, threshold) <==> ScoreAbove(excess, spread, threshold)
  {
    TimesIsProduct(n, d);
    TimesIsProduct(n, v);
    TimesIsProduct(n, Times(n, v));
    ComparisonScaled(n as real, d, v, Sq(threshold));
  }

  lemma SignCompared(n: nat, d: real, excess: int)
    requires n > 0 && Times(n, d) == excess as real
    ensures d > 0.0 <==> excess > 0
  {
    TimesIsProduct(n, d);
    SignScaled(n as real, d);
  }

  lemma DetectAt(
    m: Histogram, sampleCount: nat, syscall: string, threshold: real, d: real, v: real, excess: int, spread: int)
    requires m != map[] && d == Count(m, syscall) as real - Mean(m) && v == Variance(m)
    requires Times(|m|, d) == excess as real && Times(|m|, Times(|m|, v)) == spread as real
    ensures Detect(m, sampleCount, syscall, threshold) ==
            if sampleCount >= 10 && Total(m) > 0
               && 1000000 * spread >= |m| * |m| && ScoreAbove(excess, spread, threshold)
            then Some(Anomaly(if excess > 0 then LatencySpike else ResourceExhaustion, d, v))
            else None
  {
    FloorCompared(|m|, v, spread);
    ScoreCompared(|m|, d, v, threshold, excess, spread);
    SignCompared(|m|, d, excess);
  }

  /** Exactly what is reported, by the counts alone: at least 10 samples; a variance of at least
      a millionth; and n times the deviation, squared, above the squared threshold times n^2
      times the variance.  A call above the average is a spike, another one exhaustion. */
  lemma DetectIff(m: Histogram, sampleCount: nat, syscall: string, threshold: real)
    ensures Detect(m, sampleCount, syscall, threshold).Some? <==>
              && sampleCount >= 10 && Total(m) > 0
              && 1000000 * Spread(m) >= |m| * |m|
              && ScoreAbove(Excess(m, syscall), Spread(m), threshold)
    ensures Detect(m, sampleCount, syscall, threshold).Some? ==>
              var a := Detect(m, sampleCount, syscall, threshold).value;
              && (a.kind == LatencySpike <==> Count(m, syscall) * |m| > Total(m))
              && (a.kind == ResourceExhaustion <==> Count(m, syscall) * |m| <= Total(m))
              && Times(|m|, a.deviation) == Excess(m, syscall) as real
              && Times(|m|, Times(|m|, a.variance)) == Spread(m) as real
  {
    if m == map[] {
    } else {
      var d, v := Count(m, syscall) as real - Mean(m), Variance(m);
      SpreadIsVariance(m);
      AverageTimes(|m|, Total(m) as real);
      ExcessOfNumbers(|m|, Count(m, syscall), Mean(m), Total(m));
      DetectAt(m, sampleCount, syscall, threshold, d, v, Excess(m, syscall), Spread(m));
    }
  }

  /** With a threshold that is not negative, a call at the average is not reported. */
  lemma AverageIsNotReported(m: Histogram, sampleCount: nat, syscall: string, threshold: real)
    requires threshold >= 0.0 && Detect(m, sampleCount, syscall, threshold).Some?
    ensures Count(m, syscall) * |m| != Total(m)
  {
    DetectIff(m, sampleCount, syscall, threshold);
    if Spread(m) > 0 {
      NotAbove(Spread(m), threshold);
    }
  }

  lemma NotAbove(spread: int, threshold: real)
    requires threshold >= 0.0 && spread >= 0
    ensures !ScoreAbove(0, spread, threshold)
  {
    SquareSign(threshold);
    if spread > 0 {
      ScaledLe(spread as real, 0.0, Sq(threshold));
    }
  }

  // ----- the bound is sharp

  /** All syscalls but `k` have the count `b`. */
  predicate TwoLevel(m: Histogram, k: string, b: nat) {
    k in m && forall j | j in m && j != k :: m[j] == b
  }

  lemma {:induction false} ConstantSums(m: Histogram, b: nat, mu: real)
    requires forall j | j in m :: m[j] == b
    ensures Deviations(m, mu) == Times(|m|, b as real - mu)
    ensures Squares(m, mu) == Times(|m|, Sq(b as real - mu))
    decreases m
  {
    if m == map[] {
    } else {
      var k :| k in m;
      var rest := m - {k};
      ConstantSums(rest, b, mu);
      DeviationsRemove(m, mu, k);
      SquaresRemove(m, mu, k);
      assert |m| == |rest| + 1;
    }
  }

  lemma ExtremeArithmetic(r: nat, d: real, e: real, others: real, gap: real)
    requires d + Times(r, e) == 0.0 && others == Times(r, Sq(e)) && gap == d - e
    ensures Sq(d) == Times(r, others)
    ensures Times(r + 1, d) == Times(r, gap)
  {
    TimesIsProduct(r, e);
    TimesIsProduct(r, Sq(e));
    TimesIsProduct(r, others);
    TimesIsProduct(r + 1, d);
    TimesIsProduct(r, gap);
    var r' := r as real;
    assert d == -(r' * e);
    assert d * d == (r' * e) * (r' * e) == r' * (r' * (e * e));
    assert (r + 1) as real * d == r' * d + d;
  }

  lemma TwoLevelAt(m: Histogram, k: string, b: nat, mu: real, v: real)
    requires TwoLevel(m, k, b) && Deviations(m, mu) == 0.0 && Squares(m, mu) == Times(|m|, v)
    ensures Sq(m[k] as real - mu) == Times(|m| - 1, v)
    ensures Times(|m|, m[k] as real - mu) == Times(|m| - 1, m[k] as real - b as real)
  {
    var d, e, rest := m[k] as real - mu, b as real - mu, m - {k};
    assert |rest| == |m| - 1;
    DeviationsRemove(m, mu, k);
    SquaresRemove(m, mu, k);
    ConstantSums(rest, b, mu);
    ExtremeArithmetic(|rest|, d, e, Squares(rest, mu), m[k] as real - b as real);
    SamuelsonEquality(|rest|, d, Squares(rest, mu), v);
  }

  /** Equality in Samuelson's inequality: one syscall against equal others. */
  lemma TwoLevelIsExtreme(m: Histogram, k: string, b: nat)
    requires TwoLevel(m, k, b)
    ensures Sq(m[k] as real - Mean(m)) == Times(|m| - 1, Variance(m))
  {
    DeviationsFromMean(m);
    TwoLevelAt(m, k, b, Mean(m), Variance(m));
  }

  /** Four syscalls seen 5 times and one seen 80 times: z is exactly the default threshold,
      which is not reported. */
  lemma EightyAndFourFives(m: Histogram, k: string)
    requires TwoLevel(m, k, 5) && m[k] == 80 && |m| == 5
    ensures Sq(m[k] as real - Mean(m)) == Sq(2.0) * Variance(m)
    ensures Detect(m, Total(m), k, 2.0) == None
  {
    TwoLevelIsExtreme(m, k, 5);
    TimesIsProduct(4, Variance(m));
  }

  function Name(i: nat): string {
    seq(i, _ => 'x')
  }

  function Names(n: nat): set<string> {
    set j | 0 <= j < n :: Name(j)
  }

  /** `n` syscalls, the first seen `top` times and the others once. */
  function Peak(n: nat, top: nat): Histogram {
    map i: string | i in Names(n) :: if i == Name(0) then top else 1
  }

  lemma {:induction false} NamesCount(n: nat)
    ensures |Names(n)| == n
  {
    if n == 0 {
    } else {
      NamesCount(n - 1);
      assert forall x | x in Names(n - 1) :: |x| < n - 1;
      assert |Name(n - 1)| == n - 1;
      assert Names(n) == Names(n - 1) + {Name(n - 1)};
    }
  }

  lemma PeakArithmetic(r: nat, d: real, gap: real, v: real, threshold: real)
    requires r >= 1 && gap == 10.0 * (r + 1) as real
    requires Times(r + 1, d) == Times(r, gap) && Sq(d) == Times(r, v)
    requires ManyEnough(r + 1, threshold)
    ensures v >= 100.0 && Exceeds(d, v, threshold)
  {
    TimesIsProduct(r + 1, d);
    TimesIsProduct(r, gap);
    TimesIsProduct(r, v);
    var r', n := r as real, (r + 1) as real;
    assert r' * gap == n * (10.0 * r');
    ScaledLe(n, d, 10.0 * r');
    ScaledLe(n, 10.0 * r', d);
    assert d == 10.0 * r';
    assert r' * v == r' * (100.0 * r');
    ScaledLe(r', 100.0 * r', v);
    ScaledLe(v, r', Sq(threshold));
  }

  lemma PeakAt(m: Histogram, k: string, mu: real, v: real, threshold: real)
    requires TwoLevel(m, k, 1) && Deviations(m, mu) == 0.0 && Squares(m, mu) == Times(|m|, v)
    requires m[k] == 10 * |m| + 1 && ManyEnough(|m|, threshold)
    ensures v >= 100.0 && Exceeds(m[k] as real - mu, v, threshold)
  {
    TwoLevelAt(m, k, 1, mu, v);
    PeakArithmetic(|m| - 1, m[k] as real - mu, m[k] as real - 1.0, v, threshold);
  }

  lemma PeakIsReported(n: nat, threshold: real)
    requires ManyEnough(n, threshold)
    ensures var m := Peak(n, 10 * n + 1);
            |m| == n && Name(0) in m && Detect(m, Total(m), Name(0), threshold).Some?
  {
    var m := Peak(n, 10 * n + 1);
    NamesCount(n);
    assert m.Keys == Names(n);
    TotalRemove(m, Name(0));
    DeviationsFromMean(m);
    PeakAt(m, Name(0), Mean(m), Variance(m), threshold);
  }

  /** Some histogram of n syscalls gets one of them reported exactly when n is 2 or more and,
      unless the threshold is negative, n - 1 exceeds its square. */
  lemma ReportableIff(n: nat, threshold: real)
    ensures (exists m: Histogram, k ::
               |m| == n && k in m && Detect(m, Total(m), k, threshold).Some?)
       <==> n >= 2 && (threshold >= 0.0 ==> (n - 1) as real > Sq(threshold))
  {
    if ManyEnough(n, threshold) {
      PeakIsReported(n, threshold);
    }
    forall m: Histogram, k | |m| == n && k in m && Detect(m, Total(m), k, threshold).Some?
      ensures ManyEnough(n, threshold)
    {
      ReportNeedsManySyscalls(m, Total(m), k, threshold);
    }
  }

  // ----- anti-patterns

  datatype AntiPattern = BusyPolling | LockContention | MemoryChurn

  const POLL_CALLS := ["poll", "select", "epoll_wait", "epoll_pwait", "pselect6"]
  const MEMORY_CALLS := ["brk", "mmap", "munmap"]

  function CountAll(m: Histogram, syscalls: seq<string>): nat {
    if syscalls == [] then 0 else Count(m, syscalls[0]) + CountAll(m, syscalls[1..])
  }

  /** More than the given share of all samples, and more than `least` of them. */
  ghost predicate Excessive(m: Histogram, count: nat, share: real, least: nat) {
    Total(m) > 0 && count as real / Total(m) as real > share && count > least
  }

  ghost predicate Shows(m: Histogram, p: AntiPattern) {
    match p
    case BusyPolling => Excessive(m, CountAll(m, POLL_CALLS), 0.5, 100)
    case LockContention => Excessive(m, Count(m, "futex"), 0.3, 100)
    case MemoryChurn => Excessive(m, CountAll(m, MEMORY_CALLS), 0.2, 50)
  }

  /** The anti-patterns of a histogram, in the order they are reported. */
  ghost function Reported(m: Histogram): seq<AntiPattern> {
    (if Shows(m, BusyPolling) then [BusyPolling] else [])
    + (if Shows(m, LockContention) then [LockContention] else [])
    + (if Shows(m, MemoryChurn) then [MemoryChurn] else [])
  }

  lemma {:induction false} CountAllWithout(m: Histogram, k: string, names: seq<string>)
    requires k !in names
    ensures CountAll(m - {k}, names) == CountAll(m, names)
  {
    if names == [] {
    } else {
      CountAllWithout(m, k, names[1..]);
    }
  }

  lemma {:induction false} DistinctNamesAreAPart(m: Histogram, names: seq<string>)
    requires NoRepeats(names)
    ensures CountAll(m, names) <= Total(m)
    decreases |names|
  {
    if names == [] {
    } else {
      var k, rest := names[0], names[1..];
      if k in m {
        DistinctNamesAreAPart(m - {k}, rest);
        CountAllWithout(m, k, rest);
        TotalRemove(m, k);
      } else {
        DistinctNamesAreAPart(m, rest);
      }
    }
  }

  /** Where only one of the names is in the histogram, the group's count is its count. */
  lemma {:induction false} CountOnly(m: Histogram, k: string, names: seq<string>, i: nat)
    requires i < |names| && names[i] == k && forall j | 0 <= j < |names| && j != i :: names[j] !in m
    ensures CountAll(m, names) == Count(m, k)
    decreases |names|
  {
    if i > 0 {
      assert names[0] !in m;
      CountOnly(m, k, names[1..], i - 1);
    } else {
      NoneCounted(m, names[1..]);
    }
  }

  lemma {:induction false} NoneCounted(m: Histogram, names: seq<string>)
    requires forall j | 0 <= j < |names| :: names[j] !in m
    ensures CountAll(m, names) == 0
  {
    if names == [] {
    } else {
      assert names[0] !in m;
      NoneCounted(m, names[1..]);
    }
  }

  lemma {:induction false} CountAllConcat(m: Histogram, a: seq<string>, b: seq<string>)
    ensures CountAll(m, a + b) == CountAll(m, a) + CountAll(m, b)
  {
    if a == [] {
      assert a + b == b;
    } else {
      CountAllConcat(m, a[1..], b);
      assert (a + b)[1..] == a[1..] + b;
    }
  }

  /** Each pattern, by the counts of its calls: more than half of all samples are polls, and
      more than 100; more than three tenths are futexes, and more than 100; more than a fifth
      are allocations, and more than 50. */
  lemma ShowsIff(m: Histogram)
    ensures var polls := Count(m, "poll") + Count(m, "select") + Count(m, "epoll_wait")
                         + Count(m, "epoll_pwait") + Count(m, "pselect6");
            Shows(m, BusyPolling) <==> 2 * polls > Total(m) && polls > 100
    ensures var futexes := Count(m, "futex");
            Shows(m, LockContention) <==> 10 * futexes > 3 * Total(m) && futexes > 100
    ensures var allocations := Count(m, "brk") + Count(m, "mmap") + Count(m, "munmap");
            Shows(m, MemoryChurn) <==> 5 * allocations > Total(m) && allocations > 50
  {
    NamesAreDistinct();
    GroupsAreDistinct(POLL_CALLS, ["futex"], MEMORY_CALLS);
    FiveCounts(m, POLL_CALLS);
    ThreeCounts(m, MEMORY_CALLS);
    OneCount(m, "futex");
    ExcessiveIff(m, POLL_CALLS, 1, 2, 100);
    ExcessiveIff(m, ["futex"], 3, 10, 100);
    ExcessiveIff(m, MEMORY_CALLS, 1, 5, 50);
  }

  lemma ExcessiveIff(m: Histogram, names: seq<string>, num: nat, den: nat, least: nat)
    requires NoRepeats(names) && den > 0
    ensures var count := CountAll(m, names);
            Excessive(m, count, num as real / den as real, least) <==> den * count > num * Total(m) && count > least
  {
    DistinctNamesAreAPart(m, names);
    ShareIs(CountAll(m, names), Total(m), num, den);
  }

  lemma OneCount(m: Histogram, name: string)
    ensures CountAll(m, [name]) == Count(m, name)
  {
    assert CountAll(m, [name]) == Count(m, name) + CountAll(m, [name][1..]);
  }

  lemma FiveCounts(m: Histogram, names: seq<string>)
    requires |names| == 5
    ensures CountAll(m, names) ==
            Count(m, names[0]) + Count(m, names[1]) + Count(m, names[2]) + Count(m, names[3]) + Count(m, names[4])
  {
    ThreeCounts(m, names[2..]);
    assert CountAll(m, names[1..]) == Count(m, names[1]) + CountAll(m, names[1..][1..]);
    assert names[1..][1..] == names[2..];
  }

  lemma ThreeCounts(m: Histogram, names: seq<string>)
    requires |names| == 3
    ensures CountAll(m, names) == Count(m, names[0]) + Count(m, names[1]) + Count(m, names[2])
  {
    assert CountAll(m, names[1..]) == Count(m, names[1]) + CountAll(m, names[1..][1..]);
    assert CountAll(m, names[1..][1..]) == Count(m, names[2]) + CountAll(m, names[1..][1..][1..]);
  }

  lemma GroupsAreDistinct(a: seq<string>, b: seq<string>, c: seq<string>)
    requires NoRepeats(a + b + c)
    ensures NoRepeats(a) && NoRepeats(b) && NoRepeats(c)
  {
    var all := a + b + c;
    assert forall i | 0 <= i < |a| :: a[i] == all[i];
    assert forall i | 0 <= i < |b| :: b[i] == all[|a| + i];
    assert forall i | 0 <= i < |c| :: c[i] == all[|a| + |b| + i];
  }

  lemma ShareIs(part: nat, total: nat, num: nat, den: nat)
    requires den > 0
    ensures total > 0 ==> (part as real / total as real > num as real / den as real <==> den * part > num * total)
  {
    if total > 0 {
      var t, d, p, n := total as real, den as real, part as real, num as real;
      DivideAndMultiply(p, t);
      DivideAndMultiply(n, d);
      ScaledLe(t, p / t, n / d);
      ScaledLe(d, p, t * (n / d));
      assert d * (t * (n / d)) == t * (d * (n / d));
      assert (den * part) as real == d * p && (num * total) as real == n * t;
    }
  }

  /** The report lists exactly the patterns shown, in this order. */
  lemma ReportedInOrder(m: Histogram)
    ensures forall p :: p in Reported(m) <==> Shows(m, p)
    ensures NoRepeats(Reported(m))
    ensures forall i, j | 0 <= i < j < |Reported(m)| ::
              Reported(m)[i] == BusyPolling || Reported(m)[j] == MemoryChurn
  {
    var b := if Shows(m, BusyPolling) then [BusyPolling] else [];
    var l := if Shows(m, LockContention) then [LockContention] else [];
    var c := if Shows(m, MemoryChurn) then [MemoryChurn] else [];
    assert Reported(m) == b + l + c;
    forall p: AntiPattern ensures p in Reported(m) <==> Shows(m, p) {
      assert p in b + l + c <==> p in b || p in l || p in c;
      match p
      case BusyPolling =>
      case LockContention =>
      case MemoryChurn =>
    }
  }

  /** No histogram shows all three anti-patterns: their syscalls are different ones, and
      half, three tenths and a fifth make up the whole. */
  lemma NeverAllThree(m: Histogram)
    ensures !(Shows(m, BusyPolling) && Shows(m, LockContention) && Shows(m, MemoryChurn))
  {
    var names := POLL_CALLS + ["futex"] + MEMORY_CALLS;
    NamesAreDistinct();
    DistinctNamesAreAPart(m, names);
    CountAllConcat(m, POLL_CALLS + ["futex"], MEMORY_CALLS);
    CountAllConcat(m, POLL_CALLS, ["futex"]);
    assert CountAll(m, ["futex"]) == Count(m, "futex") + CountAll(m, ["futex"][1..]);
    if Total(m) > 0 {
      SharesAddUp(CountAll(m, POLL_CALLS), Count(m, "futex"), CountAll(m, MEMORY_CALLS), Total(m));
    }
  }

  lemma SharesAddUp(p: nat, f: nat, c: nat, t: nat)
    requires t > 0 && p + f + c <= t
    ensures !(p as real / t as real > 0.5 && f as real / t as real > 0.3 && c as real / t as real > 0.2)
  {}

  lemma NamesAreDistinct()
    ensures NoRepeats(POLL_CALLS + ["futex"] + MEMORY_CALLS)
  {
    var names := POLL_CALLS + ["futex"] + MEMORY_CALLS;
    assert |names[0]| == 4 && |names[1]| == 6 && |names[2]| == 10 && |names[3]| == 11 && |names[4]| == 8;
    assert |names[5]| == 5 && |names[6]| == 3 && |names[7]| == 4 && |names[8]| == 6;
    assert names[0][0] == 'p' && names[7][0] == 'm' && names[1][0] == 's' && names[8][0] == 'm';
  }

  /** As tracers count: no call is in the histogram without a sample. */
  predicate Sampled(m: Histogram) {
    forall k | k in m :: m[k] > 0
  }

  /** With `n` samples of one more call. */
  function With(m: Histogram, name: string, n: nat): Histogram {
    if n == 0 then m else m[name := n]
  }

  lemma WithCounts(m: Histogram, name: string, n: nat)
    requires name !in m
    ensures Total(With(m, name, n)) == Total(m) + n
    ensures Sampled(m) ==> Sampled(With(m, name, n))
  {
    if n > 0 {
      TotalRemove(m[name := n], name);
      assert m[name := n] - {name} == m;
    }
  }

  /** A thousand samples, so many of them polls, futexes and allocations. */
  function Mix(polls: nat, futexes: nat, allocations: nat): Histogram
    requires polls + futexes + allocations <= 1000
  {
    var rest := 1000 - polls - futexes - allocations;
    With(With(With(With(map[], "read", rest), "brk", allocations), "futex", futexes), "poll", polls)
  }

  lemma FourNames()
    ensures NoRepeats(["poll", "futex", "brk", "read"])
  {
    var names := ["poll", "futex", "brk", "read"];
    assert |names[1]| == 5 && |names[2]| == 3 && names[0][0] == 'p' && names[3][0] == 'r';
  }

  lemma MixTotal(polls: nat, futexes: nat, allocations: nat)
    requires polls + futexes + allocations <= 1000
    ensures Total(Mix(polls, futexes, allocations)) == 1000 && Sampled(Mix(polls, futexes, allocations))
  {
    FourNames();
    var reading := With(map[], "read", 1000 - polls - futexes - allocations);
    var allocating := With(reading, "brk", allocations);
    WithCounts(map[], "read", 1000 - polls - futexes - allocations);
    WithCounts(reading, "brk", allocations);
    WithCounts(allocating, "futex", futexes);
    WithCounts(With(allocating, "futex", futexes), "poll", polls);
  }

  lemma MixCounts(polls: nat, futexes: nat, allocations: nat)
    requires polls + futexes + allocations <= 1000
    ensures var m := Mix(polls, futexes, allocations);
            CountAll(m, POLL_CALLS) == polls && Count(m, "futex") == futexes && CountAll(m, MEMORY_CALLS) == allocations
  {
    var m := Mix(polls, futexes, allocations);
    FourNames();
    NamesAreDistinct();
    CountOnly(m, "poll", POLL_CALLS, 0);
    CountOnly(m, "brk", MEMORY_CALLS, 0);
  }

  /** The histogram shows exactly these anti-patterns. */
  ghost predicate ShowsExactly(m: Histogram, polling: bool, contention: bool, churn: bool) {
    && Shows(m, BusyPolling) == polling
    && Shows(m, LockContention) == contention
    && Shows(m, MemoryChurn) == churn
  }

  /** Every combination of anti-patterns but all three together is shown by some histogram. */
  lemma CombinationIff(polling: bool, contention: bool, churn: bool)
    ensures (exists m :: Sampled(m) && ShowsExactly(m, polling, contention, churn))
       <==> !(polling && contention && churn)
  {
    if polling && contention && churn {
      forall m ensures !ShowsExactly(m, true, true, true) {
        NeverAllThree(m);
      }
    } else {
      var polls, futexes := if polling then 600 else 0, if contention then 350 else 0;
      var allocations := if churn then 250 else 0;
      MixTotal(polls, futexes, allocations);
      MixCounts(polls, futexes, allocations);
      assert ShowsExactly(Mix(polls, futexes, allocations), polling, contention, churn);
    }
  }

  /** Counting one more call raises the total by one. */
  lemma TotalCounted(m: Histogram, name: string)
    ensures Total(m[name := Count(m, name) + 1]) == Total(m) + 1
  {
    var counted := m[name := Count(m, name) + 1];
    TotalRemove(counted, name);
    assert counted - {name} == m - {name};
    if name in m {
      TotalRemove(m, name);
    } else {
      assert m - {name} == m;
    }
  }

  // ----- the class

  datatype Collected = NotAttached | Report(anomaly: Option<Anomaly>, patterns: seq<AntiPattern>)

  class DaemonTracer {
    var attachedPid: Option<nat>
    var syscallCounts: Histogram
    var sampleCount: nat
    const anomalyThreshold: real

    /** The sample count is the sum of the histogram. */
    ghost predicate Valid()
      reads this
    {
      sampleCount == Total(syscallCounts)
    }

    constructor (threshold: real)
      ensures Valid() && attachedPid == None && syscallCounts == map[] && anomalyThreshold == threshold
    {
      attachedPid, syscallCounts, sampleCount := None, map[], 0;
      anomalyThreshold := threshold;
    }

    method Attach(pid: nat, processExists: bool) returns (ok: bool)
      requires Valid()
      modifies this
      ensures Valid() && ok == processExists
      ensures if ok then attachedPid == Some(pid) && syscallCounts == map[]
              else attachedPid == old(attachedPid) && syscallCounts == old(syscallCounts)
    {
      if !processExists {
        return false;
      }
      attachedPid, syscallCounts, sampleCount := Some(pid), map[], 0;
      return true;
    }

    method Detach()
      requires Valid()
      modifies this
      ensures Valid() && attachedPid == None && syscallCounts == map[]
    {
      attachedPid, syscallCounts, sampleCount := None, map[], 0;
    }

    /** `observed` is the syscall read from the process, if it could be read. */
    method Collect(observed: Option<string>) returns (r: Collected)
      requires Valid()
      modifies this
      ensures Valid() && attachedPid == old(attachedPid)
      ensures r.NotAttached? <==> attachedPid == None
      ensures r.NotAttached? || observed == None ==> syscallCounts == old(syscallCounts)
      ensures r.Report? && observed.Some? ==>
                syscallCounts == old(syscallCounts)[observed.value := Count(old(syscallCounts), observed.value) + 1]
      ensures r.Report? && observed.Some? ==>
                r.anomaly == Detect(syscallCounts, sampleCount, observed.value, anomalyThreshold)
      ensures r.Report? && r.anomaly.Some? ==> observed.Some? && ManyEnough(|syscallCounts|, anomalyThreshold)
      ensures r.Report? && r.anomaly.Some? && anomalyThreshold == 2.0 ==> |syscallCounts| >= 6
      ensures r.Report? ==> r.patterns == Reported(syscallCounts) && |r.patterns| <= 2
    {
      if attachedPid == None {
        return NotAttached;
      }
      var anomaly := None;
      if observed.Some? {
        var name := observed.value;
        TotalCounted(syscallCounts, name);
        syscallCounts := syscallCounts[name := Count(syscallCounts, name) + 1];
        sampleCount := sampleCount + 1;
        anomaly := DetectFrequencyAnomaly(name);
        if anomaly.Some? {
          ReportNeedsManySyscalls(syscallCounts, sampleCount, name, anomalyThreshold);
        }
      }
      var patterns := DetectAntiPatterns();
      return Report(anomaly, patterns);
    }

    method SumOfCounts() returns (total: nat)
      ensures total == Total(syscallCounts)
    {
      total := 0;
      var rest := syscallCounts;
      while rest != map[]
        invariant total + Total(rest) == Total(syscallCounts)
        decreases rest
      {
        var k :| k in rest;
        TotalRemove(rest, k);
        total := total + rest[k];
        rest := rest - {k};
      }
    }

    method SumOfSquares(mu: real) returns (sum: real)
      ensures sum == Squares(syscallCounts, mu)
    {
      sum := 0.0;
      var rest := syscallCounts;
      while rest != map[]
        invariant sum + Squares(rest, mu) == Squares(syscallCounts, mu)
        decreases rest
      {
        var k :| k in rest;
        SquaresRemove(rest, mu, k);
        var diff := rest[k] as real - mu;
        sum := sum + Sq(diff);
        rest := rest - {k};
      }
    }

    method DetectFrequencyAnomaly(syscall: string) returns (a: Option<Anomaly>)
      ensures a == Detect(syscallCounts, sampleCount, syscall, anomalyThreshold)
    {
      if sampleCount < 10 {
        return None;
      }
      var current := Count(syscallCounts, syscall);
      var total := SumOfCounts();
      if total == 0 {
        return None;
      }
      var n := |syscallCounts| as real;
      var expected := total as real / n;
      var squares := SumOfSquares(expected);
      var variance := squares / n;
      if variance < 0.000001 {
        return None;
      }
      var deviation := current as real - expected;
      if Exceeds(deviation, variance, anomalyThreshold) {
        return Some(Anomaly(if deviation > 0.0 then LatencySpike else ResourceExhaustion, deviation, variance));
      }
      return None;
    }

    method DetectAntiPatterns() returns (patterns: seq<AntiPattern>)
      ensures patterns == Reported(syscallCounts) && |patterns| <= 2
    {
      patterns := [];
      var total := SumOfCounts();
      if total == 0 {
        return;
      }
      NeverAllThree(syscallCounts);
      var pollCount := CountAll(syscallCounts, POLL_CALLS);
      if pollCount as real / total as real > 0.5 && pollCount > 100 {
        patterns := patterns + [BusyPolling];
      }
      var futexCount := Count(syscallCounts, "futex");
      if futexCount as real / total as real > 0.3 && futexCount > 100 {
        patterns := patterns + [LockContention];
      }
      var memoryCount := CountAll(syscallCounts, MEMORY_CALLS);
      if memoryCount as real / total as real > 0.2 && memoryCount > 50 {
        patterns := patterns + [MemoryChurn];
      }
    }
  }
}
