/** The growth trend of a sampled cgroup: an ordinary least-squares line through
    the buffered readings, and the time at which that line meets the limit.
    Floating point is modelled by exact reals. */
module Trend {
  import opened Common
  import opened CgroupStats
  import opened RealVectors

  const MIN_TREND_SAMPLES: nat := 2

  datatype Trend = Trend(
    bytesPerSecond: real,
    rSquared: real,
    samples: nat,
    window: int,
    timeToLimit: int,
    projected: bool)

  function Seconds(d: int): real {
    d as real / SECOND as real
  }

  /** Seconds since the origin. */
  function Xs(samples: seq<Sample>, origin: int): (r: seq<real>)
    ensures |r| == |samples|
    ensures forall i | 0 <= i < |r| :: r[i] == Seconds(TimeSub(samples[i].time, origin))
  {
    seq(|samples|, i requires 0 <= i < |samples| => Seconds(TimeSub(samples[i].time, origin)))
  }

  /** Bytes in use. */
  function Ys(samples: seq<Sample>): (r: seq<real>)
    ensures |r| == |samples|
    ensures forall i | 0 <= i < |r| :: r[i] == samples[i].stats.current as real
  {
    seq(|samples|, i requires 0 <= i < |samples| => samples[i].stats.current as real)
  }

  // ---- what a fit means, independently of how it is computed ----

  /** How far each point lies above the line y = a + b*x. */
  function Deviations(xs: seq<real>, ys: seq<real>, a: real, b: real): (r: seq<real>)
    requires |xs| == |ys|
    ensures |r| == |xs|
    ensures forall i | 0 <= i < |r| :: r[i] == ys[i] - (a + Mul(b, xs[i]))
  {
    seq(|xs|, i requires 0 <= i < |xs| => ys[i] - (a + Mul(b, xs[i])))
  }

  /** The residual sum of squares of the line y = a + b*x. */
  function Residual(xs: seq<real>, ys: seq<real>, a: real, b: real): real
    requires |xs| == |ys|
  {
    var d := Deviations(xs, ys, a, b);
    Dot(d, d, |xs|)
  }

  ghost predicate Varied(v: seq<real>) {
    exists i, j | 0 <= i < |v| && 0 <= j < |v| :: v[i] != v[j]
  }

  ghost predicate OnLine(xs: seq<real>, ys: seq<real>, a: real, b: real)
    requires |xs| == |ys|
  {
    forall i | 0 <= i < |xs| :: ys[i] == a + Mul(b, xs[i])
  }

  ghost predicate Collinear(xs: seq<real>, ys: seq<real>)
    requires |xs| == |ys|
  {
    exists a, b :: OnLine(xs, ys, a, b)
  }

  /** Every other line leaves a strictly larger residual sum of squares. */
  ghost predicate BestLine(xs: seq<real>, ys: seq<real>, a: real, b: real)
    requires |xs| == |ys|
  {
    forall a', b' | a' != a || b' != b :: Residual(xs, ys, a, b) < Residual(xs, ys, a', b')
  }

  // ---- the quantities the fit computes ----

  function VarX(xs: seq<real>): real
    requires |xs| > 0
  {
    var dx := Centre(xs, Mean(xs));
    Dot(dx, dx, |xs|)
  }

  function Covariance(xs: seq<real>, ys: seq<real>): real
    requires |xs| == |ys| > 0
  {
    Dot(Centre(xs, Mean(xs)), Centre(ys, Mean(ys)), |xs|)
  }

  /** Total variation: squared deviations from the mean reading. */
  function Total(ys: seq<real>): real
    requires |ys| > 0
  {
    var dy := Centre(ys, Mean(ys));
    Dot(dy, dy, |ys|)
  }

  function Slope(xs: seq<real>, ys: seq<real>): real
    requires |xs| == |ys| > 0 && VarX(xs) != 0.0
  {
    Covariance(xs, ys) / VarX(xs)
  }

  function Intercept(xs: seq<real>, ys: seq<real>): real
    requires |xs| == |ys| > 0 && VarX(xs) != 0.0
  {
    Mean(ys) - Mul(Slope(xs, ys), Mean(xs))
  }

  /** The goodness of fit before clamping. */
  function RSquared(xs: seq<real>, ys: seq<real>): real
    requires |xs| == |ys| > 0 && VarX(xs) != 0.0
  {
    if Total(ys) == 0.0 then 1.0
    else 1.0 - Residual(xs, ys, Intercept(xs, ys), Slope(xs, ys)) / Total(ys)
  }

  // ---- the algebra of the fit ----

  lemma VarXZero(xs: seq<real>)
    requires |xs| > 0
    ensures VarX(xs) >= 0.0
    ensures VarX(xs) != 0.0 <==> Varied(xs)
  {
    var m := Mean(xs);
    var dx := Centre(xs, m);
    SelfDot(dx, |xs|);
    if Varied(xs) {
      var i, j :| 0 <= i < |xs| && 0 <= j < |xs| && xs[i] != xs[j];
      assert dx[i] != dx[j];
    } else {
      SumConstant(xs, xs[0], |xs|);
      MulDivide(|xs| as real, xs[0]);
      assert m == xs[0];
      assert forall i | 0 <= i < |xs| :: dx[i] == 0.0;
    }
  }

  /** A sheared and shifted vector: the residual in terms of centred moments. */
  lemma ShearedSelfDot(dx: seq<real>, dy: seq<real>, b: real)
    requires |dx| == |dy|
    ensures var e := AddScaled(dy, -b, dx);
      Dot(e, e, |dx|) == Dot(dy, dy, |dx|) - 2.0 * Mul(b, Dot(dx, dy, |dx|)) + Mul(b, Mul(b, Dot(dx, dx, |dx|)))
  {
    var n := |dx|;
    var e := AddScaled(dy, -b, dx);
    DotLinear(dy, -b, dx, e, n);
    DotSymmetric(dy, e, n);
    DotLinear(dy, -b, dx, dy, n);
    DotSymmetric(dx, e, n);
    DotLinear(dy, -b, dx, dx, n);
    DotSymmetric(dy, dx, n);
    hide Dot, Mul, AddScaled;
    ShearedProducts(b, Dot(dx, dy, n), Dot(dx, dx, n));
  }

  lemma ShearedProducts(b: real, k: real, v: real)
    ensures Mul(-b, k) == -Mul(b, k)
    ensures Mul(-b, k + Mul(-b, v)) == -Mul(b, k) + Mul(b, Mul(b, v))
  {
    assert Mul(-b, Mul(-b, v)) == Mul(b, Mul(b, v));
    assert Mul(-b, k + Mul(-b, v)) == Mul(-b, k) + Mul(-b, Mul(-b, v));
  }

  lemma ShiftedSelfDot(e: seq<real>, c: real)
    requires Sum(e, |e|) == 0.0
    ensures var r := AddScaled(e, -c, Ones(|e|));
      Dot(r, r, |e|) == Dot(e, e, |e|) + Mul(|e| as real, Mul(c, c))
  {
    var n, ones := |e|, Ones(|e|);
    var r := AddScaled(e, -c, ones);
    DotLinear(e, -c, ones, r, n);
    DotSymmetric(e, r, n);
    DotLinear(e, -c, ones, e, n);
    DotSymmetric(ones, e, n);
    DotOnes(e, n);
    DotSymmetric(ones, r, n);
    DotLinear(e, -c, ones, ones, n);
    DotOnes(ones, n);
    SumConstant(ones, 1.0, n);
    MulTwice(c, n as real);
  }

  lemma SumSheared(dx: seq<real>, dy: seq<real>, b: real)
    requires |dx| == |dy| && Sum(dx, |dx|) == 0.0 && Sum(dy, |dx|) == 0.0
    ensures Sum(AddScaled(dy, -b, dx), |dx|) == 0.0
  {
    var n := |dx|;
    DotOnes(AddScaled(dy, -b, dx), n);
    DotLinear(dy, -b, dx, Ones(n), n);
    DotOnes(dy, n);
    DotOnes(dx, n);
    assert Mul(-b, 0.0) == 0.0;
  }

  /** Every line's residual, in terms of the centred moments and how far the
      line passes from the centroid. */
  lemma ResidualDecomposition(xs: seq<real>, ys: seq<real>, a: real, b: real)
    requires |xs| == |ys| > 0
    ensures var c := a + Mul(b, Mean(xs)) - Mean(ys);
      Residual(xs, ys, a, b) == Total(ys) - 2.0 * Mul(b, Covariance(xs, ys)) + Mul(b, Mul(b, VarX(xs)))
                              + Mul(|xs| as real, Mul(c, c))
  {
    var n, mx, my := |xs|, Mean(xs), Mean(ys);
    var dx, dy, c := Centre(xs, mx), Centre(ys, my), a + Mul(b, mx) - my;
    var e := AddScaled(dy, -b, dx);
    var r := AddScaled(e, -c, Ones(n));
    var d := Deviations(xs, ys, a, b);
    forall i | 0 <= i < n
      ensures d[i] == r[i]
    {
      assert Mul(-b, xs[i] - mx) == Mul(b, mx) - Mul(b, xs[i]);
      assert Mul(-c, 1.0) == -c;
    }
    assert d == r;
    CentredAtMean(xs);
    CentredAtMean(ys);
    SumSheared(dx, dy, b);
    ShiftedSelfDot(e, c);
    ShearedSelfDot(dx, dy, b);
  }

  /** The slope is the factor by which covariance exceeds variance. */
  lemma SlopeTimesVariance(xs: seq<real>, ys: seq<real>)
    requires |xs| == |ys| > 0 && VarX(xs) != 0.0
    ensures Mul(Slope(xs, ys), VarX(xs)) == Covariance(xs, ys)
  {
  }

  /** Total variation splits into the residual of the fit and the part the slope
      explains. */
  lemma VariationSplits(xs: seq<real>, ys: seq<real>)
    requires |xs| == |ys| > 0 && VarX(xs) != 0.0
    ensures var s := Slope(xs, ys);
      Total(ys) == Residual(xs, ys, Intercept(xs, ys), s) + Mul(s, Mul(s, VarX(xs)))
  {
    var s := Slope(xs, ys);
    ResidualDecomposition(xs, ys, Intercept(xs, ys), s);
    SlopeTimesVariance(xs, ys);
    assert Mul(|xs| as real, Mul(0.0, 0.0)) == 0.0;
  }

  lemma CompleteSquare(b: real, s: real, v: real)
    ensures Mul(b, Mul(b, v)) - 2.0 * Mul(b, Mul(s, v)) + Mul(s, Mul(s, v)) == Mul(Mul(b - s, b - s), v)
  {
  }

  lemma ScaledSquareSign(k: real, z: real)
    requires k > 0.0
    ensures Mul(k, Mul(z, z)) >= 0.0
    ensures z != 0.0 ==> Mul(k, Mul(z, z)) > 0.0
    ensures Mul(k, Mul(z, z)) == Mul(Mul(z, z), k)
  {
    SquareSign(z);
    if z != 0.0 {
      MulPositive(k, Mul(z, z));
    }
  }

  /** The fitted line has the smallest residual sum of squares, and is the only
      line that does. */
  lemma FitIsBest(xs: seq<real>, ys: seq<real>)
    requires |xs| == |ys| > 0 && VarX(xs) != 0.0
    ensures BestLine(xs, ys, Intercept(xs, ys), Slope(xs, ys))
  {
    var s, v, n := Slope(xs, ys), VarX(xs), |xs| as real;
    var i := Intercept(xs, ys);
    VarXZero(xs);
    VariationSplits(xs, ys);
    SlopeTimesVariance(xs, ys);
    forall a, b | a != i || b != s
      ensures Residual(xs, ys, i, s) < Residual(xs, ys, a, b)
    {
      var c := a + Mul(b, Mean(xs)) - Mean(ys);
      ResidualDecomposition(xs, ys, a, b);
      CompleteSquare(b, s, v);
      ScaledSquareSign(v, b - s);
      ScaledSquareSign(n, c);
      if b == s {
        assert c == a - i;
      }
    }
  }

  /** The best line is unique, so its slope is the fitted slope. */
  lemma BestLineIsFit(xs: seq<real>, ys: seq<real>, a: real, b: real)
    requires |xs| == |ys| > 0 && VarX(xs) != 0.0
    requires BestLine(xs, ys, a, b)
    ensures a == Intercept(xs, ys) && b == Slope(xs, ys)
  {
    var i, s := Intercept(xs, ys), Slope(xs, ys);
    assert a != i || b != s ==> Residual(xs, ys, a, b) < Residual(xs, ys, i, s);
    FitIsBest(xs, ys);
  }

  lemma ResidualZero(xs: seq<real>, ys: seq<real>, a: real, b: real)
    requires |xs| == |ys|
    ensures Residual(xs, ys, a, b) >= 0.0
    ensures Residual(xs, ys, a, b) == 0.0 <==> OnLine(xs, ys, a, b)
  {
    var d := Deviations(xs, ys, a, b);
    SelfDot(d, |xs|);
    if OnLine(xs, ys, a, b) {
      assert forall i | 0 <= i < |xs| :: d[i] == 0.0;
    } else {
      var i :| 0 <= i < |xs| && ys[i] != a + Mul(b, xs[i]);
      assert d[i] != 0.0;
    }
  }

  /** The fit's residual vanishes exactly for points on one line. */
  lemma FitResidualZero(xs: seq<real>, ys: seq<real>)
    requires |xs| == |ys| > 0 && VarX(xs) != 0.0
    ensures Residual(xs, ys, Intercept(xs, ys), Slope(xs, ys)) == 0.0 <==> Collinear(xs, ys)
  {
    var i, s := Intercept(xs, ys), Slope(xs, ys);
    ResidualZero(xs, ys, i, s);
    FitIsBest(xs, ys);
    if Collinear(xs, ys) {
      var a, b :| OnLine(xs, ys, a, b);
      ResidualZero(xs, ys, a, b);
    }
  }

  /** Before any clamping, R-squared lies in [0,1]; it is 1 exactly when the
      readings lie on a line, and 0 exactly when readings vary yet the slope is 0. */
  lemma RSquaredRange(xs: seq<real>, ys: seq<real>)
    requires |xs| == |ys| > 0 && VarX(xs) != 0.0
    ensures 0.0 <= RSquared(xs, ys) <= 1.0
    ensures RSquared(xs, ys) == 1.0 <==> Collinear(xs, ys)
    ensures RSquared(xs, ys) == 0.0 <==> Slope(xs, ys) == 0.0 && Total(ys) != 0.0
  {
    var s, v := Slope(xs, ys), VarX(xs);
    var residual := Residual(xs, ys, Intercept(xs, ys), s);
    VarXZero(xs);
    VariationSplits(xs, ys);
    ScaledSquareSign(v, s);
    CompleteSquare(0.0, s, v);
    assert Mul(0.0, Mul(0.0, v)) == 0.0 && Mul(0.0, Mul(s, v)) == 0.0;
    assert Mul(0.0 - s, 0.0 - s) == Mul(s, s);
    assert s == 0.0 ==> Mul(s, Mul(s, v)) == 0.0;
    ResidualZero(xs, ys, Intercept(xs, ys), s);
    FitResidualZero(xs, ys);
    if Total(ys) != 0.0 {
      FractionBounds(residual, Total(ys));
    }
  }

  // ---- order and origin ----

  /** Where the centred abscissas change sign. */
  lemma {:induction false} MeanPivot(xs: seq<real>, m: real, n: nat) returns (k: nat)
    requires n <= |xs|
    requires forall i, j | 0 <= i < j < |xs| :: xs[i] <= xs[j]
    ensures k <= n
    ensures forall i | 0 <= i < k :: xs[i] < m
    ensures forall i | k <= i < n :: xs[i] >= m
  {
    if n == 0 || xs[n - 1] < m {
      k := n;
    } else {
      k := MeanPivot(xs, m, n - 1);
    }
  }

  /** Covariance can be measured from any reference reading. */
  lemma CovarianceFrom(xs: seq<real>, ys: seq<real>, y: real)
    requires |xs| == |ys| > 0
    ensures Covariance(xs, ys) == Dot(Centre(xs, Mean(xs)), Centre(ys, y), |xs|)
  {
    var dx := Centre(xs, Mean(xs));
    CentredAtMean(xs);
    DotShift(dx, ys, y);
    DotShift(dx, ys, Mean(ys));
  }

  /** Usage that never falls gives a slope that is not negative. */
  lemma RisingUsageSlope(xs: seq<real>, ys: seq<real>)
    requires |xs| == |ys| > 0 && VarX(xs) != 0.0
    requires forall i, j | 0 <= i < j < |xs| :: xs[i] <= xs[j]
    requires forall i, j | 0 <= i < j < |ys| :: ys[i] <= ys[j]
    ensures Slope(xs, ys) >= 0.0
  {
    var n := |xs|;
    var k := MeanPivot(xs, Mean(xs), n);
    var pivot := if k < n then ys[k] else ys[n - 1];
    DotAgreeing(Centre(xs, Mean(xs)), Centre(ys, pivot), n);
    CovarianceFrom(xs, ys, pivot);
    VarXZero(xs);
    QuotientSign(Covariance(xs, ys), VarX(xs));
  }

  /** Usage that never rises gives a slope that is not positive. */
  lemma FallingUsageSlope(xs: seq<real>, ys: seq<real>)
    requires |xs| == |ys| > 0 && VarX(xs) != 0.0
    requires forall i, j | 0 <= i < j < |xs| :: xs[i] <= xs[j]
    requires forall i, j | 0 <= i < j < |ys| :: ys[i] >= ys[j]
    ensures Slope(xs, ys) <= 0.0
  {
    var n := |xs|;
    var k := MeanPivot(xs, Mean(xs), n);
    var pivot := if k < n then ys[k] else ys[n - 1];
    DotOpposing(Centre(xs, Mean(xs)), Centre(ys, pivot), n);
    CovarianceFrom(xs, ys, pivot);
    VarXZero(xs);
    QuotientSign(-Covariance(xs, ys), VarX(xs));
    QuotientSum(-Covariance(xs, ys), Covariance(xs, ys), VarX(xs));
  }

  lemma QuotientSign(u: real, v: real)
    requires u >= 0.0 && v > 0.0
    ensures u / v >= 0.0
  {
    var q := u / v;
    assert q * v == u && Mul(-q, v) == -u;
    if q < 0.0 {
      MulPositive(-q, v);
    }
  }

  lemma {:induction false} SumShift(u: seq<real>, v: seq<real>, d: real, n: nat)
    requires |u| == |v| && n <= |u|
    requires forall i | 0 <= i < |u| :: v[i] == u[i] + d
    ensures Sum(v, n) == Sum(u, n) + Mul(n as real, d)
  {
    if n > 0 {
      SumShift(u, v, d, n - 1);
      assert Mul((n - 1) as real + 1.0, d) == Mul((n - 1) as real, d) + d;
    }
  }

  /** Measuring time from another origin changes neither slope nor goodness of fit. */
  lemma OriginIrrelevant(xs: seq<real>, xs': seq<real>, ys: seq<real>, d: real)
    requires |xs| == |xs'| == |ys| > 0 && VarX(xs) != 0.0
    requires forall i | 0 <= i < |xs| :: xs'[i] == xs[i] + d
    ensures VarX(xs') != 0.0
    ensures Slope(xs', ys) == Slope(xs, ys)
    ensures RSquared(xs', ys) == RSquared(xs, ys)
  {
    var n := |xs| as real;
    SumShift(xs, xs', d, |xs|);
    MulDivide(n, d);
    QuotientSum(Sum(xs, |xs|), Mul(n, d), n);
    assert Mean(xs') == Mean(xs) + d;
    assert Centre(xs', Mean(xs')) == Centre(xs, Mean(xs));
    assert VarX(xs') == VarX(xs) && Slope(xs', ys) == Slope(xs, ys);
    VariationSplits(xs, ys);
    VariationSplits(xs', ys);
  }

  lemma QuotientSum(u: real, v: real, n: real)
    requires n != 0.0
    ensures (u + v) / n == u / n + v / n
  {
  }

  /** The fitted trend does not depend on the instant time is measured from, as
      long as no difference saturates. */
  lemma FitIgnoresOrigin(samples: seq<Sample>, origin: int, origin': int)
    requires |samples| > 0 && VarX(Xs(samples, origin)) != 0.0
    requires forall i | 0 <= i < |samples| ::
      && -TWO_TO_63 <= samples[i].time - origin <= MAX_DURATION
      && -TWO_TO_63 <= samples[i].time - origin' <= MAX_DURATION
    ensures VarX(Xs(samples, origin')) != 0.0
    ensures Slope(Xs(samples, origin'), Ys(samples)) == Slope(Xs(samples, origin), Ys(samples))
    ensures RSquared(Xs(samples, origin'), Ys(samples)) == RSquared(Xs(samples, origin), Ys(samples))
  {
    var d := Seconds(origin - origin');
    forall i | 0 <= i < |samples|
      ensures Xs(samples, origin')[i] == Xs(samples, origin)[i] + d
    {
      var t := samples[i].time;
      assert (t - origin) as real + (origin - origin') as real == (t - origin') as real;
    }
    OriginIrrelevant(Xs(samples, origin), Xs(samples, origin'), Ys(samples), d);
  }

  // ---- the operations ----

  /** Distinct timestamps, whatever the saturation of a very long window. */
  lemma VariedTimes(samples: seq<Sample>)
    requires |samples| > 0
    ensures Varied(Xs(samples, samples[0].time)) <==>
              exists i | 0 <= i < |samples| :: samples[i].time != samples[0].time
  {
    var xs := Xs(samples, samples[0].time);
    forall i | 0 <= i < |samples|
      ensures xs[i] == 0.0 <==> samples[i].time == samples[0].time
    {
      var d := TimeSub(samples[i].time, samples[0].time);
      assert Seconds(d) == 0.0 <==> d == 0;
    }
    if exists i | 0 <= i < |samples| :: samples[i].time != samples[0].time {
      var i :| 0 <= i < |samples| && samples[i].time != samples[0].time;
      assert xs[i] != xs[0];
    }
  }

  /** What a fit of varied points must deliver: the slope of the one best line,
      and a goodness of fit that needs no clamping and is 1 exactly for points on
      a line. */
  ghost predicate FitOutcome(xs: seq<real>, ys: seq<real>, slope: real, rSquared: real)
    requires |xs| == |ys| > 0
  {
    && Varied(xs)
    && (exists a :: BestLine(xs, ys, a, slope))
    && VarX(xs) != 0.0
    && rSquared == RSquared(xs, ys)
    && 0.0 <= rSquared <= 1.0
    && (rSquared == 1.0 <==> Collinear(xs, ys))
  }

  lemma FitDelivers(xs: seq<real>, ys: seq<real>, slope: real, intercept: real, residual: real, total: real)
    requires |xs| == |ys| > 0 && VarX(xs) != 0.0
    requires slope == Slope(xs, ys) && intercept == Intercept(xs, ys)
    requires residual == Residual(xs, ys, intercept, slope) && total == Total(ys)
    ensures FitOutcome(xs, ys, slope, if total == 0.0 then 1.0 else Clamp(1.0 - residual / total))
  {
    VarXZero(xs);
    FitIsBest(xs, ys);
    RSquaredRange(xs, ys);
  }

  /** The first accumulator loop of the fit. */
  method Sums(samples: seq<Sample>, origin: int) returns (sumX: real, sumY: real)
    ensures sumX == Sum(Xs(samples, origin), |samples|) && sumY == Sum(Ys(samples), |samples|)
  {
    ghost var xs, ys := Xs(samples, origin), Ys(samples);
    sumX, sumY := 0.0, 0.0;
    for i := 0 to |samples|
      invariant sumX == Sum(xs, i) && sumY == Sum(ys, i)
    {
      sumX := sumX + Seconds(TimeSub(samples[i].time, origin));
      sumY := sumY + samples[i].stats.current as real;
    }
  }

  /** The second accumulator loop: centred moments. */
  method Moments(samples: seq<Sample>, origin: int, meanX: real, meanY: real)
    returns (covariance: real, varianceX: real)
    ensures var dxs, dys := Centre(Xs(samples, origin), meanX), Centre(Ys(samples), meanY);
      covariance == Dot(dxs, dys, |samples|) && varianceX == Dot(dxs, dxs, |samples|)
  {
    ghost var dxs, dys := Centre(Xs(samples, origin), meanX), Centre(Ys(samples), meanY);
    covariance, varianceX := 0.0, 0.0;
    for i := 0 to |samples|
      invariant covariance == Dot(dxs, dys, i) && varianceX == Dot(dxs, dxs, i)
    {
      var dx := Seconds(TimeSub(samples[i].time, origin)) - meanX;
      covariance := covariance + Mul(dx, samples[i].stats.current as real - meanY);
      varianceX := varianceX + Mul(dx, dx);
    }
  }

  /** The third accumulator loop: what the line leaves unexplained, against the
      total. */
  method SumsOfSquares(samples: seq<Sample>, origin: int, intercept: real, slope: real, meanY: real)
    returns (residualSS: real, totalSS: real)
    ensures residualSS == Residual(Xs(samples, origin), Ys(samples), intercept, slope)
    ensures var dys := Centre(Ys(samples), meanY); totalSS == Dot(dys, dys, |samples|)
  {
    ghost var deviations := Deviations(Xs(samples, origin), Ys(samples), intercept, slope);
    ghost var dys := Centre(Ys(samples), meanY);
    residualSS, totalSS := 0.0, 0.0;
    for i := 0 to |samples|
      invariant residualSS == Dot(deviations, deviations, i) && totalSS == Dot(dys, dys, i)
    {
      var x := Seconds(TimeSub(samples[i].time, origin));
      var y := samples[i].stats.current as real;
      var predicted := intercept + Mul(slope, x);
      residualSS := residualSS + Mul(y - predicted, y - predicted);
      totalSS := totalSS + Mul(y - meanY, y - meanY);
    }
  }

  /** Slope and goodness of fit from the three loops. The means of no samples are NaN
      in Go and any number here: no loop reads them. */
  method FitSlope(samples: seq<Sample>, origin: int) returns (slope: real, rSquared: real, ok: bool)
    ensures ok <==> Varied(Xs(samples, origin))
    ensures !ok ==> slope == 0.0 && rSquared == 0.0
    ensures ok ==> FitOutcome(Xs(samples, origin), Ys(samples), slope, rSquared)
  {
    ghost var xs, ys := Xs(samples, origin), Ys(samples);
    var sumX, sumY := Sums(samples, origin);
    var n := if |samples| == 0 then 1.0 else |samples| as real;
    var meanX, meanY := sumX / n, sumY / n;

    var covariance, varianceX := Moments(samples, origin, meanX, meanY);
    if |samples| > 0 {
      VarXZero(xs);
    }
    if varianceX == 0.0 {
      return 0.0, 0.0, false;
    }
    slope := covariance / varianceX;

    var intercept := meanY - Mul(slope, meanX);
    var residualSS, totalSS := SumsOfSquares(samples, origin, intercept, slope, meanY);
    FitDelivers(xs, ys, slope, intercept, residualSS, totalSS);
    if totalSS == 0.0 {
      return slope, 1.0, true;
    }
    return slope, Clamp(1.0 - residualSS / totalSS), true;
  }

  /** math.Max(0, math.Min(1, r)). */
  function Clamp(r: real): real {
    var capped := if r > 1.0 then 1.0 else r;
    if capped < 0.0 then 0.0 else capped
  }

  /** Usage after a further d nanoseconds at the fitted rate. */
  function Extrapolated(stats: MemoryStats, rate: real, d: int): real {
    stats.current as real + Mul(rate, Seconds(d))
  }

  /** The line still below the limit at ttl is past it one nanosecond later. */
  predicate CrossesAt(stats: MemoryStats, rate: real, ttl: int) {
    Extrapolated(stats, rate, ttl) <= stats.limit as real < Extrapolated(stats, rate, ttl + 1)
  }

  lemma Reaches(rate: real, headroom: real, d: int)
    requires rate > 0.0
    ensures Mul(rate, Seconds(d)) <= headroom <==> d as real <= headroom / rate * SECOND as real
  {
    var q, x := headroom / rate, Seconds(d);
    assert Mul(rate, q) == headroom by { MulDivide(rate, headroom); }
    assert x * SECOND as real == d as real;
    if x < q {
      MulPositive(rate, q - x);
      assert Mul(rate, q - x) == Mul(rate, q) - Mul(rate, x);
    } else if x > q {
      MulPositive(rate, x - q);
      assert Mul(rate, x - q) == Mul(rate, x) - Mul(rate, q);
    }
  }

  /** When the line from the last reading meets the limit. A projection is given
      exactly when the line passes a finite, non-zero limit within the longest
      Duration, and names the last nanosecond before it does. */
  function ProjectTimeToLimit(stats: MemoryStats, rate: real): (r: (int, bool))
    ensures r.1 <==> rate > 0.0 && stats.limit != UNLIMITED && stats.limit != 0
                     && Extrapolated(stats, rate, MAX_DURATION) > stats.limit as real
    ensures r.1 && stats.current < stats.limit ==> 0 <= r.0 < MAX_DURATION && CrossesAt(stats, rate, r.0)
    ensures !r.1 || stats.current >= stats.limit ==> r.0 == 0
  {
    if rate <= 0.0 || stats.limit == UNLIMITED || stats.limit == 0 then (0, false)
    else
      var headroom := stats.Headroom();
      Reaches(rate, stats.limit as real - stats.current as real, MAX_DURATION);
      if headroom == 0 then
        assert Extrapolated(stats, rate, MAX_DURATION) > stats.limit as real by {
          MulPositive(rate, Seconds(MAX_DURATION));
        }
        (0, true)
      else
        var seconds := headroom as real / rate;
        if seconds >= Seconds(MAX_DURATION) then (0, false)
        else
          var ttl := (seconds * SECOND as real).Floor;
          Reaches(rate, headroom as real, ttl);
          Reaches(rate, headroom as real, ttl + 1);
          assert ttl >= 0 by { QuotientSign(headroom as real, rate); }
          (ttl, true)
  }

  /** What a trend says about the samples it was made from. */
  ghost predicate Describes(trend: Trend, samples: seq<Sample>) {
    var n := |samples|;
    if n < MIN_TREND_SAMPLES then trend == Trend(0.0, 0.0, n, 0, 0, false)
    else
      && trend.samples == n
      && trend.window == TimeSub(samples[n - 1].time, samples[0].time)
      && if forall i | 0 <= i < n :: samples[i].time == samples[0].time then
           trend == Trend(0.0, 0.0, n, 0, 0, false)
         else
           && FitOutcome(Xs(samples, samples[0].time), Ys(samples), trend.bytesPerSecond, trend.rSquared)
           && (trend.timeToLimit, trend.projected) == ProjectTimeToLimit(samples[n - 1].stats, trend.bytesPerSecond)
  }

  /** Fits a growth rate over samples ordered oldest first, and projects time to limit. */
  method Analyse(samples: seq<Sample>) returns (trend: Trend)
    ensures Describes(trend, samples)
  {
    trend := Trend(0.0, 0.0, |samples|, 0, 0, false);
    if |samples| < MIN_TREND_SAMPLES {
      return;
    }
    var origin := samples[0].time;
    trend := trend.(window := TimeSub(samples[|samples| - 1].time, origin));
    VariedTimes(samples);
    var slope, rSquared, ok := FitSlope(samples, origin);
    if !ok {
      return;
    }
    trend := trend.(bytesPerSecond := slope, rSquared := rSquared);
    var (ttl, projected) := ProjectTimeToLimit(samples[|samples| - 1].stats, slope);
    trend := trend.(timeToLimit := ttl, projected := projected);
  }

  predicate NeverFalls(samples: seq<Sample>) {
    forall i, j | 0 <= i < j < |samples| :: samples[i].stats.current <= samples[j].stats.current
  }

  predicate NeverRises(samples: seq<Sample>) {
    forall i, j | 0 <= i < j < |samples| :: samples[i].stats.current >= samples[j].stats.current
  }

  /** A described trend is blank or the fit of points measured from the first sample. */
  lemma BlankOrFitted(samples: seq<Sample>, trend: Trend)
    requires Describes(trend, samples)
    ensures trend.bytesPerSecond <= 0.0 ==> !trend.projected
    ensures trend.bytesPerSecond != 0.0 ==>
      && |samples| > 0
      && var xs, ys := Xs(samples, samples[0].time), Ys(samples);
         VarX(xs) != 0.0 && trend.bytesPerSecond == Slope(xs, ys)
  {
    hide VarX, Slope, FitOutcome, Xs, Ys;
    if trend.bytesPerSecond != 0.0 {
      OutcomeIsFit(Xs(samples, samples[0].time), Ys(samples), trend.bytesPerSecond, trend.rSquared);
    }
  }

  /** The trend of a time-sorted history follows its usage: never negative when
      usage never falls; never positive, and never a projection, when it never
      rises. */
  lemma TrendFollowsUsage(samples: seq<Sample>, trend: Trend)
    requires TimeSorted(samples) && Describes(trend, samples)
    ensures NeverFalls(samples) ==> trend.bytesPerSecond >= 0.0
    ensures NeverRises(samples) ==> trend.bytesPerSecond <= 0.0 && !trend.projected
  {
    hide VarX, Slope, Describes, TimeSorted;
    BlankOrFitted(samples, trend);
    if trend.bytesPerSecond != 0.0 {
      var xs, ys := Xs(samples, samples[0].time), Ys(samples);
      SortedTimes(samples);
      if NeverFalls(samples) {
        RisingUsageSlope(xs, ys);
      }
      if NeverRises(samples) {
        FallingUsageSlope(xs, ys);
      }
    }
  }

  lemma OutcomeIsFit(xs: seq<real>, ys: seq<real>, slope: real, rSquared: real)
    requires |xs| == |ys| > 0 && FitOutcome(xs, ys, slope, rSquared)
    ensures VarX(xs) != 0.0 && slope == Slope(xs, ys)
  {
    hide RSquared, Slope, VarX;
    var a :| BestLine(xs, ys, a, slope);
    BestLineIsFit(xs, ys, a, slope);
  }

  /** Seconds since the first sample keep the samples' order, saturated or not. */
  lemma SortedTimes(samples: seq<Sample>)
    requires |samples| > 0 && TimeSorted(samples)
    ensures var xs := Xs(samples, samples[0].time); forall i, j | 0 <= i < j < |xs| :: xs[i] <= xs[j]
  {
    forall i, j | 0 <= i < j < |samples|
      ensures Xs(samples, samples[0].time)[i] <= Xs(samples, samples[0].time)[j]
    {
      SecondsMonotone(TimeSub(samples[i].time, samples[0].time), TimeSub(samples[j].time, samples[0].time));
    }
  }

  lemma SecondsMonotone(d: int, e: int)
    requires d <= e
    ensures Seconds(d) <= Seconds(e)
  {
  }

  // ---- the units of a trend ----

  /** A line that every point lies on is the fitted line. */
  lemma ThroughAllPoints(xs: seq<real>, ys: seq<real>, a: real, b: real)
    requires |xs| == |ys| > 0 && VarX(xs) != 0.0 && OnLine(xs, ys, a, b)
    ensures Slope(xs, ys) == b && RSquared(xs, ys) == 1.0
  {
    hide RSquared, Slope, Intercept, VarX;
    var d := Deviations(xs, ys, a, b);
    SelfDot(d, |d|);
    var e := Deviations(xs, ys, Intercept(xs, ys), Slope(xs, ys));
    SelfDot(e, |e|);
    assert Residual(xs, ys, a, b) == 0.0;
    FitIsBest(xs, ys);
    RSquaredRange(xs, ys);
  }

  /** A sample as many bytes above the first as rate gives, in bytes for every
      1 000 000 000 nanoseconds. */
  predicate GrownBy(first: Sample, s: Sample, rate: real) {
    && -TWO_TO_63 <= s.time - first.time <= MAX_DURATION
    && s.stats.current as real == first.stats.current as real + rate * (s.time - first.time) as real / 1000000000.0
  }

  /** Usage that grows at one rate is reported as growing at that rate in every second,
      with a perfect fit: two samples at different times are enough. */
  lemma SteadyGrowth(samples: seq<Sample>, trend: Trend, rate: real)
    requires Describes(trend, samples)
    requires exists i | 0 <= i < |samples| :: samples[i].time != samples[0].time
    requires forall i | 0 <= i < |samples| :: GrownBy(samples[0], samples[i], rate)
    ensures trend.bytesPerSecond == rate && trend.rSquared == 1.0 && trend.samples == |samples|
    ensures trend.window == samples[|samples| - 1].time - samples[0].time
  {
    var xs, ys := Xs(samples, samples[0].time), Ys(samples);
    FittedTrend(samples, trend);
    forall i | 0 <= i < |samples|
      ensures GrownBy(samples[0], samples[i], rate) && ys[i] == ys[0] + Mul(rate, xs[i])
    {
      GrownOnLine(samples[0], samples[i], rate);
    }
    assert GrownBy(samples[0], samples[|samples| - 1], rate);
    hide RSquared, Slope, VarX, FitOutcome, Describes, Mul, Seconds;
    OutcomeIsFit(xs, ys, trend.bytesPerSecond, trend.rSquared);
    OutcomeFit(xs, ys, trend.bytesPerSecond, trend.rSquared);
    ThroughAllPoints(xs, ys, ys[0], rate);
  }

  lemma FittedTrend(samples: seq<Sample>, trend: Trend)
    requires Describes(trend, samples)
    requires exists i | 0 <= i < |samples| :: samples[i].time != samples[0].time
    ensures FitOutcome(Xs(samples, samples[0].time), Ys(samples), trend.bytesPerSecond, trend.rSquared)
    ensures trend.samples == |samples|
    ensures trend.window == TimeSub(samples[|samples| - 1].time, samples[0].time)
  {
    hide FitOutcome, ProjectTimeToLimit, TimeSub, Xs, Ys;
  }

  lemma OutcomeFit(xs: seq<real>, ys: seq<real>, slope: real, rSquared: real)
    requires |xs| == |ys| > 0 && FitOutcome(xs, ys, slope, rSquared)
    ensures VarX(xs) != 0.0 && rSquared == RSquared(xs, ys)
  {
    hide RSquared, VarX;
  }

  lemma GrownOnLine(first: Sample, s: Sample, rate: real)
    requires GrownBy(first, s, rate)
    ensures s.stats.current as real == first.stats.current as real + Mul(rate, Seconds(TimeSub(s.time, first.time)))
  {
    PerSecond(rate, s.time - first.time);
  }

  lemma PerSecond(rate: real, d: int)
    ensures Mul(rate, Seconds(d)) == rate * d as real / 1000000000.0
  {
  }

  /** R-squared is the part of the total variation that the slope explains. */
  lemma RSquaredMeasures(xs: seq<real>, ys: seq<real>)
    requires |xs| == |ys| > 0 && VarX(xs) != 0.0
    ensures Mul(RSquared(xs, ys), Total(ys)) == Mul(Slope(xs, ys), Mul(Slope(xs, ys), VarX(xs)))
  {
    var s, residual := Slope(xs, ys), Residual(xs, ys, Intercept(xs, ys), Slope(xs, ys));
    var d := Deviations(xs, ys, Intercept(xs, ys), s);
    SelfDot(d, |d|);
    assert residual >= 0.0;
    VarXZero(xs);
    hide VarX, Slope, Intercept, Residual, Total;
    VariationSplits(xs, ys);
    ExplainedSign(s, VarX(xs));
    if Total(ys) != 0.0 {
      OneLessPart(residual, Total(ys));
    }
  }

  lemma ExplainedSign(s: real, v: real)
    requires v > 0.0
    ensures Mul(s, Mul(s, v)) >= 0.0
  {
    ScaledSquareSign(v, s);
    assert Mul(s, Mul(s, v)) == Mul(v, Mul(s, s));
  }

  lemma OneLessPart(part: real, whole: real)
    requires whole != 0.0
    ensures Mul(1.0 - part / whole, whole) == whole - part
  {
    assert part / whole * whole == part;
  }
}
