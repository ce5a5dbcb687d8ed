/** The statistics of the hedging module (core/internal/hedge/hedge.go), over exact reals. */
module Hedge {
  import opened Common

  function Sum(xs: seq<real>): real {
    if xs == [] then 0.0 else Sum(xs[..|xs| - 1]) + xs[|xs| - 1]
  }
  function Dot(xs: seq<real>, ys: seq<real>): real
    requires |xs| == |ys|
  {
    if xs == [] then 0.0 else
    Dot(xs[..|xs| - 1], ys[..|ys| - 1]) + Mul(xs[|xs| - 1], ys[|ys| - 1])
  }
  function Average(xs: seq<real>): real { if xs == [] then 0.0 else Sum(xs) / |xs| as real }
  function Centered(xs: seq<real>): (r: seq<real>)
    ensures |r| == |xs|
  {
    seq(|xs|, i requires 0 <= i < |xs| => xs[i] - Average(xs))
  }

  // ---------------------------------------------------------------- the methods of the source

  method Mean(returns': seq<real>) returns (m: real)
    ensures m == Average(returns')
  {
    if |returns'| == 0 {
      return 0.0;
    }
    var sum := 0.0;
    for i := 0 to |returns'|
      invariant sum == Sum(returns'[..i])
    {
      assert returns'[..i + 1][..i] == returns'[..i];
      sum := sum + returns'[i];
    }
    assert returns'[..|returns'|] == returns';
    m := sum / |returns'| as real;
  }

  /** The sample covariance of two series, and of one with itself the sample variance. */
  function Covariance(xs: seq<real>, ys: seq<real>): real
    requires |xs| == |ys| && |xs| >= 2
  {
    Dot(Centered(xs), Centered(ys)) / (|xs| - 1) as real
  }

  method SampleVariance(xs: seq<real>) returns (r: Option<real>)
    ensures r.Some? <==> |xs| >= 2
    ensures r.Some? ==> r.value == Covariance(xs, xs)
  {
    if |xs| < 2 {
      return None;
    }
    var mean := Mean(xs);
    ghost var c := Centered(xs);
    var varSum := 0.0;
    for i := 0 to |xs|
      invariant varSum == Dot(c[..i], c[..i])
    {
      assert c[..i + 1][..i] == c[..i];
      var diff := xs[i] - mean;
      varSum := varSum + Mul(diff, diff);
    }
    assert c[..|xs|] == c;
    r := Some(varSum / (|xs| - 1) as real);
  }

  method SampleCovariance(xs: seq<real>, ys: seq<real>) returns (r: Option<real>)
    ensures r.Some? <==> |xs| == |ys| && |xs| >= 2
    ensures r.Some? ==> r.value == Covariance(xs, ys)
  {
    if |xs| != |ys| || |xs| < 2 {
      return None;
    }
    var meanX := Mean(xs);
    var meanY := Mean(ys);
    ghost var c, d := Centered(xs), Centered(ys);
    var covSum := 0.0;
    for i := 0 to |xs|
      invariant covSum == Dot(c[..i], d[..i])
    {
      assert c[..i + 1][..i] == c[..i] && d[..i + 1][..i] == d[..i];
      covSum := covSum + Mul(xs[i] - meanX, ys[i] - meanY);
    }
    assert c[..|xs|] == c && d[..|ys|] == d;
    r := Some(covSum / (|xs| - 1) as real);
  }

  /** The slope, when the benchmark's variance is not zero. */
  ghost predicate IsBeta(asset: seq<real>, bench: seq<real>, beta: real)
    requires |asset| == |bench|
  {
    Mul(beta, Dot(Centered(bench), Centered(bench))) == Dot(Centered(asset), Centered(bench))
  }

  method Beta(asset: seq<real>, bench: seq<real>) returns (r: Option<real>)
    ensures r.Some? <==> |asset| == |bench| && |asset| >= 2 && Dot(Centered(bench), Centered(bench)) != 0.0
    ensures r.Some? ==> IsBeta(asset, bench, r.value)
  {
    var cov := SampleCovariance(asset, bench);
    if cov.None? {
      return None;
    }
    var benchVar := SampleVariance(bench);
    if benchVar.None? {
      assert false;
      return None;
    }
    var n := (|asset| - 1) as real;
    ghost var sab, sbb := Dot(Centered(asset), Centered(bench)), Dot(Centered(bench), Centered(bench));
    QuotientZero(sbb, n);
    if benchVar.value == 0.0 {
      return None;
    }
    QuotientOfQuotients(sab, sbb, n);
    r := Some(cov.value / benchVar.value);
  }

  lemma QuotientZero(x: real, n: real)
    requires n > 0.0
    ensures x / n == 0.0 <==> x == 0.0
  {
    assert (x / n) * n == x;
  }

  lemma QuotientOfQuotients(x: real, y: real, n: real)
    requires n > 0.0 && y / n != 0.0
    ensures Mul((x / n) / (y / n), y) == x
  {
    var p, q := x / n, y / n;
    assert p * n == x && q * n == y;
    assert (p / q) * q == p;
    assert (p / q) * (q * n) == p * n;
  }

  // ---------------------------------------------------------------- algebra of sums

  /** The sequence x - t y + g. */
  function Combine(xs: seq<real>, t: real, ys: seq<real>, g: real): (r: seq<real>)
    requires |xs| == |ys|
    ensures |r| == |xs|
  {
    seq(|xs|, i requires 0 <= i < |xs| => xs[i] - Mul(t, ys[i]) + g)
  }

  lemma CombinePrefix(xs: seq<real>, t: real, ys: seq<real>, g: real)
    requires |xs| == |ys| && xs != []
    ensures Combine(xs, t, ys, g)[..|xs| - 1] == Combine(xs[..|xs| - 1], t, ys[..|ys| - 1], g)
  {
  }

  /** The sum of squares of x - t y + g, expanded. */
  function Expanded(xx: real, xy: real, yy: real, sx: real, sy: real, n: real, t: real, g: real): real {
    xx - 2.0 * Mul(t, xy) + Mul(Mul(t, t), yy) + 2.0 * Mul(g, sx - Mul(t, sy)) + Mul(n, Mul(g, g))
  }

  lemma SquareTerm(xx: real, xy: real, yy: real, sx: real, sy: real, n: real, t: real, g: real, x: real, y: real)
    ensures var v := x - Mul(t, y) + g;
            Expanded(xx + Mul(x, x), xy + Mul(x, y), yy + Mul(y, y), sx + x, sy + y, n + 1.0, t, g) ==
            Expanded(xx, xy, yy, sx, sy, n, t, g) + Mul(v, v)
  {
  }

  lemma {:induction false} DotCombine(xs: seq<real>, t: real, ys: seq<real>, g: real)
    requires |xs| == |ys|
    ensures var z := Combine(xs, t, ys, g);
            Dot(z, z) == Expanded(Dot(xs, xs), Dot(xs, ys), Dot(ys, ys), Sum(xs), Sum(ys), |xs| as real, t, g)
  {
    if xs == [] {
      assert Mul(t, 0.0) == 0.0 && Mul(Mul(t, t), 0.0) == 0.0 && Mul(g, 0.0 - Mul(t, 0.0)) == 0.0;
      assert Mul(0.0, Mul(g, g)) == 0.0;
    } else {
      var n := |xs| - 1;
      var xs', ys' := xs[..n], ys[..n];
      CombinePrefix(xs, t, ys, g);
      DotCombine(xs', t, ys', g);
      SquareTerm(Dot(xs', xs'), Dot(xs', ys'), Dot(ys', ys'), Sum(xs'), Sum(ys'), n as real, t, g, xs[n], ys[n]);
    }
  }

  lemma {:induction false} DotSelfNonNegative(xs: seq<real>)
    ensures Dot(xs, xs) >= 0.0
  {
    if xs != [] {
      DotSelfNonNegative(xs[..|xs| - 1]);
      assert Mul(xs[|xs| - 1], xs[|xs| - 1]) >= 0.0;
    }
  }

  lemma {:induction false} SumShift(xs: seq<real>, m: real)
    ensures Sum(seq(|xs|, i requires 0 <= i < |xs| => xs[i] - m)) == Sum(xs) - Mul(|xs| as real, m)
  {
    var shifted := seq(|xs|, i requires 0 <= i < |xs| => xs[i] - m);
    if xs == [] {
      assert Mul(0.0, m) == 0.0;
    } else {
      var n := |xs| - 1;
      SumShift(xs[..n], m);
      assert shifted[..n] == seq(n, i requires 0 <= i < n => xs[..n][i] - m);
      assert Mul(|xs| as real, m) == Mul(n as real, m) + m;
    }
  }

  lemma CenteredSumsToZero(xs: seq<real>)
    ensures Sum(Centered(xs)) == 0.0
  {
    SumShift(xs, Average(xs));
    if xs != [] {
      assert Mul(|xs| as real, Average(xs)) == Sum(xs);
    }
  }

  /** Whether root is a square root on the reals that have one. */
  ghost predicate IsRoot(root: real -> real) {
    forall v: real :: v >= 0.0 ==> root(v) >= 0.0 && Mul(root(v), root(v)) == v
  }

  method Correlation(asset: seq<real>, bench: seq<real>, root: real -> real) returns (r: Option<real>)
    requires IsRoot(root)
    ensures r.Some? <==> |asset| == |bench| && |asset| >= 2 && Varies(asset) && Varies(bench)
    ensures r.Some? ==> -1.0 <= r.value <= 1.0
    ensures r.Some? ==> Mul(r.value, Mul(root(Covariance(asset, asset)), root(Covariance(bench, bench)))) == Covariance(asset, bench)
  {
    var cov := SampleCovariance(asset, bench);
    if cov.None? {
      return None;
    }
    var varA := SampleVariance(asset);
    var varB := SampleVariance(bench);
    if varA.None? || varB.None? {
      assert false;
      return None;
    }
    VarianceSign(asset);
    VarianceSign(bench);
    var sa, sb := root(varA.value), root(varB.value);
    RootProduct(sa, sb);
    if Mul(sa, sb) == 0.0 {
      return None;
    }
    var rho := cov.value / Mul(sa, sb);
    DivideBack(cov.value, Mul(sa, sb));
    CovarianceBounded(asset, bench);
    CorrelationBounded(cov.value, varA.value, varB.value, sa, sb, rho);
    r := Some(rho);
  }

  /** Some return differs from the mean. */
  ghost predicate Varies(xs: seq<real>) { Dot(Centered(xs), Centered(xs)) != 0.0 }

  lemma DivideBack(x: real, y: real)
    requires y != 0.0
    ensures Mul(x / y, y) == x
  {
  }

  lemma VarianceSign(xs: seq<real>)
    requires |xs| >= 2
    ensures Covariance(xs, xs) >= 0.0 && (Covariance(xs, xs) == 0.0 <==> !Varies(xs))
  {
    DotSelfNonNegative(Centered(xs));
    QuotientZero(Dot(Centered(xs), Centered(xs)), (|xs| - 1) as real);
    QuotientSign(Dot(Centered(xs), Centered(xs)), (|xs| - 1) as real);
  }

  lemma QuotientSign(x: real, n: real)
    requires x >= 0.0 && n > 0.0
    ensures x / n >= 0.0
  {
  }

  lemma RootProduct(x: real, y: real)
    requires x >= 0.0 && y >= 0.0
    ensures Mul(x, y) >= 0.0 && (Mul(x, y) == 0.0 <==> Mul(x, x) == 0.0 || Mul(y, y) == 0.0)
  {
    MulSign(x, y);
    MulSign(x, x);
    MulSign(y, y);
  }

  // ---------------------------------------------------------------- the theorems

  /** The square of the covariance is at most the product of the variances (here with the
      common divisor (n - 1)^2 cleared), so a defined correlation never leaves [-1, 1]. */
  lemma CauchySchwarz(xs: seq<real>, ys: seq<real>)
    requires |xs| == |ys|
    ensures Mul(Dot(xs, ys), Dot(xs, ys)) <= Mul(Dot(xs, xs), Dot(ys, ys))
  {
    var xx, xy, yy := Dot(xs, xs), Dot(xs, ys), Dot(ys, ys);
    DotSelfNonNegative(ys);
    forall t: real ensures Quadratic(xx, xy, yy, t) >= 0.0 {
      DotCombine(xs, t, ys, 0.0);
      DotSelfNonNegative(Combine(xs, t, ys, 0.0));
      assert Mul(0.0, Sum(xs) - Mul(t, Sum(ys))) == 0.0 && Mul(|xs| as real, Mul(0.0, 0.0)) == 0.0;
    }
    Discriminant(xx, xy, yy);
  }

  lemma ScaledProduct(x: real, y: real, n: real)
    requires n > 0.0
    ensures Mul(n, Mul(n, Mul(x / n, y / n))) == Mul(x, y)
  {
    var a, b := x / n, y / n;
    assert a * n == x && b * n == y;
    calc {
      Mul(n, Mul(n, Mul(a, b)));
      n * (n * (a * b));
      (a * n) * (b * n);
      Mul(x, y);
    }
  }

  lemma CancelScale(n: real, a: real, b: real)
    requires n > 0.0 && Mul(n, Mul(n, a)) <= Mul(n, Mul(n, b))
    ensures a <= b
  {
    if a > b {
      MulSign(n, a - b);
      MulAdd(a, b, n);
      MulSign(n, Mul(n, a) - Mul(n, b));
      MulAdd(Mul(n, a), Mul(n, b), n);
    }
  }

  /** The square of the sample covariance is at most the product of the sample variances. */
  lemma CovarianceBounded(xs: seq<real>, ys: seq<real>)
    requires |xs| == |ys| && |xs| >= 2
    ensures Mul(Covariance(xs, ys), Covariance(xs, ys)) <= Mul(Covariance(xs, xs), Covariance(ys, ys))
  {
    var cx, cy, n := Centered(xs), Centered(ys), (|xs| - 1) as real;
    CauchySchwarz(cx, cy);
    ScaledProduct(Dot(cx, cy), Dot(cx, cy), n);
    ScaledProduct(Dot(cx, cx), Dot(cy, cy), n);
    CancelScale(n, Mul(Covariance(xs, ys), Covariance(xs, ys)), Mul(Covariance(xs, xs), Covariance(ys, ys)));
  }

  lemma SquareOfProduct(x: real, y: real)
    ensures Mul(Mul(x, y), Mul(x, y)) == Mul(Mul(x, x), Mul(y, y))
  {
    calc {
      Mul(Mul(x, y), Mul(x, y));
      (x * y) * (x * y);
      (x * x) * (y * y);
      Mul(Mul(x, x), Mul(y, y));
    }
  }

  /** A defined correlation never leaves [-1, 1]. */
  lemma CorrelationBounded(cov: real, varX: real, varY: real, sx: real, sy: real, rho: real)
    requires Mul(cov, cov) <= Mul(varX, varY) && Mul(sx, sx) == varX && Mul(sy, sy) == varY
    requires Mul(sx, sy) > 0.0 && Mul(rho, Mul(sx, sy)) == cov
    ensures -1.0 <= rho <= 1.0
  {
    var d := Mul(sx, sy);
    SquareOfProduct(sx, sy);
    SquareOfProduct(rho, d);
    MulSign(d, d);
    if Mul(rho, rho) > 1.0 {
      MulAdd(Mul(rho, rho), 1.0, Mul(d, d));
      MulSign(Mul(rho, rho) - 1.0, Mul(d, d));
    }
    SquareAtMostOne(rho);
  }

  lemma SquareAtMostOne(x: real)
    requires Mul(x, x) <= 1.0
    ensures -1.0 <= x <= 1.0
  {
    assert Mul(x - 1.0, x + 1.0) == Mul(x, x) - 1.0;
    MulSign(x - 1.0, x + 1.0);
  }

  function Quadratic(a: real, b: real, c: real, t: real): real { a - 2.0 * Mul(t, b) + Mul(Mul(t, t), c) }

  lemma BelowZero(a: real, b: real) returns (t: real)
    requires b != 0.0
    ensures Quadratic(a, b, 0.0, t) == -1.0
  {
    t := (a + 1.0) / (2.0 * b);
    assert t * (2.0 * b) == a + 1.0;
  }

  lemma Discriminant(a: real, b: real, c: real)
    requires c >= 0.0 && forall t: real :: Quadratic(a, b, c, t) >= 0.0
    ensures Mul(b, b) <= Mul(a, c)
  {
    if c == 0.0 {
      if b != 0.0 {
        var _ := BelowZero(a, b);
        assert false;
      }
    } else {
      var t := b / c;
      assert t * c == b;
      assert Quadratic(a, b, c, t) == a - t * b;
      MulSign(a - t * b, c);
      assert Mul(a - t * b, c) == Mul(a, c) - (t * c) * b;
    }
  }

  /** Residual sum of squares of the line with slope m and intercept k. */
  function Residual(asset: seq<real>, bench: seq<real>, m: real, k: real): real
    requires |asset| == |bench|
  {
    var e := Combine(asset, m, bench, -k);
    Dot(e, e)
  }

  lemma CenteredResidual(asset: seq<real>, bench: seq<real>, m: real, k: real)
    requires |asset| == |bench|
    ensures Combine(asset, m, bench, -k) ==
            Combine(Centered(asset), m, Centered(bench), Average(asset) - Mul(m, Average(bench)) - k)
  {
    var p, q := Average(asset), Average(bench);
    var g := p - Mul(m, q) - k;
    forall i | 0 <= i < |asset|
      ensures asset[i] - Mul(m, bench[i]) - k == (asset[i] - p) - Mul(m, bench[i] - q) + g
    {
      assert Mul(m, bench[i] - q) == Mul(m, bench[i]) - Mul(m, q);
    }
  }

  lemma ResidualParts(asset: seq<real>, bench: seq<real>, m: real, k: real)
    requires |asset| == |bench|
    ensures var a, b := Centered(asset), Centered(bench);
            var g := Average(asset) - Mul(m, Average(bench)) - k;
            Residual(asset, bench, m, k) ==
            Quadratic(Dot(a, a), Dot(a, b), Dot(b, b), m) + Mul(|asset| as real, Mul(g, g))
  {
    var a, b := Centered(asset), Centered(bench);
    var g := Average(asset) - Mul(m, Average(bench)) - k;
    CenteredResidual(asset, bench, m, k);
    DotCombine(a, m, b, g);
    CenteredSumsToZero(asset);
    CenteredSumsToZero(bench);
    assert Mul(m, 0.0) == 0.0 && Mul(g, 0.0 - Mul(m, 0.0)) == 0.0;
  }

  /** Completing the square around the vertex. */
  lemma Vertex(a: real, b: real, c: real, beta: real, m: real)
    requires Mul(beta, c) == b && c > 0.0
    ensures Quadratic(a, b, c, m) == Quadratic(a, b, c, beta) + Mul(c, Mul(m - beta, m - beta))
    ensures m != beta ==> Quadratic(a, b, c, m) > Quadratic(a, b, c, beta)
  {
    MulSign(m - beta, m - beta);
    MulSign(c, Mul(m - beta, m - beta));
  }

  /** Beta, with the intercept through the two means, minimises the residual sum of squares
      over every line, and every line with another slope is strictly worse. */
  lemma BetaIsLeastSquares(asset: seq<real>, bench: seq<real>, beta: real, m: real, k: real)
    requires |asset| == |bench| && IsBeta(asset, bench, beta)
    requires Dot(Centered(bench), Centered(bench)) != 0.0
    ensures var best := Residual(asset, bench, beta, Average(asset) - Mul(beta, Average(bench)));
            best <= Residual(asset, bench, m, k) && (m != beta ==> best < Residual(asset, bench, m, k))
  {
    var a, b := Centered(asset), Centered(bench);
    DotSelfNonNegative(b);
    ResidualParts(asset, bench, m, k);
    ResidualParts(asset, bench, beta, Average(asset) - Mul(beta, Average(bench)));
    Vertex(Dot(a, a), Dot(a, b), Dot(b, b), beta, m);
    Vertex(Dot(a, a), Dot(a, b), Dot(b, b), beta, beta);
    var g := Average(asset) - Mul(m, Average(bench)) - k;
    assert Mul(g, g) >= 0.0 && Mul(0.0, 0.0) == 0.0 && Mul(|asset| as real, 0.0) == 0.0;
    assert Mul(|asset| as real, Mul(g, g)) >= 0.0;
  }

  /** An asset that is exactly k times the benchmark plus a constant has beta k. */
  lemma ExactLineBeta(asset: seq<real>, bench: seq<real>, beta: real, m: real, k: real)
    requires |asset| == |bench| && IsBeta(asset, bench, beta)
    requires Dot(Centered(bench), Centered(bench)) != 0.0
    requires forall i :: 0 <= i < |asset| ==> asset[i] == Mul(m, bench[i]) + k
    ensures beta == m
  {
    BetaIsLeastSquares(asset, bench, beta, m, k);
    var e := Combine(asset, m, bench, -k);
    assert forall i :: 0 <= i < |e| ==> e[i] == 0.0;
    DotZero(e);
    DotSelfNonNegative(Combine(asset, beta, bench, -(Average(asset) - Mul(beta, Average(bench)))));
  }

  lemma {:induction false} DotZero(xs: seq<real>)
    requires forall i :: 0 <= i < |xs| ==> xs[i] == 0.0
    ensures Dot(xs, xs) == 0.0
  {
    if xs != [] {
      DotZero(xs[..|xs| - 1]);
    }
  }

  // ---------------------------------------------------------------- covariance without means

  function Shifted(xs: seq<real>, m: real): (r: seq<real>)
    ensures |r| == |xs|
  {
    seq(|xs|, i requires 0 <= i < |xs| => xs[i] - m)
  }

  /** Over all pairs of periods, the product of what the two series moved from one to the other. */
  function PairMoves(xs: seq<real>, ys: seq<real>): real
    requires |xs| == |ys|
  {
    if xs == [] then 0.0 else
    var n := |xs| - 1;
    PairMoves(xs[..n], ys[..n]) + Dot(Shifted(xs[..n], xs[n]), Shifted(ys[..n], ys[n]))
  }

  /** A sum of shifted products, expanded. */
  function ShiftedSum(xy: real, sx: real, sy: real, n: real, a: real, b: real): real {
    xy - Mul(a, sy) - Mul(b, sx) + Mul(n, Mul(a, b))
  }

  lemma {:induction false} DotShifted(xs: seq<real>, ys: seq<real>, a: real, b: real)
    requires |xs| == |ys|
    ensures Dot(Shifted(xs, a), Shifted(ys, b)) == ShiftedSum(Dot(xs, ys), Sum(xs), Sum(ys), |xs| as real, a, b)
  {
    if xs == [] {
      assert Mul(a, 0.0) == 0.0 && Mul(b, 0.0) == 0.0 && Mul(0.0, Mul(a, b)) == 0.0;
    } else {
      var n := |xs| - 1;
      DotShifted(xs[..n], ys[..n], a, b);
      assert Shifted(xs, a)[..n] == Shifted(xs[..n], a) && Shifted(ys, b)[..n] == Shifted(ys[..n], b);
      ShiftedTerm(Dot(xs[..n], ys[..n]), Sum(xs[..n]), Sum(ys[..n]), n as real, a, b, xs[n], ys[n]);
    }
  }

  lemma ShiftedTerm(xy: real, sx: real, sy: real, n: real, a: real, b: real, x: real, y: real)
    ensures ShiftedSum(xy + Mul(x, y), sx + x, sy + y, n + 1.0, a, b) == ShiftedSum(xy, sx, sy, n, a, b) + Mul(x - a, y - b)
  {
  }

  lemma {:induction false} PairMovesIs(xs: seq<real>, ys: seq<real>)
    requires |xs| == |ys|
    ensures PairMoves(xs, ys) == Mul(|xs| as real, Dot(xs, ys)) - Mul(Sum(xs), Sum(ys))
  {
    if xs != [] {
      var n := |xs| - 1;
      PairMovesIs(xs[..n], ys[..n]);
      DotShifted(xs[..n], ys[..n], xs[n], ys[n]);
      OnePeriodMore(Dot(xs[..n], ys[..n]), Sum(xs[..n]), Sum(ys[..n]), n as real, xs[n], ys[n]);
    }
  }

  lemma OnePeriodMore(xy: real, sx: real, sy: real, n: real, x: real, y: real)
    ensures Mul(n + 1.0, xy + Mul(x, y)) - Mul(sx + x, sy + y) == Mul(n, xy) - Mul(sx, sy) + ShiftedSum(xy, sx, sy, n, x, y)
  {
  }

  /** The sample covariance of n returns, without their means: n(n - 1) of it are the products of the
      moves between all pairs of periods. */
  lemma CovarianceByPairs(xs: seq<real>, ys: seq<real>)
    requires |xs| == |ys| && |xs| >= 2
    ensures Mul(|xs| as real, Mul((|xs| - 1) as real, Covariance(xs, ys))) == PairMoves(xs, ys)
  {
    var n := |xs| as real;
    DotShifted(xs, ys, Average(xs), Average(ys));
    assert Centered(xs) == Shifted(xs, Average(xs)) && Centered(ys) == Shifted(ys, Average(ys));
    PairMovesIs(xs, ys);
    DivideBack(Dot(Centered(xs), Centered(ys)), (|xs| - 1) as real);
    assert Mul((|xs| - 1) as real, Covariance(xs, ys)) == Dot(Centered(xs), Centered(ys));
    MeansOut(Dot(xs, ys), Sum(xs), Sum(ys), n, Average(xs), Average(ys));
  }

  lemma MeansOut(xy: real, sx: real, sy: real, n: real, a: real, b: real)
    requires n > 0.0 && a == sx / n && b == sy / n
    ensures Mul(n, ShiftedSum(xy, sx, sy, n, a, b)) == Mul(n, xy) - Mul(sx, sy)
  {
    assert a * n == sx && b * n == sy;
    CentredIdentity(xy, n, a, b);
  }

  lemma CentredIdentity(xy: real, n: real, a: real, b: real)
    ensures Mul(n, ShiftedSum(xy, a * n, b * n, n, a, b)) == Mul(n, xy) - Mul(a * n, b * n)
  {
  }
}
