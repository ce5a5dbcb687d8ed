/** The GJR-GARCH forward variance (core/internal/garch): parameters, their validation and
    the forward recursion behind the per-expiry volatility.  The square root that turns the
    annualised variance into a volatility is not applied. */
module Garch {
  import opened Common

  datatype Params = Params(omega: real, alpha: real, leverage: real, beta: real)
  datatype State = State(lastH: real, lastEps: real)

  function Persistence(p: Params): real { p.alpha + p.beta + 0.5 * p.leverage }

  predicate Validate(p: Params) {
    p.omega > 0.0 && p.alpha >= 0.0 && p.beta >= 0.0 && p.leverage >= 0.0 && Persistence(p) < 1.0
  }

  /** The long-run daily variance. */
  function Unconditional(p: Params): (u: real)
    requires Validate(p)
    ensures u > 0.0 && u == p.omega + Mul(Persistence(p), u)
  {
    LongRun(p.omega, Persistence(p));
    p.omega / (1.0 - Persistence(p))
  }

  lemma LongRun(omega: real, x: real)
    requires omega > 0.0 && x < 1.0
    ensures omega / (1.0 - x) > 0.0
    ensures omega / (1.0 - x) == omega + Mul(x, omega / (1.0 - x))
  {
    var u := omega / (1.0 - x);
    assert u * (1.0 - x) == omega;
  }

  /** Next day's variance: the last shock is observed, so it carries the full leverage. */
  function FirstDay(p: Params, s: State): (h: real)
    requires Validate(p)
    ensures h > 0.0
  {
    var h0 := if s.lastH > 0.0 then s.lastH else Unconditional(p);
    var neg := if s.lastEps < 0.0 then 1.0 else 0.0;
    var shock := Mul(p.alpha + p.leverage * neg, Mul(s.lastEps, s.lastEps));
    MulSign(p.leverage, neg);
    assert p.leverage * neg == Mul(p.leverage, neg);
    MulSign(s.lastEps, s.lastEps);
    MulSign(p.alpha + p.leverage * neg, Mul(s.lastEps, s.lastEps));
    MulSign(p.beta, h0);
    p.omega + shock + Mul(p.beta, h0)
  }

  /** Variance of day k + 1, and the sum over the first n days. */
  function Day(p: Params, h1: real, k: nat): real {
    if k == 0 then h1 else p.omega + Mul(Persistence(p), Day(p, h1, k - 1))
  }
  function Total(p: Params, h1: real, n: nat): real {
    if n == 0 then 0.0 else Total(p, h1, n - 1) + Day(p, h1, n - 1)
  }

  /** The square of `SigmaBarT`. */
  method SigmaBarSquared(p: Params, s: State, days: int) returns (r: Option<real>)
    ensures r.Some? <==> days >= 1 && Validate(p)
    ensures r.Some? ==> r.value == 252.0 * Total(p, FirstDay(p, s), days) / days as real
  {
    if days < 1 || !Validate(p) {
      return None;
    }
    var h := FirstDay(p, s);
    var sum := h;
    var coef := Persistence(p);
    var k := 1;
    assert Total(p, h, 1) == Total(p, h, 0) + Day(p, h, 0);
    while k < days
      invariant 1 <= k <= days
      invariant h == Day(p, FirstDay(p, s), k - 1) && sum == Total(p, FirstDay(p, s), k)
    {
      h := p.omega + Mul(coef, h);
      sum := sum + h;
      k := k + 1;
    }
    r := Some(252.0 * sum / days as real);
  }

  // ---------------------------------------------------------------- what a day does

  /** The variance a state starts from; without one, the long-run variance. */
  function Standing(p: Params, s: State): real
    requires Validate(p)
  {
    if s.lastH > 0.0 then s.lastH else p.omega / (1.0 - p.alpha - p.beta - 0.5 * p.leverage)
  }

  /** Good news and bad: the next day's variance after a rise, and what a fall of the same size adds
      to it. */
  lemma NextDay(p: Params, s: State)
    requires Validate(p)
    ensures s.lastEps >= 0.0 ==> FirstDay(p, s) == p.omega + p.alpha * (s.lastEps * s.lastEps) + p.beta * Standing(p, s)
    ensures s.lastEps < 0.0 ==> FirstDay(p, s) == FirstDay(p, s.(lastEps := -s.lastEps)) + p.leverage * (s.lastEps * s.lastEps)
  {
    if s.lastEps < 0.0 {
      FallOver(p.alpha, p.leverage, s.lastEps);
    }
  }

  lemma FallOver(alpha: real, leverage: real, eps: real)
    ensures Mul(alpha + leverage * 1.0, Mul(eps, eps)) == Mul(alpha + leverage * 0.0, Mul(-eps, -eps)) + leverage * (eps * eps)
  {
    assert Mul(-eps, -eps) == Mul(eps, eps);
    MulAdd(alpha, leverage, Mul(eps, eps));
  }

  /** The forward recursion is the mean of the two: with a shock as large as the variance, a fall and a
      rise average to the next step of the loop. */
  lemma RecursionIsMean(p: Params, h: real, eps: real)
    requires Validate(p) && h > 0.0 && eps * eps == h
    ensures (FirstDay(p, State(h, eps)) + FirstDay(p, State(h, -eps))) / 2.0 == Day(p, h, 1)
  {
    NextDay(p, State(h, eps));
    NextDay(p, State(h, -eps));
    assert (-eps) * (-eps) == h;
    assert Day(p, h, 0) == h;
    Weighted(p, h);
  }

  lemma Weighted(p: Params, h: real)
    ensures Mul(Persistence(p), h) == p.alpha * h + p.beta * h + 0.5 * (p.leverage * h)
  {
  }

  // ---------------------------------------------------------------- the closed form

  function Pow(x: real, n: nat): real { if n == 0 then 1.0 else Mul(x, Pow(x, n - 1)) }

  /** 1 + x + ... + x^(n-1) */
  function Geometric(x: real, n: nat): real { if n == 0 then 0.0 else Geometric(x, n - 1) + Pow(x, n - 1) }

  lemma {:induction false} DayClosed(p: Params, h1: real, k: nat)
    requires Validate(p)
    ensures Day(p, h1, k) == Unconditional(p) + Mul(Pow(Persistence(p), k), h1 - Unconditional(p))
  {
    if k > 0 {
      DayClosed(p, h1, k - 1);
      Distribute(Persistence(p), Unconditional(p), Pow(Persistence(p), k - 1), h1 - Unconditional(p));
    }
  }

  lemma Distribute(x: real, u: real, y: real, z: real)
    ensures Mul(x, u + Mul(y, z)) == Mul(x, u) + Mul(Mul(x, y), z)
  {
  }

  lemma {:induction false} TotalClosed(p: Params, h1: real, n: nat)
    requires Validate(p)
    ensures var u := Unconditional(p);
            Total(p, h1, n) == Mul(n as real, u) + Mul(Geometric(Persistence(p), n), h1 - u)
  {
    if n > 0 {
      TotalClosed(p, h1, n - 1);
      DayClosed(p, h1, n - 1);
      MulAdd((n - 1) as real, 1.0, Unconditional(p));
      MulAdd(Geometric(Persistence(p), n - 1), Pow(Persistence(p), n - 1), h1 - Unconditional(p));
    }
  }

  lemma {:induction false} GeometricClosed(x: real, n: nat)
    ensures Mul(Geometric(x, n), 1.0 - x) == 1.0 - Pow(x, n)
  {
    if n > 0 {
      GeometricClosed(x, n - 1);
      MulAdd(Geometric(x, n - 1), Pow(x, n - 1), 1.0 - x);
      assert Mul(Pow(x, n - 1), 1.0 - x) == Pow(x, n - 1) - Mul(x, Pow(x, n - 1));
    }
  }

  lemma {:induction false} PowShrinks(x: real, n: nat)
    requires 0.0 <= x < 1.0
    ensures 0.0 <= Pow(x, n) <= 1.0 && Pow(x, n + 1) <= Pow(x, n)
  {
    if n > 0 {
      PowShrinks(x, n - 1);
    }
    ScaledDown(x, Pow(x, n));
  }

  lemma ScaledDown(x: real, y: real)
    requires 0.0 <= x < 1.0 && 0.0 <= y
    ensures 0.0 <= Mul(x, y) <= y
  {
    MulSign(x, y);
    MulSign(1.0 - x, y);
    MulAdd(1.0, x, y);
  }

  lemma LastTerm(m: real, p: real, q: real)
    requires m >= 0.0 && q <= p
    ensures Mul(m + 1.0, q) <= Mul(m, p) + p
  {
    MulSign(m + 1.0, p - q);
    assert Mul(m + 1.0, p - q) == Mul(m, p) + p - Mul(m + 1.0, q);
  }

  /** n terms, each at least as large as the next power, the first strictly larger. */
  lemma {:induction false} GeometricAboveLast(x: real, n: nat)
    requires 0.0 <= x < 1.0 && n >= 1
    ensures Mul(n as real, Pow(x, n)) < Geometric(x, n) <= n as real
  {
    PowShrinks(x, n - 1);
    if n == 1 {
      assert Geometric(x, 0) == 0.0 && Pow(x, 0) == 1.0 && Pow(x, 1) == x;
    } else {
      GeometricAboveLast(x, n - 1);
      LastTerm((n - 1) as real, Pow(x, n - 1), Pow(x, n));
    }
  }

  /** The weight of the first day's excess over the long run in an n-day mean. */
  function Share(x: real, n: nat): real
    requires n >= 1
  {
    Geometric(x, n) / n as real
  }

  /** The n-day mean forward variance, before annualising. */
  function Mean(p: Params, h1: real, n: nat): real
    requires n >= 1
  {
    Total(p, h1, n) / n as real
  }

  lemma ShareBounds(x: real, n: nat)
    requires 0.0 <= x < 1.0 && n >= 1
    ensures 0.0 < Share(x, n + 1) < Share(x, n) <= 1.0
  {
    GeometricAboveLast(x, n);
    GeometricAboveLast(x, n + 1);
    PowShrinks(x, n);
    PowShrinks(x, n + 1);
    assert Mul((n + 1) as real, Pow(x, n + 1)) >= 0.0;
    FractionOrder(Geometric(x, n), n as real, Pow(x, n));
    FractionAtMostOne(Geometric(x, n), n as real);
    FractionPositive(Geometric(x, n + 1), (n + 1) as real);
  }

  lemma FractionOrder(g: real, n: real, q: real)
    requires n >= 1.0 && Mul(n, q) < g
    ensures (g + q) / (n + 1.0) < g / n
  {
    var s, t := g / n, (g + q) / (n + 1.0);
    assert s * n == g && t * (n + 1.0) == g + q;
    assert Mul(s - q, n) == g - Mul(n, q);
    MulSign(s - q, n);
    assert Mul(s - t, n + 1.0) == s - q;
    MulSign(s - t, n + 1.0);
  }
  lemma FractionAtMostOne(g: real, n: real)
    requires n >= 1.0 && g <= n
    ensures g / n <= 1.0
  {
    assert (g / n) * n == g;
  }
  lemma FractionPositive(g: real, n: real)
    requires n >= 1.0 && g > 0.0
    ensures g / n > 0.0
  {
  }

  lemma MeanByShare(p: Params, h1: real, n: nat)
    requires Validate(p) && n >= 1
    ensures Mean(p, h1, n) == Unconditional(p) + Mul(Share(Persistence(p), n), h1 - Unconditional(p))
  {
    TotalClosed(p, h1, n);
    DivideOut(n as real, Unconditional(p), Geometric(Persistence(p), n), h1 - Unconditional(p));
  }

  lemma DivideOut(n: real, u: real, g: real, z: real)
    requires n >= 1.0
    ensures (Mul(n, u) + Mul(g, z)) / n == u + Mul(g / n, z)
  {
    assert n * (u + Mul(g / n, z)) == Mul(n, u) + Mul(g, z) by { assert n * (g / n) == g; }
  }

  /** For every valid parameter set, last state and horizon: the mean forward variance is
      positive, lies between the first day's variance and the long-run one, is strictly
      nearer to the long-run one for a longer horizon unless it already started there. */
  lemma TermStructure(p: Params, s: State, n: nat)
    requires Validate(p) && n >= 1
    ensures var u, h1 := Unconditional(p), FirstDay(p, s);
            && Mean(p, h1, n) > 0.0
            && (h1 >= u ==> u <= Mean(p, h1, n) <= h1)
            && (h1 <= u ==> h1 <= Mean(p, h1, n) <= u)
            && (h1 > u ==> u < Mean(p, h1, n + 1) < Mean(p, h1, n))
            && (h1 < u ==> Mean(p, h1, n) < Mean(p, h1, n + 1) < u)
  {
    var u, h1, x := Unconditional(p), FirstDay(p, s), Persistence(p);
    MeanByShare(p, h1, n);
    MeanByShare(p, h1, n + 1);
    ShareBounds(x, n);
    Blend(Share(x, n), Share(x, n + 1), h1 - u);
  }

  /** A smaller positive share of a gap keeps its sign and is strictly smaller. */
  lemma Blend(s: real, t: real, gap: real)
    requires 0.0 < t < s <= 1.0
    ensures gap > 0.0 ==> 0.0 < Mul(t, gap) < Mul(s, gap) <= gap
    ensures gap < 0.0 ==> gap <= Mul(s, gap) < Mul(t, gap) < 0.0
    ensures gap == 0.0 ==> Mul(s, gap) == 0.0
  {
    assert Mul(s - t, gap) == Mul(s, gap) - Mul(t, gap);
    assert Mul(1.0 - s, gap) == gap - Mul(s, gap);
  }

  /** The distance left, in closed form: it falls like (1 - x^n) / (n (1 - x)). */
  lemma ConvergenceRate(p: Params, s: State, n: nat)
    requires Validate(p) && n >= 1
    ensures var u, h1 := Unconditional(p), FirstDay(p, s);
            var gap, left := h1 - u, Mean(p, h1, n) - u;
            Mul(Mul(n as real, 1.0 - Persistence(p)), left) == Mul(1.0 - Pow(Persistence(p), n), gap)
  {
    var u, h1, x := Unconditional(p), FirstDay(p, s), Persistence(p);
    MeanByShare(p, h1, n);
    GeometricClosed(x, n);
    var g := Geometric(x, n);
    assert Mul(n as real, Share(x, n)) == g;
    Reorder(n as real, 1.0 - x, Share(x, n), h1 - u);
  }

  lemma Reorder(n: real, r: real, s: real, z: real)
    ensures Mul(Mul(n, r), Mul(s, z)) == Mul(Mul(Mul(n, s), r), z)
  {
  }
}
