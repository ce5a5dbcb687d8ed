/** Brent-Dekker root finding (core/internal/rootfind/brent.go) over exact reals.

    `FindRoot` keeps the loop of the source, with its rotation of a, b, c, d, e and
    their function values.  It returns a ghost trace: the bracket at every pass of the
    loop, after the renaming at its top.  Everything else is proved about ANY
    trace whose consecutive entries are related by `Advance`. */
module Brent {
  import opened Common

  /** What the objective returns at a point; the source tests for NaN and infinities. */
  datatype Value = Finite(v: real) | NonFinite

  datatype Outcome = Root(x: real) | NoBracket | BadObjective

  /** One pass of the loop: the root lies between `b` (the better end) and `c`;
      `d` is the last step and `e` the one before it. */
  datatype Bracket = Bracket(b: real, c: real, d: real, e: real)

  const EPS: real := 0.000_000_000_000_001
  const DEFAULT_TOL: real := 0.001
  const DEFAULT_MAX_ITER: int := 100

  /** Half the width at which the loop stops; `tol1` in the source. */
  function Tol1(b: real, tol: real): real { 2.0 * EPS * Abs(b) + 0.5 * tol }

  function Width(k: Bracket): real { Abs(k.c - k.b) }
  function Half(k: Bracket): real { 0.5 * (k.c - k.b) }

  predicate StrictlyBetween(x: real, p: real, q: real) { Min(p, q) < x < Max(p, q) }

  /** The ends differ in sign, and b is the better one. */
  ghost predicate SignChange(f: real -> Value, k: Bracket) {
    && f(k.b).Finite? && f(k.c).Finite? && ((f(k.b).v > 0.0) != (f(k.c).v > 0.0))
    && Abs(f(k.b).v) <= Abs(f(k.c).v)
  }

  /** The step `s` taken from `k`, and which of the two ways it was chosen. */
  ghost predicate Stepped(k: Bracket, s: real, tol: real) {
    && Within(k.b + s, k.b, k.c) && (tol > 0.0 ==> StrictlyBetween(k.b + s, k.b, k.c))
    && 4.0 * Abs(s) < 3.0 * Width(k)
  }
  ghost predicate Bisected(k: Bracket, s: real, d: real, e: real) {
    s == Half(k) && d == s && e == s
  }
  ghost predicate Interpolated(k: Bracket, d: real, e: real, tol: real) {
    Abs(k.e) >= 0.5 * tol && e == k.d && 2.0 * Abs(d) < Abs(k.e)
  }

  /** The new bracket joins the new point x either to the far end c (then d and e
      record how the step was chosen) or to the old better end b (then d and e restart
      from the step itself).  The last two conjuncts allow the two ends to be swapped. */
  ghost predicate JoinsFar(k: Bracket, k': Bracket, s: real, tol: real) {
    && (Bisected(k, s, k'.d, k'.e) || Interpolated(k, k'.d, k'.e, tol))
    && ((k'.b == k.b + s && k'.c == k.c) || (k'.c == k.b + s && k'.b == k.c))
  }
  ghost predicate JoinsNear(k: Bracket, k': Bracket, s: real) {
    && k'.d == s && k'.e == s
    && ((k'.b == k.b + s && k'.c == k.b) || (k'.c == k.b + s && k'.b == k.b))
  }
  ghost predicate Advance(k: Bracket, k': Bracket, s: real, tol: real) {
    Width(k) > tol && Stepped(k, s, tol) && (JoinsFar(k, k', s, tol) || JoinsNear(k, k', s))
  }
  ghost predicate Follows(k: Bracket, k': Bracket, tol: real) {
    exists s: real :: Advance(k, k', s, tol)
  }

  ghost predicate IsTrace(f: real -> Value, trace: seq<Bracket>, a: real, b: real, tol: real) {
    && (forall i :: 0 <= i < |trace| ==> SignChange(f, trace[i]))
    && (forall i :: 0 < i < |trace| ==> Follows(trace[i - 1], trace[i], tol))
    && (|trace| > 0 ==> Starts(trace[0], a, b))
  }
  ghost predicate Starts(k: Bracket, a: real, b: real) {
    && ((k.b == a && k.c == b) || (k.b == b && k.c == a))
    && k.d == b - a && k.e == b - a
  }

  // ---------------------------------------------------------------- the loop as a function

  /** The loop's variables. */
  datatype Vars = Vars(a: real, fa: real, b: real, fb: real, c: real, fc: real, d: real, e: real)

  /** A quotient; the divisor is never zero where the loop divides. */
  function Ratio(x: real, y: real): real { if y == 0.0 then 0.0 else x / y }

  function Renamed(s: Vars): Vars {
    var s := if (s.fb > 0.0) == (s.fc > 0.0) then s.(c := s.a, fc := s.fa, d := s.b - s.a, e := s.b - s.a) else s;
    if Abs(s.fc) < Abs(s.fb) then s.(a := s.b, fa := s.fb, b := s.c, fb := s.fc, c := s.b, fc := s.fb) else s
  }

  /** The interpolation as p / q, before the sign is moved into q. */
  function QuadraticStep(s: Vars): (real, real) {
    var xm, t := 0.5 * (s.c - s.b), Ratio(s.fb, s.fa);
    if s.a == s.c then (Mul(2.0 * xm, t), 1.0 - t) else
    var q, u := Ratio(s.fa, s.fc), Ratio(s.fb, s.fc);
    (Mul(t, Mul(Mul(2.0 * xm, q), q - u) - Mul(s.b - s.a, u - 1.0)), Mul(Mul(q - 1.0, u - 1.0), t - 1.0))
  }
  function Fraction(s: Vars): (real, real) {
    var (p, q) := QuadraticStep(s);
    (Abs(p), if p > 0.0 then -q else q)
  }

  function Chosen(s: Vars, tol1: real): (real, real) {
    var xm := 0.5 * (s.c - s.b);
    if !(Abs(s.e) >= tol1 && Abs(s.fa) > Abs(s.fb)) then (xm, xm) else
    var (p, q) := Fraction(s);
    if Accepted(p, q, xm, s.e, tol1) then (Ratio(p, q), s.d) else (xm, xm)
  }

  /** The acceptance test of an interpolation. */
  predicate Accepted(p: real, q: real, xm: real, e: real, tol1: real) {
    2.0 * p < Min(3.0 * xm * q - Abs(tol1 * q), Abs(e * q))
  }

  function Reached(s: Vars, d: real, tol1: real): real {
    if Abs(d) > tol1 then s.b + d else if 0.5 * (s.c - s.b) < 0.0 then s.b - tol1 else s.b + tol1
  }

  /** The answer of the loop with n passes to go. */
  function Passing(f: real -> Value, s: Vars, tol: real, n: nat): Outcome
    decreases n, s
  {
    if n == 0 then Root(s.b) else
    if Done(Renamed(s), tol) then Root(Renamed(s).b) else
    match f(Tried(Renamed(s), tol))
    case NonFinite => BadObjective
    case Finite(v) => Passing(f, Passed(Renamed(s), tol, v), tol, n - 1)
  }

  /** Whether a pass ends the loop, the point it tries, and the variables after it. */
  predicate Done(s: Vars, tol: real) { Abs(0.5 * (s.c - s.b)) <= Tol1(s.b, tol) || s.fb == 0.0 }
  function Tried(s: Vars, tol: real): real { Reached(s, Chosen(s, Tol1(s.b, tol)).0, Tol1(s.b, tol)) }
  function Passed(s: Vars, tol: real, v: real): Vars {
    var (d, e) := Chosen(s, Tol1(s.b, tol));
    Vars(s.b, s.fb, Tried(s, tol), v, s.c, s.fc, d, e)
  }

  /** What `FindRoot` answers. */
  function RootOf(f: real -> Value, a: real, b: real, tol: real, maxIter: int): Outcome {
    if f(a).NonFinite? || f(b).NonFinite? then BadObjective else
    var fa, fb := f(a).v, f(b).v;
    if fa * fb > 0.0 then NoBracket else if fa == 0.0 then Root(a) else if fb == 0.0 then Root(b) else
    Passing(f, Vars(a, fa, b, fb, b, fb, b - a, b - a), tol, NonNegative(maxIter))
  }

  /** It depends on nothing of the objective but its values. */
  lemma {:induction false} SamePassing(f: real -> Value, g: real -> Value, s: Vars, tol: real, n: nat)
    requires forall x: real :: f(x) == g(x)
    ensures Passing(f, s, tol, n) == Passing(g, s, tol, n)
    decreases n
  {
    if n > 0 && f(Tried(Renamed(s), tol)).Finite? {
      SamePassing(f, g, Passed(Renamed(s), tol, f(Tried(Renamed(s), tol)).v), tol, n - 1);
    }
  }

  lemma SameRoot(f: real -> Value, g: real -> Value, a: real, b: real, tol: real, maxIter: int)
    requires forall x: real :: f(x) == g(x)
    ensures RootOf(f, a, b, tol, maxIter) == RootOf(g, a, b, tol, maxIter)
  {
    if f(a).Finite? && f(b).Finite? {
      SamePassing(f, g, Vars(a, f(a).v, b, f(b).v, b, f(b).v, b - a, b - a), tol, NonNegative(maxIter));
    }
  }

  // ---------------------------------------------------------------- the algorithm

  lemma CancelPositive(x: real, y: real, q: real)
    requires q > 0.0 && x * q < y * q
    ensures x < y
  {
  }

  lemma ScaleAbs(x: real, q: real)
    ensures Abs(x * q) == Abs(x) * Abs(q)
  {
    if x >= 0.0 && q >= 0.0 {
      assert x * q >= 0.0;
    } else if x >= 0.0 {
      assert x * q == -(x * (-q)) && x * (-q) >= 0.0;
    } else if q >= 0.0 {
      assert x * q == -((-x) * q) && (-x) * q >= 0.0;
    } else {
      assert x * q == (-x) * (-q) && (-x) * (-q) >= 0.0;
    }
  }

  lemma PositiveQuotient(p: real, q: real, xm: real, e: real)
    requires p >= 0.0 && q > 0.0 && e >= 0.0
    requires 2.0 * p < 3.0 * xm * q
    requires 2.0 * p < e * q
    ensures 0.0 <= 2.0 * (p / q) < 3.0 * xm && 2.0 * (p / q) < e
  {
    var d := p / q;
    assert d * q == p;
    CancelPositive(2.0 * d, 3.0 * xm, q);
    CancelPositive(2.0 * d, e, q);
  }

  /** d points from 0 towards m (or is 0). */
  predicate Toward(d: real, m: real) { if m > 0.0 then d >= 0.0 else d <= 0.0 }

  /** An accepted interpolation points from b towards c, stays inside the first three
      quarters of the bracket, and is under half of the step before last. */
  lemma AcceptedQuotient(p: real, q: real, xm: real, e: real, t: real)
    requires p >= 0.0 && Accepted(p, q, xm, e, t)
    ensures q != 0.0
    ensures Toward(p / q, xm)
    ensures 2.0 * Abs(p / q) < 3.0 * Abs(xm) && 2.0 * Abs(p / q) < Abs(e)
  {
    ScaleAbs(e, q);
    assert q != 0.0;
    assert 2.0 * p < 3.0 * xm * q && 2.0 * p < Abs(e) * Abs(q);
    if q > 0.0 {
      PositiveQuotient(p, q, xm, Abs(e));
    } else {
      NegatedQuotient(p, q, xm);
      PositiveQuotient(p, -q, -xm, Abs(e));
    }
  }

  lemma NegatedQuotient(p: real, q: real, xm: real)
    requires q < 0.0
    ensures p / q == -(p / -q) && 3.0 * xm * q == 3.0 * -xm * -q
  {
    assert (-(p / -q)) * q == p;
  }

  // ---------------------------------------------------------------- what an interpolation is

  /** x as a function of the value y there. */
  function Parabola(x0: real, m: real, n: real, y: real): real { x0 + m * y + n * y * y }

  /** The secant rule: with two points the step leads to where the line through them is zero. */
  lemma SecantStep(s: Vars, x0: real, m: real)
    requires s.c == s.a == Parabola(x0, m, 0.0, s.fa) && s.b == Parabola(x0, m, 0.0, s.fb)
    requires s.fa != 0.0 && s.fa != s.fb
    ensures var (p, q) := Fraction(s); q != 0.0 && s.b + p / q == x0
  {
    var t := s.fb / s.fa;
    assert t * s.fa == s.fb;
    assert t != 1.0;
    LineIdentity(t, s.fa, m);
    assert s.c - s.b == m * s.fa - m * (t * s.fa);
    assert Mul(2.0 * (0.5 * (s.c - s.b)), t) == (s.c - s.b) * t;
    StepTo(s, (s.c - s.b) * t, 1.0 - t, x0);
  }

  lemma LineIdentity(t: real, y: real, m: real)
    ensures (m * y - m * (t * y)) * t == (m * (t * y)) * (1.0 - t)
  {
  }

  /** With three points of different values, inverse quadratic interpolation leads to where the
      parabola through them, x as a function of the value, crosses zero. */
  lemma InverseQuadraticStep(s: Vars, x0: real, m: real, n: real)
    requires s.a == Parabola(x0, m, n, s.fa) && s.b == Parabola(x0, m, n, s.fb) && s.c == Parabola(x0, m, n, s.fc)
    requires s.a != s.c && s.fa != 0.0 && s.fc != 0.0 && s.fa != s.fb && s.fa != s.fc && s.fb != s.fc
    ensures var (p, q) := Fraction(s); q != 0.0 && s.b + p / q == x0
  {
    var t, q, u := s.fb / s.fa, s.fa / s.fc, s.fb / s.fc;
    Ratios(s, t, q, u);
    MulSign(q - 1.0, u - 1.0);
    MulSign(Mul(q - 1.0, u - 1.0), t - 1.0);
    Crossing(s, x0, m, n, t, q, u);
    StepTo(s, Numerator(s.c - s.b, s.b - s.a, t, q, u), Denominator(t, q, u), x0);
  }

  /** The interpolation by the ways from b to c and from a to b and the ratios of the values. */
  function Numerator(v: real, w: real, t: real, q: real, u: real): real {
    Mul(t, Mul(Mul(2.0 * (0.5 * v), q), q - u) - Mul(w, u - 1.0))
  }
  function Denominator(t: real, q: real, u: real): real { Mul(Mul(q - 1.0, u - 1.0), t - 1.0) }

  lemma Ratios(s: Vars, t: real, q: real, u: real)
    requires s.fa != 0.0 && s.fc != 0.0 && t == s.fb / s.fa && q == s.fa / s.fc && u == s.fb / s.fc
    requires s.fa != s.fb && s.fa != s.fc && s.fb != s.fc
    ensures t * s.fa == s.fb && q * s.fc == s.fa && u == t * q && t != 1.0 && q != 1.0 && u != 1.0
  {
    assert t * s.fa == s.fb && q * s.fc == s.fa && u * s.fc == s.fb;
    assert (t * q) * s.fc == t * (q * s.fc);
    SameRatio(u, t * q, s.fc);
  }

  /** That quotient measures the way to the crossing. */
  lemma Crossing(s: Vars, x0: real, m: real, n: real, t: real, q: real, u: real)
    requires s.a == Parabola(x0, m, n, s.fa) && s.b == Parabola(x0, m, n, s.fb) && s.c == Parabola(x0, m, n, s.fc)
    requires q * s.fc == s.fa && t * s.fa == s.fb && u == t * q
    ensures Numerator(s.c - s.b, s.b - s.a, t, q, u) == Mul(s.b - x0, Denominator(t, q, u))
  {
    var a, b, c := Offset(m, n, q, s.fc), Offset(m, n, t * q, s.fc), Offset(m, n, 1.0, s.fc);
    Offsets(s, x0, m, n, t, q);
    ParabolaIdentity(t, q, s.fc, m, n);
    assert s.c - s.b == c - b && s.b - s.a == b - a && s.b - x0 == b;
  }

  function PlainNumerator(v: real, w: real, t: real, q: real, u: real): real { t * (v * q * (q - u) - w * (u - 1.0)) }
  function PlainDenominator(t: real, q: real, u: real): real { (q - 1.0) * (u - 1.0) * (t - 1.0) }

  lemma Products(v: real, w: real, t: real, q: real, u: real)
    ensures Numerator(v, w, t, q, u) == PlainNumerator(v, w, t, q, u) && Denominator(t, q, u) == PlainDenominator(t, q, u)
  {
  }

  lemma SameRatio(u: real, v: real, y: real)
    requires y != 0.0 && u * y == v * y
    ensures u == v
  {
    assert (u - v) * y == 0.0;
  }

  /** A point's offset from the crossing, where its value is r times y. */
  function Offset(m: real, n: real, r: real, y: real): real { m * r * y + n * r * r * y * y }

  lemma Offsets(s: Vars, x0: real, m: real, n: real, t: real, q: real)
    requires s.a == Parabola(x0, m, n, s.fa) && s.b == Parabola(x0, m, n, s.fb) && s.c == Parabola(x0, m, n, s.fc)
    requires q * s.fc == s.fa && t * s.fa == s.fb
    ensures s.c - x0 == Offset(m, n, 1.0, s.fc) && s.a - x0 == Offset(m, n, q, s.fc) && s.b - x0 == Offset(m, n, t * q, s.fc)
  {
    assert s.fb == (t * q) * s.fc;
    OffsetIs(x0, m, n, 1.0, s.fc);
    OffsetIs(x0, m, n, q, s.fc);
    OffsetIs(x0, m, n, t * q, s.fc);
  }

  lemma OffsetIs(x0: real, m: real, n: real, r: real, y: real)
    ensures Parabola(x0, m, n, r * y) - x0 == Offset(m, n, r, y)
  {
  }

  lemma ParabolaIdentity(t: real, q: real, y: real, m: real, n: real)
    ensures var a, b, c := Offset(m, n, q, y), Offset(m, n, t * q, y), Offset(m, n, 1.0, y);
            Numerator(c - b, b - a, t, q, t * q) == Mul(b, Denominator(t, q, t * q))
  {
    var a, b, c := Offset(m, n, q, y), Offset(m, n, t * q, y), Offset(m, n, 1.0, y);
    Products(c - b, b - a, t, q, t * q);
    Identity(t, q, y, m, n);
  }

  lemma Identity(t: real, q: real, y: real, m: real, n: real)
    ensures PlainNumerator(Offset(m, n, 1.0, y) - Offset(m, n, t * q, y), Offset(m, n, t * q, y) - Offset(m, n, q, y), t, q, t * q)
            == Mul(Offset(m, n, t * q, y), PlainDenominator(t, q, t * q))
  {
  }

  /** Moving the sign into the divisor turns the quotient over. */
  lemma StepTo(s: Vars, p: real, q: real, x0: real)
    requires QuadraticStep(s) == (p, q) && q != 0.0 && p == (s.b - x0) * q
    ensures var (p', q') := Fraction(s); q' != 0.0 && s.b + p' / q' == x0
  {
    SignTurned(p, q, s.b, x0);
  }

  lemma SignTurned(p: real, q: real, b: real, x0: real)
    requires q != 0.0 && p == (b - x0) * q
    ensures var q' := if p > 0.0 then -q else q; b + Abs(p) / q' == x0
  {
    var d := x0 - b;
    assert p == -(d * q);
    if p > 0.0 {
      QuotientIs(d, p, -q);
    } else {
      QuotientIs(d, -p, q);
    }
  }

  lemma QuotientIs(d: real, p: real, q: real)
    requires q != 0.0 && p == d * q
    ensures p / q == d
  {
  }

  /** The acceptance test, said of the step itself: it leads from b towards c, by less than three
      quarters of the way less half the tolerance, and by less than half the step before last. */
  lemma AcceptedIff(p: real, q: real, xm: real, e: real, t: real)
    requires p > 0.0 && q != 0.0 && t >= 0.0
    ensures Accepted(p, q, xm, e, t) <==> StepFits(p / q, xm, e, t)
  {
    if q > 0.0 {
      AcceptedForward(p, q, xm, e, t);
    } else {
      AcceptedForward(p, -q, -xm, e, t);
      NegatedQuotient(p, q, xm);
      assert t * q == -(t * -q) && e * q == -(e * -q);
      assert Accepted(p, q, xm, e, t) <==> Accepted(p, -q, -xm, e, t);
      assert p / -q > 0.0;
    }
  }

  lemma AcceptedForward(p: real, q: real, xm: real, e: real, t: real)
    requires p > 0.0 && q > 0.0 && t >= 0.0
    ensures Accepted(p, q, xm, e, t) <==> StepFits(p / q, xm, e, t)
  {
    var d := p / q;
    assert d * q == p && d > 0.0;
    ScaleAbs(t, q);
    ScaleAbs(e, q);
    Divided(d, 3.0 * xm - t, q);
    Divided(d, Abs(e), q);
    assert Abs(t * q) == t * q && Abs(e * q) == Abs(e) * q && 3.0 * xm * q - t * q == (3.0 * xm - t) * q;
    assert Accepted(p, q, xm, e, t) <==> 2.0 * d < 3.0 * xm - t && 2.0 * d < Abs(e);
  }

  ghost predicate StepFits(d: real, xm: real, e: real, t: real) {
    (d > 0.0) == (xm > 0.0) && 2.0 * Abs(d) < 3.0 * Abs(xm) - t && 2.0 * Abs(d) < Abs(e)
  }

  lemma Divided(d: real, w: real, q: real)
    requires q > 0.0
    ensures 2.0 * (d * q) < w * q <==> 2.0 * d < w
  {
    MulSign(w - 2.0 * d, q);
    assert Mul(w - 2.0 * d, q) == w * q - 2.0 * (d * q);
  }

  lemma PositivePart(p: real, q: real)
    requires p >= 0.0 && q != 0.0 && p / q != 0.0
    ensures p > 0.0
  {
    assert (p / q) * q == p;
  }

  /** When the loop follows the interpolation: if the last steps were long enough and the values shrink,
      exactly when the crossing lies within those bounds; otherwise it halves the bracket. */
  lemma ChosenIs(s: Vars, tol1: real, x0: real)
    requires tol1 >= 0.0 && x0 != s.b
    requires Abs(s.fa) > Abs(s.fb) ==> var (p, q) := Fraction(s); q != 0.0 && s.b + p / q == x0
    ensures var xm, d := 0.5 * (s.c - s.b), x0 - s.b;
            Chosen(s, tol1) == if Abs(s.e) >= tol1 && Abs(s.fa) > Abs(s.fb) && StepFits(d, xm, s.e, tol1) then (d, s.d) else (xm, xm)
  {
    if Abs(s.e) >= tol1 && Abs(s.fa) > Abs(s.fb) {
      var (p, q) := Fraction(s);
      assert p / q == x0 - s.b;
      PositivePart(p, q);
      AcceptedIff(p, q, 0.5 * (s.c - s.b), s.e, tol1);
    }
  }

  /** Inverse quadratic interpolation, or the secant rule when a == c, as p / q with
      the sign moved into q. */
  method Interpolant(a: real, fa: real, b: real, fb: real, c: real, fc: real) returns (p: real, q: real)
    requires fa != 0.0 && fc != 0.0
    ensures p >= 0.0
    ensures forall d, e :: (p, q) == Fraction(Vars(a, fa, b, fb, c, fc, d, e))
  {
    var xm, s := 0.5 * (c - b), fb / fa;
    if a == c {
      p := Mul(2.0 * xm, s);
      q := 1.0 - s;
    } else {
      q := fa / fc;
      var r := fb / fc;
      p := Mul(s, Mul(Mul(2.0 * xm, q), q - r) - Mul(b - a, r - 1.0));
      q := Mul(Mul(q - 1.0, r - 1.0), s - 1.0);
    }
    if p > 0.0 {
      q := -q;
    }
    p := Abs(p);
  }

  /** The next step d and the one before it e: an accepted interpolation or bisection. */
  method ChooseStep(a: real, fa: real, b: real, fb: real, c: real, fc: real, d: real, e: real, tol1: real)
    returns (d': real, e': real)
    requires fb != 0.0 && fc != 0.0 && b != c
    ensures Toward(d', 0.5 * (c - b))
    ensures 2.0 * Abs(d') < 3.0 * Abs(0.5 * (c - b))
    ensures (d', e') == Chosen(Vars(a, fa, b, fb, c, fc, d, e), tol1)
    ensures (d' == 0.5 * (c - b) && e' == d') || (Abs(e) >= tol1 && e' == d && 2.0 * Abs(d') < Abs(e))
  {
    var xm := 0.5 * (c - b);
    d', e' := xm, xm;
    if Abs(e) >= tol1 && Abs(fa) > Abs(fb) {
      var p, q := Interpolant(a, fa, b, fb, c, fc);
      if Accepted(p, q, xm, e, tol1) {
        AcceptedQuotient(p, q, xm, e, tol1);
        e', d' := d, p / q;
      }
    }
  }

  /** The step actually taken: at least `tol1` long, in the direction of c. */
  function Move(d: real, xm: real, tol1: real): (s: real)
    requires tol1 < Abs(xm) && Toward(d, xm) && 2.0 * Abs(d) < 3.0 * Abs(xm)
    ensures Toward(s, xm) && 2.0 * Abs(s) < 3.0 * Abs(xm) && Abs(s) >= tol1
  {
    if Abs(d) > tol1 then d else if xm < 0.0 then -tol1 else tol1
  }

  /** Values of the loop's variables at the points it holds. */
  ghost predicate Sampled(f: real -> Value, a: real, fa: real, b: real, fb: real, c: real, fc: real) {
    && f(a) == Finite(fa) && f(b) == Finite(fb) && f(c) == Finite(fc)
    && fa != 0.0 && fc != 0.0
    && ((fb > 0.0) == (fc > 0.0) ==> (fa > 0.0) != (fb > 0.0))
  }

  /** Before a pass: either nothing has moved yet, or a is the better end of the last
      bracket, c its far end, and b the point the step `s` reached. */
  ghost predicate Ready(trace: seq<Bracket>, a0: real, b0: real,
                        a: real, b: real, c: real, d: real, e: real, s: real, tol: real) {
    if trace == [] then
      a == a0 && b == b0 && c == b0
    else
      var k := trace[|trace| - 1];
      && Width(k) > tol && Stepped(k, s, tol) && Inside(k, a0, b0)
      && a == k.b && c == k.c && b == k.b + s
      && (Bisected(k, s, d, e) || Interpolated(k, d, e, tol))
  }

  /** The renaming at the top of the loop: afterwards b and c hold a sign change and
      f(b) is the smaller of the two values. */
  method Rename(f: real -> Value, a: real, fa: real, b: real, fb: real, c: real, fc: real, d: real, e: real,
                ghost trace: seq<Bracket>, ghost a0: real, ghost b0: real, ghost s: real, ghost tol: real)
    returns (a': real, fa': real, b': real, fb': real, c': real, fc': real, d': real, e': real)
    requires Sampled(f, a, fa, b, fb, c, fc) && Ready(trace, a0, b0, a, b, c, d, e, s, tol)
    ensures f(a') == Finite(fa') && f(b') == Finite(fb') && f(c') == Finite(fc')
    ensures (fb' > 0.0) != (fc' > 0.0) && fc' != 0.0 && fa' != 0.0 && Abs(fb') <= Abs(fc')
    ensures var k' := Bracket(b', c', d', e');
            if trace == [] then Starts(k', a0, b0) else Advance(trace[|trace| - 1], k', s, tol)
    ensures Vars(a', fa', b', fb', c', fc', d', e') == Renamed(Vars(a, fa, b, fb, c, fc, d, e))
  {
    a', fa', b', fb', c', fc', d', e' := a, fa, b, fb, c, fc, d, e;
    if (fb' > 0.0) == (fc' > 0.0) {
      c', fc' := a', fa';
      d', e' := b' - a', b' - a';
    }
    if Abs(fc') < Abs(fb') {
      a', fa' := b', fb';
      b', fb' := c', fc';
      c', fc' := a', fa';
    }
  }

  lemma StepInside(k: Bracket, s: real, d: real, e: real, tol: real, a0: real, b0: real)
    requires Tol1(k.b, tol) < Abs(Half(k)) && k.b != k.c && Inside(k, a0, b0)
    requires Toward(d, Half(k)) && 2.0 * Abs(d) < 3.0 * Abs(Half(k))
    requires s == Move(d, Half(k), Tol1(k.b, tol))
    requires (d == Half(k) && e == d) || (Abs(k.e) >= Tol1(k.b, tol) && e == k.d && 2.0 * Abs(d) < Abs(k.e))
    ensures Width(k) > tol && Stepped(k, s, tol) && Within(k.b + s, a0, b0)
    ensures Bisected(k, s, d, e) || Interpolated(k, d, e, tol)
  {
  }

  lemma ProductSign(x: real, y: real)
    ensures x * y > 0.0 <==> (x > 0.0 && y > 0.0) || (x < 0.0 && y < 0.0)
  {
  }

  ghost predicate Inside(k: Bracket, a0: real, b0: real) { Within(k.b, a0, b0) && Within(k.c, a0, b0) }

  lemma ExtendTrace(f: real -> Value, trace: seq<Bracket>, k: Bracket, a0: real, b0: real, s: real, tol: real)
    requires IsTrace(f, trace, a0, b0, tol) && SignChange(f, k)
    requires if trace == [] then Starts(k, a0, b0) else
               Inside(trace[|trace| - 1], a0, b0) && Advance(trace[|trace| - 1], k, s, tol)
    ensures IsTrace(f, trace + [k], a0, b0, tol) && Inside(k, a0, b0)
  {
    if trace != [] {
      assert Follows(trace[|trace| - 1], k, tol);
    }
  }

  /** What a return before the iterations run out means. */
  ghost predicate Located(f: real -> Value, x: real, a0: real, b0: real, tol: real) {
    f(x).Finite? && (f(x).v == 0.0 || exists y: real :: CloseChange(f, x, y, a0, b0, tol))
  }
  ghost predicate CloseChange(f: real -> Value, x: real, y: real, a0: real, b0: real, tol: real) {
    && Within(y, a0, b0) && f(x).Finite? && f(y).Finite?
    && ((f(y).v > 0.0) != (f(x).v > 0.0)) && Abs(f(x).v) <= Abs(f(y).v)
    && Abs(y - x) <= tol + 0.000_000_000_000_004 * Abs(x)
  }
  ghost predicate Fails(f: real -> Value, x: real, a0: real, b0: real) {
    Within(x, a0, b0) && f(x).NonFinite?
  }

  /** The rest of a pass: choose the step and take it. */
  method TakeStep(a: real, fa: real, b: real, fb: real, c: real, fc: real, d: real, e: real, tol: real,
                  ghost a0: real, ghost b0: real)
    returns (next: real, d': real, e': real)
    requires fb != 0.0 && fc != 0.0 && b != c && Tol1(b, tol) < Abs(0.5 * (c - b))
    requires Inside(Bracket(b, c, d, e), a0, b0)
    ensures var k, s := Bracket(b, c, d, e), next - b;
            && Width(k) > tol && Stepped(k, s, tol) && Within(next, a0, b0)
            && (Bisected(k, s, d', e') || Interpolated(k, d', e', tol))
    ensures var s := Vars(a, fa, b, fb, c, fc, d, e);
            next == Tried(s, tol) && forall v :: Passed(s, tol, v) == Vars(b, fb, next, v, c, fc, d', e')
  {
    var tol1, xm := Tol1(b, tol), 0.5 * (c - b);
    d', e' := ChooseStep(a, fa, b, fb, c, fc, d, e, tol1);
    if Abs(d') > tol1 {
      next := b + d';
    } else {
      if xm < 0.0 {
        next := b - tol1;
      } else {
        next := b + tol1;
      }
    }
    StepInside(Bracket(b, c, d, e), next - b, d', e', tol, a0, b0);
  }

  lemma StopClose(f: real -> Value, k: Bracket, a0: real, b0: real, tol: real)
    requires SignChange(f, k) && Inside(k, a0, b0)
    requires Abs(Half(k)) <= Tol1(k.b, tol) || f(k.b).v == 0.0
    ensures Located(f, k.b, a0, b0, tol)
  {
    assert f(k.b).v == 0.0 || CloseChange(f, k.b, k.c, a0, b0, tol);
  }

  datatype PassEnd = Stopped | Failed | Continues

  /** What a pass does to the answer. */
  ghost predicate PassAnswers(f: real -> Value, s: Vars, s': Vars, end: PassEnd, tol: real) {
    forall n: nat :: n > 0 ==> Passing(f, s, tol, n) == Answer(f, s', end, tol, n - 1)
  }
  function Answer(f: real -> Value, s: Vars, end: PassEnd, tol: real, n: nat): Outcome {
    match end
    case Stopped => Root(s.b)
    case Failed => BadObjective
    case Continues => Passing(f, s, tol, n)
  }

  lemma PassStops(f: real -> Value, s: Vars, tol: real)
    requires Done(Renamed(s), tol)
    ensures PassAnswers(f, s, Renamed(s), Stopped, tol)
  {
  }

  lemma PassGoes(f: real -> Value, s: Vars, s': Vars, end: PassEnd, tol: real)
    requires !Done(Renamed(s), tol) && s' == Passed(Renamed(s), tol, s'.fb)
    requires match f(s'.b) case NonFinite => end == Failed case Finite(v) => end == Continues && v == s'.fb
    ensures PassAnswers(f, s, s', end, tol)
  {
  }

  lemma ReadyNext(trace: seq<Bracket>, k: Bracket, a0: real, b0: real, s: Vars, step: real, tol: real)
    requires Width(k) > tol && Stepped(k, step, tol) && Inside(k, a0, b0)
    requires s.a == k.b && s.c == k.c && s.b == k.b + step && (Bisected(k, step, s.d, s.e) || Interpolated(k, s.d, s.e, tol))
    ensures Ready(trace + [k], a0, b0, s.a, s.b, s.c, s.d, s.e, step, tol)
  {
  }

  /** One pass of the loop, entered with a strict sign change. */
  method OnePass(f: real -> Value, s: Vars, tol: real, ghost a0: real, ghost b0: real, ghost trace: seq<Bracket>, ghost step: real)
    returns (end: PassEnd, s': Vars, ghost k: Bracket, ghost step': real)
    requires Sampled(f, s.a, s.fa, s.b, s.fb, s.c, s.fc) && Within(s.b, a0, b0) && IsTrace(f, trace, a0, b0, tol)
    requires Ready(trace, a0, b0, s.a, s.b, s.c, s.d, s.e, step, tol)
    ensures IsTrace(f, trace + [k], a0, b0, tol) && PassAnswers(f, s, s', end, tol)
    ensures Within(s'.b, a0, b0)
    ensures end.Stopped? ==> f(s'.b).Finite? && Located(f, s'.b, a0, b0, tol)
    ensures end.Failed? ==> Fails(f, s'.b, a0, b0)
    ensures end.Continues? ==>
              && Width(k) > tol && Sampled(f, s'.a, s'.fa, s'.b, s'.fb, s'.c, s'.fc)
              && Ready(trace + [k], a0, b0, s'.a, s'.b, s'.c, s'.d, s'.e, step', tol)
  {
    var a, fa, b, fb, c, fc, d, e := Rename(f, s.a, s.fa, s.b, s.fb, s.c, s.fc, s.d, s.e, trace, a0, b0, step, tol);
    k, step' := Bracket(b, c, d, e), 0.0;
    ExtendTrace(f, trace, k, a0, b0, step, tol);
    if Abs(0.5 * (c - b)) <= Tol1(b, tol) || fb == 0.0 {
      StopClose(f, k, a0, b0, tol);
      PassStops(f, s, tol);
      return Stopped, Vars(a, fa, b, fb, c, fc, d, e), k, step';
    }
    end, s', step' := Leave(f, Vars(a, fa, b, fb, c, fc, d, e), tol, a0, b0);
    PassGoes(f, s, s', end, tol);
    ReadyNext(trace, k, a0, b0, s', step', tol);
  }

  /** The second half of a pass: take the step and look at the new point. */
  method Leave(f: real -> Value, s: Vars, tol: real, ghost a0: real, ghost b0: real) returns (end: PassEnd, s': Vars, ghost step: real)
    requires !Done(s, tol) && s.fc != 0.0 && f(s.b) == Finite(s.fb) && f(s.c) == Finite(s.fc) && (s.fb > 0.0) != (s.fc > 0.0)
    requires Inside(Bracket(s.b, s.c, s.d, s.e), a0, b0)
    ensures s' == Passed(s, tol, s'.fb) && s'.a == s.b && s'.fa == s.fb && s'.c == s.c && s'.fc == s.fc && s'.b == s.b + step
    ensures match f(s'.b) case NonFinite => end == Failed case Finite(v) => end == Continues && v == s'.fb
    ensures var k := Bracket(s.b, s.c, s.d, s.e);
            && Width(k) > tol && Stepped(k, step, tol) && Within(s'.b, a0, b0)
            && (Bisected(k, step, s'.d, s'.e) || Interpolated(k, s'.d, s'.e, tol))
  {
    var next, d, e := TakeStep(s.a, s.fa, s.b, s.fb, s.c, s.fc, s.d, s.e, tol, a0, b0);
    step := next - s.b;
    var v := f(next);
    end := if v.NonFinite? then Failed else Continues;
    s' := Vars(s.b, s.fb, next, if v.NonFinite? then 0.0 else v.v, s.c, s.fc, d, e);
  }

  /** Passes that each lead to the next. */
  ghost predicate Linked(f: real -> Value, log: seq<Vars>, tol: real) {
    |log| > 1 ==> PassAnswers(f, log[|log| - 2], log[|log| - 1], Continues, tol) && Linked(f, log[..|log| - 1], tol)
  }

  lemma LinkedMore(f: real -> Value, log: seq<Vars>, s: Vars, tol: real)
    requires log != [] && Linked(f, log, tol) && PassAnswers(f, log[|log| - 1], s, Continues, tol)
    ensures Linked(f, log + [s], tol)
  {
    assert (log + [s])[..|log|] == log;
  }

  /** The answer from the first is the answer from the last. */
  lemma {:induction false} LinkedAnswer(f: real -> Value, log: seq<Vars>, tol: real, n: nat, m: nat)
    requires log != [] && Linked(f, log, tol) && m == |log| - 1 + n
    ensures Passing(f, log[0], tol, m) == Passing(f, log[|log| - 1], tol, n)
  {
    if |log| > 1 {
      LinkedAnswer(f, log[..|log| - 1], tol, n + 1, m);
      PassesOn(f, log[|log| - 2], log[|log| - 1], Continues, tol, n);
    }
  }

  lemma PassesOn(f: real -> Value, s: Vars, s': Vars, end: PassEnd, tol: real, n: nat)
    requires PassAnswers(f, s, s', end, tol)
    ensures Passing(f, s, tol, n + 1) == Answer(f, s', end, tol, n)
  {
  }

  lemma EndAnswer(f: real -> Value, log: seq<Vars>, s: Vars, end: PassEnd, tol: real, n: nat)
    requires log != [] && Linked(f, log, tol) && PassAnswers(f, log[|log| - 1], s, end, tol) && n >= |log|
    ensures !end.Continues? ==> Passing(f, log[0], tol, n) == if end.Stopped? then Root(s.b) else BadObjective
  {
    LinkedAnswer(f, log, tol, n - |log| + 1, n);
    PassesOn(f, log[|log| - 1], s, end, tol, n - |log|);
  }

  /** The loop of `FindRoot`, entered with a strict sign change. */
  method Search(f: real -> Value, a0: real, b0: real, fa0: real, fb0: real, tol: real, maxIter: int)
    returns (r: Outcome, ghost trace: seq<Bracket>, ghost exhausted: bool)
    requires Sampled(f, a0, fa0, b0, fb0, b0, fb0)
    ensures r != NoBracket
    ensures r == BadObjective ==> exists x: real :: Fails(f, x, a0, b0)
    ensures r.Root? ==> Within(r.x, a0, b0) && f(r.x).Finite?
    ensures IsTrace(f, trace, a0, b0, tol)
    ensures r.Root? && !exhausted ==> Located(f, r.x, a0, b0, tol)
    ensures exhausted ==> r.Root? && |trace| == NonNegative(maxIter)
    ensures exhausted && |trace| > 0 ==> Width(trace[|trace| - 1]) > tol
    ensures r == Passing(f, Vars(a0, fa0, b0, fb0, b0, fb0, b0 - a0, b0 - a0), tol, NonNegative(maxIter))
  {
    trace, exhausted := [], false;
    var s := Vars(a0, fa0, b0, fb0, b0, fb0, b0 - a0, b0 - a0);
    ghost var step: real := 0.0;
    ghost var log := [s];
    var iter := 0;
    while iter < maxIter
      invariant 0 <= iter == |trace| && (iter <= maxIter || iter == 0)
      invariant Sampled(f, s.a, s.fa, s.b, s.fb, s.c, s.fc) && Within(s.b, a0, b0)
      invariant IsTrace(f, trace, a0, b0, tol)
      invariant Ready(trace, a0, b0, s.a, s.b, s.c, s.d, s.e, step, tol)
      invariant |log| == iter + 1 && log[0] == Vars(a0, fa0, b0, fb0, b0, fb0, b0 - a0, b0 - a0) && log[iter] == s
      invariant Linked(f, log, tol)
    {
      var end, s';
      ghost var k, step';
      end, s', k, step' := OnePass(f, s, tol, a0, b0, trace, step);
      trace := trace + [k];
      EndAnswer(f, log, s', end, tol, maxIter);
      match end
      case Stopped => return Root(s'.b), trace, exhausted;
      case Failed =>
        assert Fails(f, s'.b, a0, b0);
        return BadObjective, trace, exhausted;
      case Continues =>
        LinkedMore(f, log, s', tol);
        s, step, log := s', step', log + [s'];
        iter := iter + 1;
    }
    exhausted := true;
    LinkedAnswer(f, log, tol, 0, iter);
    return Root(s.b), trace, exhausted;
  }

  function NonNegative(n: int): int { if n < 0 then 0 else n }

  method FindRoot(f: real -> Value, a: real, b: real, tol: real, maxIter: int)
    returns (r: Outcome, ghost trace: seq<Bracket>, ghost exhausted: bool)
    // the answer is a function of the objective and the arguments
    ensures r == RootOf(f, a, b, tol, maxIter)
    // the two error results
    ensures r == NoBracket <==> f(a).Finite? && f(b).Finite? && f(a).v * f(b).v > 0.0
    ensures r == BadObjective ==> exists x: real :: Fails(f, x, a, b)
    // the result never leaves the interval, and f is finite there
    ensures r.Root? ==> Within(r.x, a, b) && f(r.x).Finite?
    // a sign change is kept at every pass, and every pass follows from the one before
    ensures IsTrace(f, trace, a, b, tol)
    // a return before the iterations run out is a root or sits this close to a sign change
    ensures r.Root? && !exhausted ==> Located(f, r.x, a, b, tol)
    ensures exhausted ==> r.Root? && |trace| == NonNegative(maxIter)
    // and the iterations do not run out when there are enough of them
    ensures exhausted ==> forall J: nat, L: nat :: !Enough(a, b, tol, maxIter, J, L)
  {
    trace, exhausted := [], false;
    var va, vb := f(a), f(b);
    if va.NonFinite? || vb.NonFinite? {
      assert Fails(f, a, a, b) || Fails(f, b, a, b);
      return BadObjective, trace, exhausted;
    }
    var fa, fb := va.v, vb.v;
    if fa * fb > 0.0 {
      return NoBracket, trace, exhausted;
    }
    if fa == 0.0 {
      return Root(a), trace, exhausted;
    }
    if fb == 0.0 {
      return Root(b), trace, exhausted;
    }
    ProductSign(fa, fb);
    r, trace, exhausted := Search(f, a, b, fa, fb, tol, maxIter);
    if exhausted {
      forall J: nat, L: nat ensures !Enough(a, b, tol, maxIter, J, L) {
        if Enough(a, b, tol, maxIter, J, L) {
          IterationBound(f, trace, a, b, tol, J, L);
        }
      }
    }
  }

  /** L halvings take a width to tol/2, J shrinkages to three quarters take it to tol, and
      maxIter covers the passes that can need. */
  ghost predicate Enough(a: real, b: real, tol: real, maxIter: int, J: nat, L: nat) {
    && Shrunk(Abs(b - a), 0.5, L) <= 0.5 * tol
    && Shrunk(Abs(b - a), 0.75, J) <= tol
    && tol > 0.0 && 0 < maxIter && J * (2 * L + 3) < maxIter
  }

  // ---------------------------------------------------------------- facts about every trace

  /** k' lies inside k and, for a tolerance above zero, is strictly narrower. */
  ghost predicate Nested(k: Bracket, k': Bracket, tol: real) {
    Within(k'.b, k.b, k.c) && Within(k'.c, k.b, k.c) && Width(k') <= Width(k) && (tol > 0.0 ==> Width(k') < Width(k))
  }

  lemma FollowsNested(k: Bracket, k': Bracket, tol: real)
    requires Follows(k, k', tol)
    ensures Nested(k, k', tol)
  {
    var s: real :| Advance(k, k', s, tol);
  }

  /** Brackets are strictly nested over the whole run, however far apart. */
  lemma {:induction false} TraceNested(f: real -> Value, trace: seq<Bracket>, a: real, b: real, tol: real, i: nat, j: nat)
    requires IsTrace(f, trace, a, b, tol) && i < j < |trace|
    ensures Nested(trace[i], trace[j], tol)
    decreases j
  {
    assert Follows(trace[j - 1], trace[j], tol);
    FollowsNested(trace[j - 1], trace[j], tol);
    if i < j - 1 {
      TraceNested(f, trace, a, b, tol, i, j - 1);
    }
  }

  /** x after n multiplications by the ratio. */
  function Shrunk(x: real, ratio: real, n: nat): real {
    if n == 0 then x else ratio * Shrunk(x, ratio, n - 1)
  }

  lemma {:induction false} ShrunkHalf(x: real, y: real, m: nat, n: nat)
    requires 0.0 <= x <= y && m <= n
    ensures 0.0 <= Shrunk(x, 0.5, n) <= Shrunk(y, 0.5, m)
    decreases n
  {
    if m < n {
      ShrunkHalf(x, y, m, n - 1);
    } else if m > 0 {
      ShrunkHalf(x, y, m - 1, n - 1);
    }
  }

  lemma {:induction false} ShrunkQuarter(x: real, m: nat, n: nat)
    requires 0.0 <= x && m <= n
    ensures 0.0 <= Shrunk(x, 0.75, n) <= Shrunk(x, 0.75, m)
    decreases n
  {
    if m < n {
      ShrunkQuarter(x, m, n - 1);
    } else if m > 0 {
      ShrunkQuarter(x, m - 1, n - 1);
    }
  }

  /** A bracket at most `cap` wide, `k` interpolations after the last shrinkage to three
      quarters: the steps have been halved every two of them. */
  ghost predicate Budget(t: Bracket, cap: real, k: nat) {
    && Width(t) <= cap
    && Abs(t.d) <= Shrunk(cap, 0.5, (k + 1) / 2)
    && Abs(t.e) <= Shrunk(cap, 0.5, k / 2)
  }

  lemma FreshBudget(t: Bracket, t': Bracket, s: real, tol: real, cap: real)
    requires Advance(t, t', s, tol) && Width(t) <= cap
    requires JoinsNear(t, t', s) || Bisected(t, s, t'.d, t'.e)
    ensures Budget(t', 0.75 * cap, 0)
  {
    assert Abs(s) <= 0.75 * Width(t);
  }

  lemma InterpolationBudget(t: Bracket, t': Bracket, tol: real, cap: real, k: nat)
    requires Budget(t, cap, k) && Width(t') <= Width(t) && Interpolated(t, t'.d, t'.e, tol)
    ensures Budget(t', cap, k + 1)
  {
    assert (k + 2) / 2 == k / 2 + 1;
  }

  /** Once halved past `L`, a step is too short to interpolate from again. */
  lemma InterpolationsEnd(t: Bracket, tol: real, cap: real, w: real, k: nat, L: nat)
    requires Budget(t, cap, k) && 0.0 <= cap <= w && Shrunk(w, 0.5, L) <= 0.5 * tol && tol > 0.0
    requires Abs(t.e) >= 0.5 * tol
    ensures k <= 2 * L + 1
  {
    if k / 2 > L {
      ShrunkHalf(cap, w, L + 1, k / 2);
      assert Shrunk(w, 0.5, L + 1) == 0.5 * Shrunk(w, 0.5, L);
    }
  }

  /** The passes that j shrinkages can take. */
  function Passes(j: nat, L: nat): nat { if j == 0 then 0 else Passes(j - 1, L) + 2 * L + 3 }

  lemma {:induction false} PassesProduct(j: nat, L: nat, J: nat)
    requires j <= J
    ensures Passes(j, L) == j * (2 * L + 3) && Passes(j, L) <= Passes(J, L)
    decreases J
  {
    if j > 0 {
      PassesProduct(j - 1, L, J - 1);
      assert j * (2 * L + 3) == (j - 1) * (2 * L + 3) + 2 * L + 3;
    } else if J > 0 {
      PassesProduct(0, L, J - 1);
    }
  }

  lemma {:induction false} Account(f: real -> Value, trace: seq<Bracket>, a: real, b: real, tol: real, L: nat, i: nat)
    returns (j: nat, k: nat)
    requires IsTrace(f, trace, a, b, tol) && tol > 0.0 && i < |trace|
    requires Shrunk(Abs(b - a), 0.5, L) <= 0.5 * tol
    ensures Budget(trace[i], Shrunk(Abs(b - a), 0.75, j), k)
    ensures i <= Passes(j, L) + k && k <= 2 * L + 2
  {
    var w := Abs(b - a);
    if i == 0 {
      j, k := 0, 0;
    } else {
      j, k := Account(f, trace, a, b, tol, L, i - 1);
      assert Follows(trace[i - 1], trace[i], tol);
      j, k := AccountStep(trace[i - 1], trace[i], tol, w, L, j, k);
    }
  }

  /** One pass more: a shrinkage to three quarters, or one more interpolation. */
  lemma AccountStep(t: Bracket, t': Bracket, tol: real, w: real, L: nat, j: nat, k: nat) returns (j': nat, k': nat)
    requires Follows(t, t', tol) && tol > 0.0 && w >= 0.0 && Shrunk(w, 0.5, L) <= 0.5 * tol
    requires Budget(t, Shrunk(w, 0.75, j), k) && k <= 2 * L + 2
    ensures Budget(t', Shrunk(w, 0.75, j'), k') && k' <= 2 * L + 2
    ensures Passes(j, L) + k + 1 <= Passes(j', L) + k'
  {
    var cap := Shrunk(w, 0.75, j);
    FollowsNested(t, t', tol);
    var s: real :| Advance(t, t', s, tol);
    if JoinsNear(t, t', s) || Bisected(t, s, t'.d, t'.e) {
      FreshBudget(t, t', s, tol, cap);
      j', k' := j + 1, 0;
    } else {
      InterpolationBudget(t, t', tol, cap, k);
      ShrunkQuarter(w, 0, j);
      InterpolationsEnd(t, tol, cap, w, k, L);
      j', k' := j, k + 1;
    }
  }

  /** Brent's bound: if L halvings take the interval to tol/2 and J shrinkages to three
      quarters take it to tol, a bracket still wider than tol is reached within
      J(2L + 3) passes.  A call with a larger maxIter therefore never runs out. */
  lemma IterationBound(f: real -> Value, trace: seq<Bracket>, a: real, b: real, tol: real, J: nat, L: nat)
    requires IsTrace(f, trace, a, b, tol) && tol > 0.0 && |trace| > 0
    requires Shrunk(Abs(b - a), 0.5, L) <= 0.5 * tol
    requires Shrunk(Abs(b - a), 0.75, J) <= tol
    requires Width(trace[|trace| - 1]) > tol
    ensures |trace| <= J * (2 * L + 3)
  {
    var j, k := Account(f, trace, a, b, tol, L, |trace| - 1);
    if j >= J {
      ShrunkQuarter(Abs(b - a), J, j);
      assert false;
    }
    PassesProduct(j + 1, L, J);
    PassesProduct(J, L, J);
  }
}
