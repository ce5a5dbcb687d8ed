/** Live weights and the blended volatility of one contract
    (core/internal/volblend/volblend.go).  The transcendental functions are parameters. */
module VolBlend {
  import opened Common

  const W_MIN := 0.35
  const LAMBDA_T := 8.710677271722231
  const LAMBDA_SPREAD := 25.0
  const MIN_SKEW_MULT := 0.2
  const MAX_SKEW_MULT := 5.0
  const NEGLIGIBLE := 0.0001

  datatype Quote = Quote(bid: real, ask: real, ok: bool)
  function QuoteOf(bid: real, ask: real): Quote { Quote(bid, ask, bid > 0.0 || ask > 0.0) }

  datatype Maths = Maths(exp: real -> real, pow: (real, real) -> real, sqrt: real -> real)

  /** What is used of exp, pow and sqrt. */
  ghost predicate Lawful(m: Maths) {
    && (forall x: real :: x <= 0.0 ==> 0.0 < m.exp(x) <= 1.0)
    && (forall x: real, y: real :: x > 0.0 && 0.0 <= y <= 1.0 ==> Within(m.pow(x, y), 1.0, x))
    && (forall x: real :: m.pow(x, 0.0) == 1.0 && m.pow(x, 1.0) == x)
    && (forall y: real :: m.pow(1.0, y) == 1.0)
    && (forall x: real :: x > 0.0 ==> m.sqrt(x) > 0.0 && Mul(m.sqrt(x), m.sqrt(x)) == x)
  }

  function TermWeight(m: Maths, years: real): real { W_MIN + (1.0 - W_MIN) * m.exp(-LAMBDA_T * years) }

  function Mid(q: Quote): real { (q.bid + q.ask) / 2.0 }
  predicate Stale(q: Quote) { Mid(q) <= NEGLIGIBLE || q.ask < q.bid }

  /** 1 + LAMBDA_SPREAD s^2 for the relative spread s; at least one. */
  function Penalty(q: Quote): (p: real)
    requires Mid(q) > 0.0
    ensures p >= 1.0 && (p == 1.0 <==> q.ask == q.bid)
  {
    var rel := (q.ask - q.bid) / Mid(q);
    SquareSign(rel);
    1.0 + LAMBDA_SPREAD * Mul(rel, rel)
  }

  lemma SquareSign(x: real)
    ensures Mul(x, x) >= 0.0 && (Mul(x, x) == 0.0 <==> x == 0.0)
  {
    MulSign(x, x);
  }

  function SpreadFactor(q: Quote): (r: real)
    ensures 0.0 <= r <= 1.0 && (Mid(q) > 0.0 ==> r > 0.0)
  {
    if Mid(q) <= 0.0 then 0.0 else 1.0 / Penalty(q)
  }

  /** The weight on live volatility. */
  function LiveWeight(m: Maths, years: real, q: Quote): real {
    if years <= 0.0 then 1.0 else
    var phi := TermWeight(m, years);
    if !q.ok then phi else
    if Stale(q) then phi * 0.1 else
    Min(1.0, Max(0.0, Mul(phi, SpreadFactor(q))))
  }

  lemma TermWeightRange(m: Maths, years: real)
    requires Lawful(m) && years >= 0.0
    ensures W_MIN < TermWeight(m, years) <= 1.0
  {
    assert -LAMBDA_T * years <= 0.0;
  }

  lemma ProductBelow(x: real, y: real)
    requires x >= 0.0 && 0.0 <= y <= 1.0
    ensures 0.0 <= Mul(x, y) <= x
  {
    MulSign(x, y);
    MulSign(x, 1.0 - y);
    MulAdd(1.0, y, x);
  }

  /** The weight is in [0, 1]; a quote can only lower it below the term weight, and a stale or
      crossed one takes it below a tenth. */
  lemma LiveWeightRange(m: Maths, years: real, q: Quote)
    requires Lawful(m)
    ensures 0.0 <= LiveWeight(m, years, q) <= 1.0
    ensures years > 0.0 ==> LiveWeight(m, years, q) <= TermWeight(m, years)
    ensures years > 0.0 && q.ok && ((q.bid + q.ask) / 2.0 <= 0.0001 || q.ask < q.bid) ==> LiveWeight(m, years, q) == 0.1 * TermWeight(m, years) <= 0.1
    ensures years > 0.0 && q.ok && (q.bid + q.ask) / 2.0 > 0.0001 && q.ask >= q.bid ==> LiveWeight(m, years, q) == TermWeight(m, years) * SpreadFactor(q)
    ensures years > 0.0 && !q.ok ==> LiveWeight(m, years, q) == TermWeight(m, years)
    ensures years <= 0.0 ==> LiveWeight(m, years, q) == 1.0
  {
    if years > 0.0 {
      TermWeightRange(m, years);
      ProductBelow(TermWeight(m, years), SpreadFactor(q));
    }
  }

  /** The weighted mean that sets the level of an expiry. */
  function Level(w: real, live: real, anchor: real): real { Mul(w, live) + Mul(1.0 - w, anchor) }

  lemma LevelBetween(w: real, live: real, anchor: real)
    requires 0.0 <= w <= 1.0
    ensures Within(Level(w, live, anchor), live, anchor)
    ensures live == anchor ==> Level(w, live, anchor) == anchor
  {
    MulAdd(1.0, w, anchor);
    MulAdd(live, anchor, w);
    assert Level(w, live, anchor) == anchor + Mul(w, live - anchor);
    if live >= anchor {
      ProductBelow(live - anchor, w);
    } else {
      ProductBelow(anchor - live, w);
      MulAdd(anchor, live, w);
    }
  }

  /** No weight is the anchor, full weight is the live volatility, and more weight is nearer to it. */
  lemma LevelTowardsLive(w: real, w': real, live: real, anchor: real)
    requires 0.0 <= w <= w' <= 1.0
    ensures Level(0.0, live, anchor) == anchor && Level(1.0, live, anchor) == live
    ensures Within(Level(w', live, anchor), Level(w, live, anchor), live)
  {
    var gap := live - anchor;
    LevelAsGap(w, live, anchor);
    LevelAsGap(w', live, anchor);
    MulAdd(w', w, gap);
    MulAdd(1.0, w', gap);
    MulSign(w' - w, gap);
    MulSign(1.0 - w', gap);
  }

  lemma LevelAsGap(w: real, live: real, anchor: real)
    ensures Level(w, live, anchor) == anchor + Mul(w, live - anchor)
  {
    MulAdd(1.0, w, anchor);
    MulAdd(live, anchor, w);
  }

  /** The term weight falls from one towards its floor as expiry moves out, for an exponential that
      grows; a week out it is nine tenths. */
  lemma TermWeightFalls(m: Maths, years: real, later: real)
    requires forall x: real, y: real :: x <= y ==> m.exp(x) <= m.exp(y)
    requires years <= later
    ensures TermWeight(m, later) <= TermWeight(m, years)
    ensures m.exp(0.0) == 1.0 ==> TermWeight(m, 0.0) == 1.0
    ensures m.exp(-LAMBDA_T * (7.0 / 365.0)) == 11.0 / 13.0 ==> TermWeight(m, 7.0 / 365.0) == 0.9
  {
    assert -LAMBDA_T * later <= -LAMBDA_T * years;
  }

  /** At the same middle a wider spread weighs less; a quote of 0.05 to 0.35 weighs under a fiftieth. */
  lemma WideSpreadWeighsLess(tight: Quote, wide: Quote)
    requires Mid(tight) == Mid(wide) > 0.0 && 0.0 <= tight.ask - tight.bid < wide.ask - wide.bid
    ensures SpreadFactor(wide) < SpreadFactor(tight)
    ensures SpreadFactor(Quote(0.05, 0.35, true)) == 1.0 / 57.25
  {
    var mid, s, t := Mid(tight), (tight.ask - tight.bid) / Mid(tight), (wide.ask - wide.bid) / Mid(wide);
    QuotientOrder(tight.ask - tight.bid, wide.ask - wide.bid, mid);
    SquaresOrder(s, t);
    ReciprocalOrder(Penalty(tight), Penalty(wide));
    assert Mid(Quote(0.05, 0.35, true)) == 0.2 && 0.3 / 0.2 == 1.5 && Mul(1.5, 1.5) == 2.25;
  }

  lemma QuotientOrder(x: real, y: real, n: real)
    requires 0.0 <= x < y && n > 0.0
    ensures 0.0 <= x / n < y / n
  {
  }

  lemma SquaresOrder(x: real, y: real)
    requires 0.0 <= x < y
    ensures Mul(x, x) < Mul(y, y)
  {
    MulSign(y - x, y + x);
    assert Mul(y - x, y + x) == Mul(y, y) - Mul(x, x);
  }

  lemma ReciprocalOrder(x: real, y: real)
    requires 0.0 < x < y
    ensures 1.0 / y < 1.0 / x
  {
  }

  function BlendVariance(m: Maths, live: real, anchor: real, years: real, q: Quote): real {
    m.sqrt(Max(0.000_001, Level(LiveWeight(m, years, q), Mul(live, live), Mul(anchor, anchor))))
  }

  /** Squared, the blend lies between the two variances, but never below the floor. */
  lemma VarianceBetween(m: Maths, live: real, anchor: real, years: real, q: Quote)
    requires Lawful(m)
    ensures var v := BlendVariance(m, live, anchor, years, q);
            v > 0.0 && exists u: real :: Within(u, Mul(live, live), Mul(anchor, anchor)) && Mul(v, v) == Max(0.000_001, u)
  {
    LiveWeightRange(m, years, q);
    var u := Level(LiveWeight(m, years, q), Mul(live, live), Mul(anchor, anchor));
    LevelBetween(LiveWeight(m, years, q), Mul(live, live), Mul(anchor, anchor));
    var v := BlendVariance(m, live, anchor, years, q);
    assert Within(u, Mul(live, live), Mul(anchor, anchor)) && Mul(v, v) == Max(0.000_001, u);
  }

  /** How much of a strike's own skew survives. */
  function ShapeExponent(q: Quote): (r: real)
    ensures 0.0 <= r <= 1.0 && (r == 0.0 <==> q.ok && Stale(q))
  {
    if !q.ok then 1.0 else if Stale(q) then 0.0 else SpreadFactor(q)
  }

  function SkewMult(strikeIv: real, atmIv: real): real
    requires atmIv > 0.0
  {
    Min(MAX_SKEW_MULT, Max(MIN_SKEW_MULT, strikeIv / atmIv))
  }

  function BlendSkewCarrier(m: Maths, strikeIv: real, atmIv: real, anchor: real, years: real, strike: Quote, atm: Quote): real {
    if atmIv <= NEGLIGIBLE then
      if strikeIv <= NEGLIGIBLE then anchor else BlendVariance(m, strikeIv, anchor, years, strike)
    else
      var level := Level(LiveWeight(m, years, atm), atmIv, anchor);
      if strikeIv <= NEGLIGIBLE then level else
      Mul(level, m.pow(SkewMult(strikeIv, atmIv), ShapeExponent(strike)))
  }

  /** With an ATM reference the result is the level, between ATM volatility and anchor, bent by
      at most the clamp; a crossed strike quote bends nothing. */
  lemma SkewBounded(m: Maths, strikeIv: real, atmIv: real, anchor: real, years: real, strike: Quote, atm: Quote)
    requires Lawful(m) && atmIv > NEGLIGIBLE && anchor > 0.0
    ensures var level, v := Level(LiveWeight(m, years, atm), atmIv, anchor), BlendSkewCarrier(m, strikeIv, atmIv, anchor, years, strike, atm);
            && Within(level, atmIv, anchor)
            && Mul(level, MIN_SKEW_MULT) <= v <= Mul(level, MAX_SKEW_MULT)
            && (strike.ok && Stale(strike) ==> v == level)
  {
    LiveWeightRange(m, years, atm);
    LevelBetween(LiveWeight(m, years, atm), atmIv, anchor);
    var level := Level(LiveWeight(m, years, atm), atmIv, anchor);
    if strikeIv > NEGLIGIBLE {
      var x := m.pow(SkewMult(strikeIv, atmIv), ShapeExponent(strike));
      assert MIN_SKEW_MULT <= x <= MAX_SKEW_MULT;
      MulAdd(x, MIN_SKEW_MULT, level);
      MulSign(level, x - MIN_SKEW_MULT);
      MulAdd(MAX_SKEW_MULT, x, level);
      MulSign(level, MAX_SKEW_MULT - x);
    }
  }

  /** Without a reference at the money: the anchor, or the strike's own volatility blended with it in
      variance, by the strike's own quote. */
  lemma WithoutReference(m: Maths, strikeIv: real, atmIv: real, anchor: real, years: real, strike: Quote, atm: Quote)
    requires Lawful(m) && atmIv <= 0.0001
    ensures var v, w := BlendSkewCarrier(m, strikeIv, atmIv, anchor, years, strike, atm), LiveWeight(m, years, strike);
            if strikeIv <= 0.0001 then v == anchor
            else v > 0.0 && Mul(v, v) == Max(0.000_001, Mul(w, Mul(strikeIv, strikeIv)) + Mul(1.0 - w, Mul(anchor, anchor)))
  {
  }

  /** v is the level times the ratio of a volatility to that at the money, clamped to a fifth and
      five times. */
  ghost predicate KeepsSmile(v: real, iv: real, atm: real, level: real) {
    && (0.2 * atm <= iv <= 5.0 * atm ==> v * atm == level * iv)
    && (iv < 0.2 * atm ==> v == 0.2 * level) && (iv > 5.0 * atm ==> v == 5.0 * level)
  }

  /** What a strike without a quote of its own keeps of the smile: the level times the ratio of its
      volatility to that at the money, clamped; and the weight of the level then. */
  lemma UnquotedSkew(m: Maths, strikeIv: real, atmIv: real, anchor: real, years: real, strike: Quote, atm: Quote)
    requires Lawful(m) && atmIv > NEGLIGIBLE && strikeIv > NEGLIGIBLE && !strike.ok
    ensures KeepsSmile(BlendSkewCarrier(m, strikeIv, atmIv, anchor, years, strike, atm), strikeIv, atmIv, Level(LiveWeight(m, years, atm), atmIv, anchor))
  {
    var level, x := Level(LiveWeight(m, years, atm), atmIv, anchor), SkewMult(strikeIv, atmIv);
    Clamped(strikeIv, atmIv);
    assert BlendSkewCarrier(m, strikeIv, atmIv, anchor, years, strike, atm) == Mul(level, x);
    Reassociate(level, x, atmIv);
  }

  /** A quoted strike keeps the ratio to the power of its spread factor; a stale or crossed one nothing
      of it. */
  lemma QuotedSkew(m: Maths, strikeIv: real, atmIv: real, anchor: real, years: real, strike: Quote, atm: Quote, s: real)
    requires Lawful(m) && atmIv > NEGLIGIBLE && strikeIv > NEGLIGIBLE && strike.ok
    requires s * ((strike.bid + strike.ask) / 2.0) == strike.ask - strike.bid
    ensures var v, level := BlendSkewCarrier(m, strikeIv, atmIv, anchor, years, strike, atm), Level(LiveWeight(m, years, atm), atmIv, anchor);
            if (strike.bid + strike.ask) / 2.0 > 0.0001 && strike.ask >= strike.bid
            then v == Mul(level, m.pow(SkewMult(strikeIv, atmIv), SpreadFactor(strike))) && SpreadFactor(strike) * (1.0 + 25.0 * Mul(s, s)) == 1.0
            else v == level
  {
    if Mid(strike) > 0.0001 && strike.ask >= strike.bid {
      SpreadFactorIs(strike, s);
    }
  }

  lemma SpreadFactorIs(q: Quote, s: real)
    requires Mid(q) > 0.0 && s * Mid(q) == q.ask - q.bid
    ensures SpreadFactor(q) * (1.0 + 25.0 * Mul(s, s)) == 1.0
  {
    var rel := (q.ask - q.bid) / Mid(q);
    assert rel * Mid(q) == s * Mid(q);
    assert (rel - s) * Mid(q) == 0.0;
    assert rel == s;
  }

  lemma Clamped(strikeIv: real, atmIv: real)
    requires atmIv > 0.0
    ensures 0.2 * atmIv <= strikeIv <= 5.0 * atmIv ==> SkewMult(strikeIv, atmIv) * atmIv == strikeIv
    ensures strikeIv < 0.2 * atmIv ==> SkewMult(strikeIv, atmIv) == 0.2
    ensures strikeIv > 5.0 * atmIv ==> SkewMult(strikeIv, atmIv) == 5.0
  {
    var ratio := strikeIv / atmIv;
    assert ratio * atmIv == strikeIv;
    RatioOrder(ratio, 0.2, atmIv);
    RatioOrder(0.2, ratio, atmIv);
    RatioOrder(ratio, 5.0, atmIv);
    RatioOrder(5.0, ratio, atmIv);
  }

  lemma RatioOrder(x: real, y: real, n: real)
    requires n > 0.0
    ensures x < y <==> x * n < y * n
  {
    MulSign(y - x, n);
    MulAdd(y, x, n);
  }

  lemma Reassociate(x: real, y: real, z: real)
    ensures Mul(x, y) * z == x * (y * z)
  {
  }

  lemma SkewOfEqual(x: real)
    requires x > 0.0
    ensures SkewMult(x, x) == 1.0
  {
    assert x / x == 1.0;
  }

  /** On a flat smile nothing moves: the anchor comes back, whatever the quotes. */
  lemma FlatCarrier(m: Maths, strikeIv: real, atmIv: real, anchor: real, years: real, strike: Quote, atm: Quote)
    requires Lawful(m)
    requires atmIv == anchor || atmIv <= 0.0
    requires strikeIv == anchor || strikeIv <= 0.0
    requires strikeIv > 0.0 ==> atmIv == anchor
    ensures BlendSkewCarrier(m, strikeIv, atmIv, anchor, years, strike, atm) == anchor
  {
    if atmIv > NEGLIGIBLE {
      LiveWeightRange(m, years, atm);
      LevelBetween(LiveWeight(m, years, atm), atmIv, anchor);
      if strikeIv > NEGLIGIBLE {
        SkewOfEqual(anchor);
      }
    }
  }
}
