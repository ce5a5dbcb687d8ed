/** What each contract contributes to a book (core/internal/exposure/exposure.go, aggregate.go), said
    of the rows of the chain: the totals, curves, tables and the flip profile as sums over contracts. */
module Positions {
  import opened Common
  import opened Market
  import Brent
  import opened Exposure
  import opened Snapshots
  import opened Flip

  // ---------------------------------------------------------------- one contract

  /** A row with a day or more to go; the others are outside the model. */
  predicate Live(b: Inputs, i: nat)
    requires i < |b.rows|
  {
    b.rows[i].expiry.Ymd? && b.rows[i].expiry.day >= b.today + 1
  }

  /** Its Greeks at a spot, at its volatility on the surface, or else at the anchor of its expiry. */
  function GreeksAt(b: Inputs, vols: Option<seq<real>>, x: real, i: nat): Option<Greeks>
    requires i < |b.rows| && Live(b, i)
  {
    var c := b.rows[i];
    var days := c.expiry.day - b.today;
    b.price(x, c.strike, days, if vols.Some? && i < |vols.value| then vols.value[i] else b.sigma(days), c.right)
  }

  /** Dealers are long calls and short puts. */
  function Side(c: Contract): real { if c.right == "C" then 1.0 else -1.0 }

  /** Dollars per 1% move of spot, dollars of delta, per 1% move of volatility, and per day. */
  function Worth(c: Contract, g: Greeks, x: real): Totals {
    Totals(Side(c) * c.openInterest * g.gamma * x * x * 0.01 * c.multiplier,
           Side(c) * c.openInterest * g.delta * x * c.multiplier,
           Side(c) * c.openInterest * g.vanna * x * 0.01 * c.multiplier,
           Side(c) * c.openInterest * g.charm * x * c.multiplier)
  }

  /** What the rows below n that are in and pass a test are worth together. */
  function WorthOf(b: Inputs, vols: Option<seq<real>>, x: real, n: nat, test: Contract -> bool): Totals
    requires n <= |b.rows|
  {
    if n == 0 then ZERO else
    var rest := WorthOf(b, vols, x, n - 1, test);
    if !Live(b, n - 1) || !test(b.rows[n - 1]) || GreeksAt(b, vols, x, n - 1).None? then rest
    else Plus(rest, Worth(b.rows[n - 1], GreeksAt(b, vols, x, n - 1).value, x))
  }

  lemma WorthIs(c: Contract, g: Greeks, x: real)
    ensures Exposures(c, g, x) == Worth(c, g, x)
  {
    var q, m := DealerQty(c), c.multiplier;
    assert q == Side(c) * c.openInterest;
    GexProduct(q, g.gamma, x, m);
    FlowProduct(q, g.vanna, x, m);
    assert Mul(q, Mul(g.delta, Mul(x, m))) == q * g.delta * x * m;
    assert Mul(q, Mul(g.charm, Mul(x, m))) == q * g.charm * x * m;
  }

  lemma GexProduct(q: real, g: real, x: real, m: real)
    ensures Mul(q, Mul(g, Mul(x, Mul(x, Mul(0.01, m))))) == q * g * x * x * 0.01 * m
  {
  }

  lemma FlowProduct(q: real, g: real, x: real, m: real)
    ensures Mul(q, Mul(g, Mul(x, Mul(0.01, m)))) == q * g * x * 0.01 * m
  {
  }

  // ---------------------------------------------------------------- the rows of a group

  function ItemOf(c: Contract, ex: Totals): Item { Item(c.strike, c.right == "C", Pair(c.cls, c.expiry), ex) }

  /** A test on items that says of each priced contract what a test on contracts says of it. */
  ghost predicate Mirrors(test: Item -> bool, keep: Contract -> bool) {
    forall c: Contract, ex: Totals :: test(ItemOf(c, ex)) == keep(c)
  }

  /** A row cannot be priced if its date does not parse or the solver refuses it. */
  predicate Unpriceable(b: Inputs, vols: Option<seq<real>>, x: real, i: nat)
    requires i < |b.rows|
  {
    b.rows[i].expiry.BadDate? || (Live(b, i) && GreeksAt(b, vols, x, i).None?)
  }

  /** Pricing row i: its place and its worth. */
  lemma PriceIs(b: Inputs, vols: Option<seq<real>>, x: real, i: nat)
    requires i < |b.rows|
    ensures var c := b.rows[i];
            PriceRow(b, vols, x, i) ==
            if Unpriceable(b, vols, x, i) then Priced.Failed else if !Live(b, i) then Skipped else
            Ok(ItemOf(c, Worth(c, GreeksAt(b, vols, x, i).value, x)))
  {
    if Live(b, i) && GreeksAt(b, vols, x, i).Some? {
      WorthIs(b.rows[i], GreeksAt(b, vols, x, i).value, x);
    }
  }

  lemma {:induction false} SumsAre(b: Inputs, vols: Option<seq<real>>, x: real, n: nat, test: Item -> bool, keep: Contract -> bool)
    requires n <= |b.rows| && Mirrors(test, keep)
    ensures ItemsAt(b, vols, x, n).None? <==> exists i :: 0 <= i < n && Unpriceable(b, vols, x, i)
    ensures ItemsAt(b, vols, x, n).Some? ==> SumIf(ItemsAt(b, vols, x, n).value, test) == WorthOf(b, vols, x, n, keep)
  {
    if n > 0 {
      SumsAre(b, vols, x, n - 1, test, keep);
      PriceIs(b, vols, x, n - 1);
      var p := PriceRow(b, vols, x, n - 1);
      if p.Ok? && ItemsAt(b, vols, x, n - 1).Some? {
        SumAppend(ItemsAt(b, vols, x, n - 1).value, p.item, test);
      }
    }
  }

  /** A group has an item if and only if the chain has a row of it that is in. */
  lemma {:induction false} MembersAre(b: Inputs, vols: Option<seq<real>>, x: real, n: nat, test: Item -> bool, keep: Contract -> bool)
    requires n <= |b.rows| && Mirrors(test, keep) && ItemsAt(b, vols, x, n).Some?
    ensures (exists it :: it in ItemsAt(b, vols, x, n).value && test(it)) <==> exists i :: 0 <= i < n && Live(b, i) && keep(b.rows[i])
    ensures CountIf(ItemsAt(b, vols, x, n).value, test) == CountOf(b, n, keep)
  {
    if n > 0 {
      MembersAre(b, vols, x, n - 1, test, keep);
      PriceIs(b, vols, x, n - 1);
      var items := ItemsAt(b, vols, x, n - 1).value;
      if Live(b, n - 1) {
        var it := PriceRow(b, vols, x, n - 1).item;
        assert (items + [it])[..|items|] == items && it in items + [it];
      }
    }
  }
  function CountOf(b: Inputs, n: nat, keep: Contract -> bool): nat
    requires n <= |b.rows|
  {
    if n == 0 then 0 else CountOf(b, n - 1, keep) + if Live(b, n - 1) && keep(b.rows[n - 1]) then 1 else 0
  }

  function Everyone(): Contract -> bool { (c: Contract) => true }
  function OfPair(p: Pair): Contract -> bool { (c: Contract) => c.cls == p.cls && c.expiry == p.expiry }
  function OfName(cls: string): Contract -> bool { (c: Contract) => c.cls == cls }
  function AtStrike(keep: Contract -> bool, k: real): Contract -> bool { (c: Contract) => keep(c) && c.strike == k }
  function CallsAt(keep: Contract -> bool, k: real): Contract -> bool { (c: Contract) => keep(c) && c.strike == k && c.right == "C" }
  function PutsAt(keep: Contract -> bool, k: real): Contract -> bool { (c: Contract) => keep(c) && c.strike == k && c.right != "C" }

  lemma MirrorsOf(p: Pair, cls: string)
    ensures Mirrors(All(), Everyone()) && Mirrors(Keyed(PairKey(), p), OfPair(p)) && Mirrors(Keyed(ClassKey(), cls), OfName(cls))
  {
  }

  lemma MirrorsAt(test: Item -> bool, keep: Contract -> bool, k: real)
    requires Mirrors(test, keep)
    ensures Mirrors(At(test, k), AtStrike(keep, k)) && Mirrors(CallAt(test, k), CallsAt(keep, k)) && Mirrors(PutAt(test, k), PutsAt(keep, k))
  {
    forall c: Contract, ex: Totals
      ensures At(test, k)(ItemOf(c, ex)) == AtStrike(keep, k)(c)
      ensures CallAt(test, k)(ItemOf(c, ex)) == CallsAt(keep, k)(c) && PutAt(test, k)(ItemOf(c, ex)) == PutsAt(keep, k)(c)
    {
      assert test(ItemOf(c, ex)) == keep(c);
    }
  }

  /** A curve as sums over contracts: a point for every strike of a row that is in, its calls, its
      puts and both. */
  ghost predicate CurveSums(b: Inputs, vols: Option<seq<real>>, keep: Contract -> bool, curve: seq<StrikeExposure>) {
    && (forall k :: Listed(curve, k) <==> exists i :: 0 <= i < |b.rows| && Live(b, i) && AtStrike(keep, k)(b.rows[i]))
    && (forall j :: 0 <= j < |curve| ==> PointSums(b, vols, keep, curve[j]))
  }
  ghost predicate PointSums(b: Inputs, vols: Option<seq<real>>, keep: Contract -> bool, p: StrikeExposure) {
    && p.callGex == WorthOf(b, vols, b.spot, |b.rows|, CallsAt(keep, p.strike)).gex
    && p.putGex == WorthOf(b, vols, b.spot, |b.rows|, PutsAt(keep, p.strike)).gex
    && p.netGex == WorthOf(b, vols, b.spot, |b.rows|, AtStrike(keep, p.strike)).gex
  }

  lemma CurvesAre(b: Inputs, vols: Option<seq<real>>, items: seq<Item>, test: Item -> bool, keep: Contract -> bool, curve: seq<StrikeExposure>)
    requires ItemsAt(b, vols, b.spot, |b.rows|) == Some(items) && Mirrors(test, keep) && CurveList(items, test, curve)
    ensures CurveSums(b, vols, keep, curve)
  {
    forall k ensures Listed(curve, k) <==> exists i :: 0 <= i < |b.rows| && Live(b, i) && AtStrike(keep, k)(b.rows[i]) {
      StrikesAre(b, vols, items, test, keep, curve, k);
    }
    forall j | 0 <= j < |curve| ensures PointSums(b, vols, keep, curve[j]) {
      var k := curve[j].strike;
      MirrorsAt(test, keep, k);
      SumsAre(b, vols, b.spot, |b.rows|, CallAt(test, k), CallsAt(keep, k));
      SumsAre(b, vols, b.spot, |b.rows|, PutAt(test, k), PutsAt(keep, k));
      SumsAre(b, vols, b.spot, |b.rows|, At(test, k), AtStrike(keep, k));
    }
  }

  lemma StrikesAre(b: Inputs, vols: Option<seq<real>>, items: seq<Item>, test: Item -> bool, keep: Contract -> bool, curve: seq<StrikeExposure>, k: real)
    requires ItemsAt(b, vols, b.spot, |b.rows|) == Some(items) && Mirrors(test, keep) && CurveList(items, test, curve)
    ensures Listed(curve, k) <==> exists i :: 0 <= i < |b.rows| && Live(b, i) && AtStrike(keep, k)(b.rows[i])
  {
    MirrorsAt(test, keep, k);
    MembersAre(b, vols, b.spot, |b.rows|, At(test, k), AtStrike(keep, k));
    if Listed(curve, k) {
      var j :| 0 <= j < |curve| && curve[j].strike == k;
      assert HasStrike(items, test, k);
      var i :| 0 <= i < |items| && test(items[i]) && items[i].strike == k;
      assert items[i] in items && At(test, k)(items[i]);
    }
    if exists it :: it in items && At(test, k)(it) {
      var it :| it in items && At(test, k)(it);
      var i :| 0 <= i < |items| && items[i] == it;
      assert Listed(curve, items[i].strike);
    }
  }

  // ---------------------------------------------------------------- the snapshot

  /** A snapshot as sums over the contracts of its chain. */
  ghost predicate SnapshotSums(b: Inputs, vols: Option<seq<real>>, s: Snapshot) {
    var n := |b.rows|;
    && s.totals == WorthOf(b, vols, b.spot, n, Everyone()) && CurveSums(b, vols, Everyone(), s.perStrike)
    && (forall j :: 0 <= j < |s.perExpiry| ==> ExpirySums(b, vols, s.perExpiry[j]))
    && (forall j :: 0 <= j < |s.classes| ==> ClassSums(b, vols, s.classes[j]))
  }
  ghost predicate ExpirySums(b: Inputs, vols: Option<seq<real>>, e: ExpiryGex) {
    e.totals == WorthOf(b, vols, b.spot, |b.rows|, OfPair(e.pair)) && CurveSums(b, vols, OfPair(e.pair), e.perStrike)
  }
  ghost predicate ClassSums(b: Inputs, vols: Option<seq<real>>, c: ClassGex) {
    && c.totals == WorthOf(b, vols, b.spot, |b.rows|, OfName(c.cls)) && CurveSums(b, vols, OfName(c.cls), c.perStrike)
    && c.contracts == CountOf(b, |b.rows|, OfName(c.cls))
  }

  /** Whatever volatilities it is priced at, every number of a snapshot is the sum over its own
      contracts of what each is worth. */
  lemma SnapshotIs(b: Inputs, vols: Option<seq<real>>, items: seq<Item>, multi: bool, s: Snapshot)
    requires ItemsAt(b, vols, b.spot, |b.rows|) == Some(items) && IsSnapshot(items, multi, s)
    ensures SnapshotSums(b, vols, s)
  {
    MirrorsOf(Pair("", BadDate("")), "");
    SumsAre(b, vols, b.spot, |b.rows|, All(), Everyone());
    CurvesAre(b, vols, items, All(), Everyone(), s.perStrike);
    forall j | 0 <= j < |s.perExpiry| ensures ExpirySums(b, vols, s.perExpiry[j]) {
      ExpiryIs(b, vols, items, s.perExpiry[j]);
    }
    forall j | 0 <= j < |s.classes| ensures ClassSums(b, vols, s.classes[j]) {
      ClassIs(b, vols, items, s.classes[j]);
    }
  }

  lemma ExpiryIs(b: Inputs, vols: Option<seq<real>>, items: seq<Item>, e: ExpiryGex)
    requires ItemsAt(b, vols, b.spot, |b.rows|) == Some(items) && IsExpiry(items, e)
    ensures ExpirySums(b, vols, e)
  {
    MirrorsOf(e.pair, "");
    SumsAre(b, vols, b.spot, |b.rows|, Keyed(PairKey(), e.pair), OfPair(e.pair));
    CurvesAre(b, vols, items, Keyed(PairKey(), e.pair), OfPair(e.pair), e.perStrike);
  }

  lemma ClassIs(b: Inputs, vols: Option<seq<real>>, items: seq<Item>, c: ClassGex)
    requires ItemsAt(b, vols, b.spot, |b.rows|) == Some(items) && IsClass(items, c)
    ensures ClassSums(b, vols, c)
  {
    MirrorsOf(Pair("", BadDate("")), c.cls);
    SumsAre(b, vols, b.spot, |b.rows|, Keyed(ClassKey(), c.cls), OfName(c.cls));
    MembersAre(b, vols, b.spot, |b.rows|, Keyed(ClassKey(), c.cls), OfName(c.cls));
    CurvesAre(b, vols, items, Keyed(ClassKey(), c.cls), OfName(c.cls), c.perStrike);
  }

  /** A row makes the snapshot fail if it cannot be priced, or, when it is in and quotes a volatility,
      not at that one. */
  lemma FailsIs(b: Inputs, vols: Option<seq<real>>, i: nat)
    requires i < |b.rows|
    ensures var c := b.rows[i];
            RowFails(b, vols, i) <==>
            Unpriceable(b, vols, b.spot, i) ||
            (Live(b, i) && c.iv > 0.0 && b.price(b.spot, c.strike, c.expiry.day - b.today, c.iv, c.right).None?)
  {
    PriceIs(b, vols, b.spot, i);
  }

  function Calls(): Contract -> bool { (c: Contract) => c.right == "C" }
  function Puts(): Contract -> bool { (c: Contract) => c.right != "C" }

  /** There is a call wall if and only if some call is in, and a put wall if and only if some put is. */
  lemma WallsAre(b: Inputs, vols: Option<seq<real>>, items: seq<Item>, multi: bool, s: Snapshot)
    requires ItemsAt(b, vols, b.spot, |b.rows|) == Some(items) && IsSnapshot(items, multi, s)
    ensures s.callWall.Wall? <==> exists i :: 0 <= i < |b.rows| && Live(b, i) && Calls()(b.rows[i])
    ensures s.putWall.Wall? <==> exists i :: 0 <= i < |b.rows| && Live(b, i) && Puts()(b.rows[i])
  {
    var calls, puts := (it: Item) => it.call, (it: Item) => !it.call;
    MembersAre(b, vols, b.spot, |b.rows|, calls, Calls());
    MembersAre(b, vols, b.spot, |b.rows|, puts, Puts());
    SidesIn(items, true);
    SidesIn(items, false);
    if items != [] {
      assert All()(items[0]) && Listed(s.perStrike, items[0].strike);
    }
  }

  lemma SidesIn(items: seq<Item>, call: bool)
    ensures Some1(items, All(), call) <==> exists it :: it in items && it.call == call
  {
    if exists it :: it in items && it.call == call {
      var it :| it in items && it.call == call;
      var i :| 0 <= i < |items| && items[i] == it;
      assert All()(items[i]);
    }
  }

  // ---------------------------------------------------------------- the regime

  /** Every row that is in is on one side, with open interest, multiplier and gamma above zero. */
  ghost predicate OneSide(b: Inputs, vols: Option<seq<real>>, right: string) {
    forall i :: 0 <= i < |b.rows| && Live(b, i) ==>
      && b.rows[i].right == right && b.rows[i].openInterest > 0.0 && b.rows[i].multiplier > 0.0
      && (GreeksAt(b, vols, b.spot, i).Some? ==> GreeksAt(b, vols, b.spot, i).value.gamma > 0.0)
  }

  lemma GexSign(c: Contract, g: Greeks, x: real)
    requires c.openInterest > 0.0 && c.multiplier > 0.0 && g.gamma > 0.0 && x > 0.0
    ensures if c.right == "C" then Worth(c, g, x).gex > 0.0 else Worth(c, g, x).gex < 0.0
  {
    MulSign(x, x);
    MulSign(g.gamma, Mul(x, x));
    MulSign(c.openInterest, Mul(g.gamma, Mul(x, x)));
    var y := Mul(c.openInterest, Mul(g.gamma, Mul(x, x)));
    MulSign(y, c.multiplier);
    assert c.openInterest * g.gamma * x * x * 0.01 * c.multiplier == 0.01 * Mul(y, c.multiplier);
    assert Worth(c, g, x).gex == Side(c) * (c.openInterest * g.gamma * x * x * 0.01 * c.multiplier);
  }

  lemma {:induction false} SideSign(b: Inputs, vols: Option<seq<real>>, right: string, n: nat)
    requires n <= |b.rows| && OneSide(b, vols, right) && b.spot > 0.0
    ensures var gex := WorthOf(b, vols, b.spot, n, Everyone()).gex;
            && (if right == "C" then gex >= 0.0 else gex <= 0.0)
            && ((exists i :: 0 <= i < n && Live(b, i) && GreeksAt(b, vols, b.spot, i).Some?) ==> gex != 0.0)
  {
    if n > 0 {
      SideSign(b, vols, right, n - 1);
      if Live(b, n - 1) && GreeksAt(b, vols, b.spot, n - 1).Some? {
        GexSign(b.rows[n - 1], GreeksAt(b, vols, b.spot, n - 1).value, b.spot);
      }
    }
  }

  /** A book of calls alone has a positive total, a book of puts alone has not. */
  lemma OneSidedTotal(b: Inputs, vols: Option<seq<real>>, items: seq<Item>, right: string)
    requires ItemsAt(b, vols, b.spot, |b.rows|) == Some(items) && items != [] && OneSide(b, vols, right) && b.spot > 0.0
    ensures SumIf(items, All()).gex > 0.0 <==> right == "C"
  {
    MirrorsOf(Pair("", BadDate("")), "");
    SumsAre(b, vols, b.spot, |b.rows|, All(), Everyone());
    MembersAre(b, vols, b.spot, |b.rows|, All(), Everyone());
    assert items[0] in items && All()(items[0]);
    var i :| 0 <= i < |b.rows| && Live(b, i) && Everyone()(b.rows[i]);
    assert !Unpriceable(b, vols, b.spot, i);
    SideSign(b, vols, right, |b.rows|);
  }

  // ---------------------------------------------------------------- the profile

  lemma {:induction false} Repriced(b: Inputs, vols: Option<seq<real>>, x: real, n: nat)
    requires n <= |b.rows|
    ensures ItemsAt(b, vols, x, n) == ItemsAt(b.(spot := x), vols, x, n)
  {
    if n > 0 {
      Repriced(b, vols, x, n - 1);
      PriceIs(b, vols, x, n - 1);
      PriceIs(b.(spot := x), vols, x, n - 1);
    }
  }

  /** Repricing the book at a spot gives the total of its snapshot with that spot, and fails where
      that cannot be priced. */
  lemma RepricedIsSnapshot(b: Inputs, vols: Option<seq<real>>, x: real, items: seq<Item>, multi: bool, s: Snapshot)
    requires ItemsAt(b.(spot := x), vols, x, |b.rows|) == Some(items) && IsSnapshot(items, multi, s)
    ensures GexAt(b, vols, x) == Brent.Finite(s.totals.gex)
  {
    Repriced(b, vols, x, |b.rows|);
  }

  /** The profile covers 0.8 to 1.2 times spot in 80 equal steps, and each point is what the contracts
      are worth at that spot, Greeks and dollars alike. */
  ghost predicate ProfileSums(b: Inputs, vols: Option<seq<real>>, profile: seq<SpotGex>) {
    |profile| == 81 && forall i :: 0 <= i < 81 ==> PlaceSums(b, vols, profile[i], i)
  }
  ghost predicate PlaceSums(b: Inputs, vols: Option<seq<real>>, p: SpotGex, i: int) {
    p.spot == b.spot * (0.8 + 0.005 * i as real) && p.totalGex == WorthOf(b, vols, p.spot, |b.rows|, Everyone()).gex
  }

  lemma ProfileIs(b: Inputs, vols: Option<seq<real>>, profile: seq<SpotGex>)
    requires |profile| == 81 && IsProfile(Objective(b, vols), b.spot, profile)
    ensures ProfileSums(b, vols, profile)
  {
    forall i | 0 <= i < 81 ensures PlaceSums(b, vols, profile[i], i) {
      PlaceIs(b, vols, profile, i);
    }
  }

  lemma PlaceIs(b: Inputs, vols: Option<seq<real>>, profile: seq<SpotGex>, i: nat)
    requires |profile| == 81 && IsProfile(Objective(b, vols), b.spot, profile) && i < 81
    ensures PlaceSums(b, vols, profile[i], i)
  {
    var x := Grid(b.spot, i);
    assert Objective(b, vols)(x) == Brent.Finite(profile[i].totalGex);
    MirrorsOf(Pair("", BadDate("")), "");
    SumsAre(b, vols, x, |b.rows|, All(), Everyone());
    GridIs(b.spot, i as real, i);
  }

  lemma GridIs(spot: real, t: real, i: nat)
    requires t == i as real
    ensures Grid(spot, i) == spot * (0.8 + 0.005 * t)
  {
    assert Mul(spot * 0.4, t) == 0.4 * (spot * t);
  }
}
