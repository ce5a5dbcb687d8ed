/** Aggregation of dealer exposures (core/internal/exposure/aggregate.go): totals, the
    per-strike curve, and the per-expiry and per-class slices of the book.  The pricing model
    is a parameter. */
module Exposure {
  import opened Common
  import opened Market
  import opened Ordering

  datatype Greeks = Greeks(delta: real, gamma: real, vanna: real, charm: real)

  /** Spot, strike, days to expiry, volatility and right; None where the solver refuses. */
  type Pricer = (real, real, int, real, string) -> Option<Greeks>

  datatype Inputs = Inputs(rows: seq<Contract>, spot: real, today: int, sigma: int -> real, price: Pricer)

  datatype Totals = Totals(gex: real, dex: real, vex: real, chex: real)
  const ZERO := Totals(0.0, 0.0, 0.0, 0.0)
  function Plus(a: Totals, b: Totals): Totals {
    Totals(a.gex + b.gex, a.dex + b.dex, a.vex + b.vex, a.chex + b.chex)
  }

  // ---------------------------------------------------------------- one contract

  function DealerQty(c: Contract): real { if c.right == CALL then c.openInterest else -c.openInterest }

  function Exposures(c: Contract, g: Greeks, spot: real): Totals {
    var q, m := DealerQty(c), c.multiplier;
    Totals(Mul(q, Mul(g.gamma, Mul(spot, Mul(spot, Mul(0.01, m))))), Mul(q, Mul(g.delta, Mul(spot, m))),
           Mul(q, Mul(g.vanna, Mul(spot, Mul(0.01, m)))), Mul(q, Mul(g.charm, Mul(spot, m))))
  }

  /** A priced contract: where it goes and what it adds. */
  datatype Item = Item(strike: real, call: bool, pair: Pair, ex: Totals)
  datatype Priced = Skipped | Failed | Ok(item: Item)

  /** The volatility of row i: its blended one if there is a surface, else the anchor. */
  function VolOf(b: Inputs, vols: Option<seq<real>>, i: nat, dte: int): real {
    if vols.Some? && i < |vols.value| then vols.value[i] else b.sigma(dte)
  }

  /** Row i priced at a spot; rows with less than a day left are outside the model. */
  function PriceRow(b: Inputs, vols: Option<seq<real>>, spot: real, i: nat): Priced
    requires i < |b.rows|
  {
    var c := b.rows[i];
    if c.expiry.BadDate? then Failed else
    var dte := c.expiry.day - b.today;
    if dte < 1 then Skipped else
    match b.price(spot, c.strike, dte, VolOf(b, vols, i, dte), c.right)
    case None => Failed
    case Some(g) => Ok(Item(c.strike, c.right == CALL, PairOf(c), Exposures(c, g, spot)))
  }

  /** The skew read model prices a quoted contract a second time, at its quoted volatility. */
  predicate SkewFails(b: Inputs, i: nat)
    requires i < |b.rows|
  {
    var c := b.rows[i];
    c.iv > 0.0 && c.expiry.Ymd? && b.price(b.spot, c.strike, c.expiry.day - b.today, c.iv, c.right).None?
  }

  /** The items of the first n rows; None as soon as one of them fails. */
  function ItemsAt(b: Inputs, vols: Option<seq<real>>, spot: real, n: nat): Option<seq<Item>>
    requires n <= |b.rows|
  {
    if n == 0 then Some([]) else
    match ItemsAt(b, vols, spot, n - 1)
    case None => None
    case Some(items) =>
      match PriceRow(b, vols, spot, n - 1)
      case Skipped => Some(items)
      case Failed => None
      case Ok(item) => Some(items + [item])
  }

  // ---------------------------------------------------------------- sums over items

  function SumIf(items: seq<Item>, test: Item -> bool): Totals {
    if items == [] then ZERO else
    var rest := SumIf(items[..|items| - 1], test);
    if test(items[|items| - 1]) then Plus(rest, items[|items| - 1].ex) else rest
  }

  function All(): Item -> bool { (it: Item) => true }
  function Keyed<K(==)>(key: Item -> K, k: K): Item -> bool { (it: Item) => key(it) == k }
  function PairKey(): Item -> Pair { (it: Item) => it.pair }
  function ClassKey(): Item -> string { (it: Item) => it.pair.cls }
  function At(test: Item -> bool, k: real): Item -> bool { (it: Item) => test(it) && it.strike == k }
  function CallAt(test: Item -> bool, k: real): Item -> bool { (it: Item) => test(it) && it.strike == k && it.call }
  function PutAt(test: Item -> bool, k: real): Item -> bool { (it: Item) => test(it) && it.strike == k && !it.call }

  lemma SumAppend(items: seq<Item>, it: Item, test: Item -> bool)
    ensures SumIf(items + [it], test) == if test(it) then Plus(SumIf(items, test), it.ex) else SumIf(items, test)
  {
    assert (items + [it])[..|items|] == items;
  }

  // ---------------------------------------------------------------- per-strike curves

  datatype StrikeExposure = StrikeExposure(strike: real, callGex: real, putGex: real, netGex: real)

  /** The point of a group's curve at a strike: what its contracts there sum to. */
  ghost function Point(items: seq<Item>, test: Item -> bool, k: real): StrikeExposure {
    StrikeExposure(k, SumIf(items, CallAt(test, k)).gex, SumIf(items, PutAt(test, k)).gex, SumIf(items, At(test, k)).gex)
  }

  /** A curve under construction: points by strike, and the strikes in order of appearance. */
  datatype Curve = Curve(points: map<real, StrikeExposure>, strikes: seq<real>)
  const EMPTY_CURVE := Curve(map[], [])

  function AddPoint(c: Curve, it: Item): Curve {
    var known := it.strike in c.points;
    var se := if known then c.points[it.strike] else StrikeExposure(it.strike, 0.0, 0.0, 0.0);
    var se' := if it.call then se.(callGex := se.callGex + it.ex.gex, netGex := se.netGex + it.ex.gex)
               else se.(putGex := se.putGex + it.ex.gex, netGex := se.netGex + it.ex.gex);
    Curve(c.points[it.strike := se'], if known then c.strikes else c.strikes + [it.strike])
  }

  ghost predicate Distinct<T>(s: seq<T>) { forall i, j :: 0 <= i < j < |s| ==> s[i] != s[j] }

  ghost predicate HasStrike(items: seq<Item>, test: Item -> bool, k: real) {
    exists i :: 0 <= i < |items| && test(items[i]) && items[i].strike == k
  }

  predicate Complete(c: Curve) { forall i :: 0 <= i < |c.strikes| ==> c.strikes[i] in c.points }

  ghost predicate Indexed(c: Curve) {
    Distinct(c.strikes) && Complete(c) && forall k :: k in c.points ==> k in c.strikes
  }

  lemma IndexGrows(c: Curve, it: Item)
    requires Indexed(c)
    ensures Indexed(AddPoint(c, it))
  {
    var c' := AddPoint(c, it);
    if it.strike !in c.points {
      forall i | 0 <= i < |c.strikes| ensures c.strikes[i] != it.strike {
        assert c.strikes[i] in c.points;
      }
      assert c'.strikes[|c.strikes|] == it.strike;
    }
  }

  /** c is exactly the curve of the items that pass the test. */
  ghost predicate IsCurve(items: seq<Item>, test: Item -> bool, c: Curve) {
    && Indexed(c)
    && (forall k :: k in c.points <==> HasStrike(items, test, k))
    && (forall k :: k in c.points ==> c.points[k] == Point(items, test, k))
  }

  lemma {:induction false} NothingThere(items: seq<Item>, test: Item -> bool)
    requires forall i :: 0 <= i < |items| ==> !test(items[i])
    ensures SumIf(items, test) == ZERO
  {
    if items != [] {
      NothingThere(items[..|items| - 1], test);
    }
  }

  lemma EmptyPoint(items: seq<Item>, test: Item -> bool, k: real)
    requires !HasStrike(items, test, k)
    ensures Point(items, test, k) == StrikeExposure(k, 0.0, 0.0, 0.0)
  {
    NothingThere(items, At(test, k));
    NothingThere(items, CallAt(test, k));
    NothingThere(items, PutAt(test, k));
  }

  lemma PointAppend(items: seq<Item>, it: Item, test: Item -> bool, k: real)
    ensures var p, p' := Point(items, test, k), Point(items + [it], test, k);
            if !test(it) || it.strike != k then p' == p
            else if it.call then p' == p.(callGex := p.callGex + it.ex.gex, netGex := p.netGex + it.ex.gex)
            else p' == p.(putGex := p.putGex + it.ex.gex, netGex := p.netGex + it.ex.gex)
  {
    SumAppend(items, it, At(test, k));
    SumAppend(items, it, CallAt(test, k));
    SumAppend(items, it, PutAt(test, k));
  }

  lemma HasStrikeAppend(items: seq<Item>, it: Item, test: Item -> bool, k: real)
    ensures HasStrike(items + [it], test, k) <==> HasStrike(items, test, k) || (test(it) && it.strike == k)
  {
    var all := items + [it];
    if HasStrike(items, test, k) {
      var i :| 0 <= i < |items| && test(items[i]) && items[i].strike == k;
      assert all[i] == items[i];
    }
    if test(it) && it.strike == k {
      assert all[|items|] == it;
    }
  }

  /** Adding an item keeps the curve of its group exact. */
  lemma CurveGrows(items: seq<Item>, it: Item, test: Item -> bool, c: Curve)
    requires IsCurve(items, test, c) && test(it)
    ensures IsCurve(items + [it], test, AddPoint(c, it))
  {
    var c' := AddPoint(c, it);
    IndexGrows(c, it);
    forall k ensures k in c'.points <==> HasStrike(items + [it], test, k) {
      HasStrikeAppend(items, it, test, k);
    }
    forall k | k in c'.points ensures c'.points[k] == Point(items + [it], test, k) {
      PointAppend(items, it, test, k);
      if k !in c.points {
        EmptyPoint(items, test, k);
      }
    }
  }

  /** ... and leaves the curves of other groups as they are. */
  lemma CurveStays(items: seq<Item>, it: Item, test: Item -> bool, c: Curve)
    requires IsCurve(items, test, c) && !test(it)
    ensures IsCurve(items + [it], test, c)
  {
    forall k ensures k in c.points <==> HasStrike(items + [it], test, k) {
      HasStrikeAppend(items, it, test, k);
    }
    forall k | k in c.points ensures c.points[k] == Point(items + [it], test, k) {
      PointAppend(items, it, test, k);
    }
  }

  // ---------------------------------------------------------------- groups

  /** What is accumulated for one expiry or class. */
  datatype Group = Group(totals: Totals, contracts: nat, calls: bool, puts: bool, curve: Curve)
  const EMPTY_GROUP := Group(ZERO, 0, false, false, EMPTY_CURVE)

  function AddItem(g: Group, it: Item): Group {
    Group(Plus(g.totals, it.ex), g.contracts + 1, g.calls || it.call, g.puts || !it.call, AddPoint(g.curve, it))
  }

  function CountIf(items: seq<Item>, test: Item -> bool): nat {
    if items == [] then 0 else
    CountIf(items[..|items| - 1], test) + if test(items[|items| - 1]) then 1 else 0
  }

  ghost predicate Some1(items: seq<Item>, test: Item -> bool, call: bool) {
    exists i :: 0 <= i < |items| && test(items[i]) && items[i].call == call
  }

  ghost predicate IsGroup(items: seq<Item>, test: Item -> bool, g: Group) {
    && g.totals == SumIf(items, test) && g.contracts == CountIf(items, test)
    && (g.calls <==> Some1(items, test, true)) && (g.puts <==> Some1(items, test, false))
    && IsCurve(items, test, g.curve)
  }

  lemma Some1Append(items: seq<Item>, it: Item, test: Item -> bool, call: bool)
    ensures Some1(items + [it], test, call) <==> Some1(items, test, call) || (test(it) && it.call == call)
  {
    var all := items + [it];
    if Some1(items, test, call) {
      var i :| 0 <= i < |items| && test(items[i]) && items[i].call == call;
      assert all[i] == items[i];
    }
    if test(it) && it.call == call {
      assert all[|items|] == it;
    }
  }

  lemma GroupStep(items: seq<Item>, it: Item, test: Item -> bool, g: Group)
    requires IsGroup(items, test, g)
    ensures IsGroup(items + [it], test, if test(it) then AddItem(g, it) else g)
  {
    SumAppend(items, it, test);
    Some1Append(items, it, test, true);
    Some1Append(items, it, test, false);
    assert (items + [it])[..|items|] == items;
    if test(it) {
      CurveGrows(items, it, test, g.curve);
    } else {
      CurveStays(items, it, test, g.curve);
    }
  }

  lemma {:induction false} NoneCounted(items: seq<Item>, test: Item -> bool)
    requires forall i :: 0 <= i < |items| ==> !test(items[i])
    ensures IsGroup(items, test, EMPTY_GROUP)
  {
    NothingThere(items, test);
    if items != [] {
      NoneCounted(items[..|items| - 1], test);
    }
  }

  datatype Groups<!K> = Groups(table: map<K, Group>, order: seq<K>)

  function AddToGroups<K(==)>(gs: Groups<K>, k: K, it: Item): Groups<K> {
    var known := k in gs.table;
    Groups(gs.table[k := AddItem(if known then gs.table[k] else EMPTY_GROUP, it)], if known then gs.order else gs.order + [k])
  }

  ghost predicate HasKey<K>(items: seq<Item>, key: Item -> K, k: K) {
    exists i :: 0 <= i < |items| && key(items[i]) == k
  }

  ghost predicate KeysIndexed<K(!new)>(gs: Groups<K>) {
    Distinct(gs.order) && forall k :: k in gs.order <==> k in gs.table
  }

  lemma KeysGrow<K(!new)>(gs: Groups<K>, k: K, it: Item)
    requires KeysIndexed(gs)
    ensures KeysIndexed(AddToGroups(gs, k, it))
  {
    var gs' := AddToGroups(gs, k, it);
    if k !in gs.table {
      assert k !in gs.order;
      assert gs'.order == gs.order + [k];
    }
  }

  /** gs holds exactly one group per key that occurs, each exact. */
  ghost predicate AreGroups<K(!new)>(items: seq<Item>, key: Item -> K, gs: Groups<K>) {
    && KeysIndexed(gs)
    && (forall k :: k in gs.table ==> HasKey(items, key, k))
    && (forall i :: 0 <= i < |items| ==> key(items[i]) in gs.table)
    && (forall k :: k in gs.table ==> IsGroup(items, Keyed(key, k), gs.table[k]))
  }

  lemma HasKeyAppend<K>(items: seq<Item>, it: Item, key: Item -> K, k: K)
    ensures HasKey(items, key, k) || key(it) == k ==> HasKey(items + [it], key, k)
  {
    var all := items + [it];
    if HasKey(items, key, k) {
      var i :| 0 <= i < |items| && key(items[i]) == k;
      assert all[i] == items[i];
    }
    if key(it) == k {
      assert all[|items|] == it;
    }
  }

  lemma GroupsStep<K(!new)>(items: seq<Item>, it: Item, key: Item -> K, gs: Groups<K>)
    requires AreGroups(items, key, gs)
    ensures AreGroups(items + [it], key, AddToGroups(gs, key(it), it))
  {
    var gs' := AddToGroups(gs, key(it), it);
    KeysGrow(gs, key(it), it);
    forall k | k in gs'.table
      ensures HasKey(items + [it], key, k) && IsGroup(items + [it], Keyed(key, k), gs'.table[k])
    {
      OneGroupStep(items, it, key, gs, k);
    }
    KeysCover(items, it, key, gs);
  }

  lemma KeysCover<K(!new)>(items: seq<Item>, it: Item, key: Item -> K, gs: Groups<K>)
    requires forall i :: 0 <= i < |items| ==> key(items[i]) in gs.table
    ensures forall i :: 0 <= i < |items + [it]| ==> key((items + [it])[i]) in AddToGroups(gs, key(it), it).table
  {
  }

  lemma OneGroupStep<K(!new)>(items: seq<Item>, it: Item, key: Item -> K, gs: Groups<K>, k: K)
    requires AreGroups(items, key, gs) && k in AddToGroups(gs, key(it), it).table
    ensures HasKey(items + [it], key, k) && IsGroup(items + [it], Keyed(key, k), AddToGroups(gs, key(it), it).table[k])
  {
    HasKeyAppend(items, it, key, k);
    if k in gs.table {
      GroupStep(items, it, Keyed(key, k), gs.table[k]);
    } else {
      NoneCounted(items, Keyed(key, k));
      GroupStep(items, it, Keyed(key, k), EMPTY_GROUP);
    }
  }

  lemma GroupLast(items: seq<Item>, test: Item -> bool, g: Group)
    requires items != [] && IsGroup(items[..|items| - 1], test, g) && test(items[|items| - 1])
    ensures IsGroup(items, test, AddItem(g, items[|items| - 1]))
  {
    assert items == items[..|items| - 1] + [items[|items| - 1]];
    GroupStep(items[..|items| - 1], items[|items| - 1], test, g);
  }

  lemma GroupsLast<K(!new)>(items: seq<Item>, key: Item -> K, gs: Groups<K>)
    requires items != [] && AreGroups(items[..|items| - 1], key, gs)
    ensures AreGroups(items, key, AddToGroups(gs, key(items[|items| - 1]), items[|items| - 1]))
  {
    assert items == items[..|items| - 1] + [items[|items| - 1]];
    GroupsStep(items[..|items| - 1], items[|items| - 1], key, gs);
  }

  // ---------------------------------------------------------------- finished curves

  ghost predicate AscendingStrikes(curve: seq<StrikeExposure>) {
    forall i, j :: 0 <= i < j < |curve| ==> curve[i].strike < curve[j].strike
  }

  /** The finished curve of a group: ascending, one exact point per strike that occurs. */
  ghost predicate CurveList(items: seq<Item>, test: Item -> bool, out: seq<StrikeExposure>) {
    && AscendingStrikes(out)
    && (forall i :: 0 <= i < |out| ==> HasStrike(items, test, out[i].strike) && out[i] == Point(items, test, out[i].strike))
    && (forall i :: 0 <= i < |items| && test(items[i]) ==> Listed(out, items[i].strike))
  }
  ghost predicate Listed(out: seq<StrikeExposure>, k: real) {
    exists j :: 0 <= j < |out| && out[j].strike == k
  }

  /** The points of the strikes, sorted. */
  function Finished(c: Curve): seq<StrikeExposure>
    requires Complete(c)
  {
    var ks := Sort(c.strikes, ByReal());
    seq(|ks|, i requires 0 <= i < |ks| => PointOf(c, ks[i]))
  }
  function PointOf(c: Curve, k: real): StrikeExposure { if k in c.points then c.points[k] else StrikeExposure(k, 0.0, 0.0, 0.0) }

  /** Sort the strikes and list their points. */
  method ListCurve(c: Curve) returns (out: seq<StrikeExposure>)
    requires Complete(c)
    ensures out == Finished(c)
  {
    var ks := SortKeys(c.strikes, ByReal());
    out := [];
    for i := 0 to |ks|
      invariant |out| == i && forall j :: 0 <= j < i ==> out[j] == PointOf(c, ks[j])
    {
      assert ks[i] in ks;
      out := out + [c.points[ks[i]]];
    }
  }

  /** The finished curve of a group is its ascending list of exact points. */
  lemma FinishedCurve(c: Curve, items: seq<Item>, test: Item -> bool)
    requires IsCurve(items, test, c)
    ensures CurveList(items, test, Finished(c))
  {
    var ks, out := Sort(c.strikes, ByReal()), Finished(c);
    NumberOrder();
    SortSorts(c.strikes, ByReal());
    forall i | 0 <= i < |out| ensures out[i].strike == ks[i] && HasStrike(items, test, ks[i]) && out[i] == Point(items, test, ks[i]) {
      assert ks[i] in ks;
      assert ks[i] in c.points;
    }
    forall i, j | 0 <= i < j < |out| ensures out[i].strike < out[j].strike {
      assert ByReal()(ks[i], ks[j]);
    }
    forall i | 0 <= i < |items| && test(items[i]) ensures Listed(out, items[i].strike) {
      StrikeSorted(c, items, test, i);
      var j :| 0 <= j < |ks| && ks[j] == items[i].strike;
      assert out[j].strike == items[i].strike;
    }
  }

  lemma StrikeSorted(c: Curve, items: seq<Item>, test: Item -> bool, i: nat)
    requires IsCurve(items, test, c) && i < |items| && test(items[i])
    ensures items[i].strike in Sort(c.strikes, ByReal())
  {
    assert HasStrike(items, test, items[i].strike);
  }
}
