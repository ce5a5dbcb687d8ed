/** Conservation: every slicing of the book adds up to the book
    (core/internal/exposure/aggregate.go). */
module Conservation {
  import opened Market
  import opened Exposure
  import opened Snapshots
  import opened Ordering

  // ---------------------------------------------------------------- sums over a partition

  function Both(p: Item -> bool, q: Item -> bool): Item -> bool { (it: Item) => p(it) && q(it) }

  /** The sums of the groups with the given keys, added up. */
  ghost function SumOver<K>(items: seq<Item>, test: Item -> bool, key: Item -> K, keys: seq<K>): Totals {
    if keys == [] then ZERO else
    Plus(SumOver(items, test, key, keys[..|keys| - 1]), SumIf(items, Both(test, Keyed(key, keys[|keys| - 1]))))
  }

  lemma {:induction false} OneMore<K>(items: seq<Item>, it: Item, test: Item -> bool, key: Item -> K, keys: seq<K>)
    requires Distinct(keys)
    ensures SumOver(items + [it], test, key, keys) ==
            if test(it) && key(it) in keys then Plus(SumOver(items, test, key, keys), it.ex) else SumOver(items, test, key, keys)
  {
    if keys != [] {
      var front, k := keys[..|keys| - 1], keys[|keys| - 1];
      OneMore(items, it, test, key, front);
      SumAppend(items, it, Both(test, Keyed(key, k)));
      assert keys == front + [k];
    }
  }

  lemma {:induction false} NoItems<K>(test: Item -> bool, key: Item -> K, keys: seq<K>)
    ensures SumOver([], test, key, keys) == ZERO
  {
    if keys != [] {
      NoItems(test, key, keys[..|keys| - 1]);
    }
  }

  /** Summing group by group, over distinct keys that cover the items, loses and repeats nothing. */
  lemma {:induction false} GroupSum<K>(items: seq<Item>, test: Item -> bool, key: Item -> K, keys: seq<K>)
    requires Distinct(keys) && forall i :: 0 <= i < |items| && test(items[i]) ==> key(items[i]) in keys
    ensures SumOver(items, test, key, keys) == SumIf(items, test)
  {
    if items == [] {
      NoItems(test, key, keys);
    } else {
      var front, it := items[..|items| - 1], items[|items| - 1];
      GroupSum(front, test, key, keys);
      OneMore(front, it, test, key, keys);
      assert items == front + [it];
    }
  }

  lemma {:induction false} SameSum(items: seq<Item>, p: Item -> bool, q: Item -> bool)
    requires forall it: Item :: p(it) == q(it)
    ensures SumIf(items, p) == SumIf(items, q)
  {
    if items != [] {
      SameSum(items[..|items| - 1], p, q);
    }
  }

  // ---------------------------------------------------------------- totals

  function TotalsSum(ts: seq<Totals>): Totals {
    if ts == [] then ZERO else Plus(TotalsSum(ts[..|ts| - 1]), ts[|ts| - 1])
  }

  lemma {:induction false} TotalsSumOver<K(!new)>(items: seq<Item>, key: Item -> K, keys: seq<K>, ts: seq<Totals>)
    requires |ts| == |keys| && forall i :: 0 <= i < |ts| ==> ts[i] == SumIf(items, Keyed(key, keys[i]))
    ensures TotalsSum(ts) == SumOver(items, All(), key, keys)
  {
    if keys != [] {
      var n := |keys| - 1;
      TotalsSumOver(items, key, keys[..n], ts[..n]);
      SameSum(items, Keyed(key, keys[n]), Both(All(), Keyed(key, keys[n])));
    }
  }

  /** The totals of a grouping by distinct keys that cover the book add up to the book's. */
  lemma TotalsConserved<K(!new)>(items: seq<Item>, key: Item -> K, keys: seq<K>, ts: seq<Totals>)
    requires |ts| == |keys| && forall i :: 0 <= i < |ts| ==> ts[i] == SumIf(items, Keyed(key, keys[i]))
    requires Distinct(keys) && forall i :: 0 <= i < |items| ==> key(items[i]) in keys
    ensures TotalsSum(ts) == SumIf(items, All())
  {
    TotalsSumOver(items, key, keys, ts);
    GroupSum(items, All(), key, keys);
  }

  // ---------------------------------------------------------------- one curve

  function NetSum(curve: seq<StrikeExposure>): real {
    if curve == [] then 0.0 else NetSum(curve[..|curve| - 1]) + curve[|curve| - 1].netGex
  }

  function StrikeKey(): Item -> real { (it: Item) => it.strike }

  lemma {:induction false} NetSumOver(items: seq<Item>, test: Item -> bool, curve: seq<StrikeExposure>)
    requires forall i :: 0 <= i < |curve| ==> curve[i] == Point(items, test, curve[i].strike)
    ensures NetSum(curve) == SumOver(items, test, StrikeKey(), StrikesIn(curve)).gex
  {
    if curve != [] {
      var n := |curve| - 1;
      NetSumOver(items, test, curve[..n]);
      var k := curve[n].strike;
      SameSum(items, At(test, k), Both(test, Keyed(StrikeKey(), k)));
      assert StrikesIn(curve)[..n] == StrikesIn(curve[..n]);
    }
  }

  lemma CurveConserved(items: seq<Item>, test: Item -> bool, curve: seq<StrikeExposure>)
    requires CurveList(items, test, curve)
    ensures NetSum(curve) == SumIf(items, test).gex
  {
    NetSumOver(items, test, curve);
    var ks := StrikesIn(curve);
    forall i | 0 <= i < |items| && test(items[i]) ensures StrikeKey()(items[i]) in ks {
      var j :| 0 <= j < |curve| && curve[j].strike == items[i].strike;
      assert ks[j] == items[i].strike;
    }
    GroupSum(items, test, StrikeKey(), ks);
  }

  lemma {:induction false} SidesAddUp(items: seq<Item>, test: Item -> bool, k: real)
    ensures SumIf(items, At(test, k)).gex == SumIf(items, CallAt(test, k)).gex + SumIf(items, PutAt(test, k)).gex
  {
    if items != [] {
      SidesAddUp(items[..|items| - 1], test, k);
    }
  }

  // ---------------------------------------------------------------- curves of a partition

  function PlusPoint(p: StrikeExposure, q: StrikeExposure): StrikeExposure {
    StrikeExposure(p.strike, p.callGex + q.callGex, p.putGex + q.putGex, p.netGex + q.netGex)
  }

  /** A curve's point at a strike; nothing where the curve has none. */
  function PointAt(curve: seq<StrikeExposure>, k: real): StrikeExposure {
    if curve == [] then StrikeExposure(k, 0.0, 0.0, 0.0) else
    if curve[|curve| - 1].strike == k then curve[|curve| - 1] else PointAt(curve[..|curve| - 1], k)
  }

  function PointSum(curves: seq<seq<StrikeExposure>>, k: real): StrikeExposure {
    if curves == [] then StrikeExposure(k, 0.0, 0.0, 0.0) else
    PlusPoint(PointSum(curves[..|curves| - 1], k), PointAt(curves[|curves| - 1], k))
  }

  lemma {:induction false} PointAtListed(curve: seq<StrikeExposure>, k: real)
    ensures if Listed(curve, k) then exists j :: 0 <= j < |curve| && curve[j].strike == k && PointAt(curve, k) == curve[j]
            else PointAt(curve, k) == StrikeExposure(k, 0.0, 0.0, 0.0)
  {
    if curve != [] {
      var n := |curve| - 1;
      if curve[n].strike != k {
        PointAtListed(curve[..n], k);
        assert Listed(curve, k) <==> Listed(curve[..n], k) by {
          if Listed(curve[..n], k) {
            var j :| 0 <= j < n && curve[..n][j].strike == k;
            assert curve[j].strike == k;
          }
          if Listed(curve, k) {
            var j :| 0 <= j < |curve| && curve[j].strike == k;
            assert curve[..n][j].strike == k;
          }
        }
      }
    }
  }

  lemma CurvePoint(items: seq<Item>, test: Item -> bool, curve: seq<StrikeExposure>, k: real)
    requires CurveList(items, test, curve)
    ensures PointAt(curve, k) == Point(items, test, k)
  {
    PointAtListed(curve, k);
    if !Listed(curve, k) {
      EmptyPoint(items, test, k);
    }
  }

  ghost function PointOver<K>(items: seq<Item>, key: Item -> K, keys: seq<K>, k: real): StrikeExposure {
    StrikeExposure(k, SumOver(items, CallAt(All(), k), key, keys).gex, SumOver(items, PutAt(All(), k), key, keys).gex,
                   SumOver(items, At(All(), k), key, keys).gex)
  }

  lemma SlicePoint<K>(items: seq<Item>, key: Item -> K, x: K, k: real)
    ensures SumIf(items, At(Keyed(key, x), k)) == SumIf(items, Both(At(All(), k), Keyed(key, x)))
    ensures SumIf(items, CallAt(Keyed(key, x), k)) == SumIf(items, Both(CallAt(All(), k), Keyed(key, x)))
    ensures SumIf(items, PutAt(Keyed(key, x), k)) == SumIf(items, Both(PutAt(All(), k), Keyed(key, x)))
  {
    SameSum(items, At(Keyed(key, x), k), Both(At(All(), k), Keyed(key, x)));
    SameSum(items, CallAt(Keyed(key, x), k), Both(CallAt(All(), k), Keyed(key, x)));
    SameSum(items, PutAt(Keyed(key, x), k), Both(PutAt(All(), k), Keyed(key, x)));
  }

  ghost predicate CurvesOf<K(!new)>(items: seq<Item>, key: Item -> K, keys: seq<K>, curves: seq<seq<StrikeExposure>>) {
    |curves| == |keys| && forall i :: 0 <= i < |curves| ==> CurveList(items, Keyed(key, keys[i]), curves[i])
  }

  lemma {:induction false} PointSumOver<K(!new)>(items: seq<Item>, key: Item -> K, keys: seq<K>, curves: seq<seq<StrikeExposure>>, k: real)
    requires CurvesOf(items, key, keys, curves)
    ensures PointSum(curves, k) == PointOver(items, key, keys, k)
  {
    if keys != [] {
      var n := |keys| - 1;
      PointSumOver(items, key, keys[..n], curves[..n], k);
      CurvePoint(items, Keyed(key, keys[n]), curves[n], k);
      SlicePoint(items, key, keys[n], k);
    }
  }

  /** At every strike the curves of a grouping add up to the book's curve. */
  lemma CurvesConserved<K(!new)>(items: seq<Item>, key: Item -> K, keys: seq<K>, curves: seq<seq<StrikeExposure>>,
                                 book: seq<StrikeExposure>, k: real)
    requires CurvesOf(items, key, keys, curves) && CurveList(items, All(), book)
    requires Distinct(keys) && forall i :: 0 <= i < |items| ==> key(items[i]) in keys
    ensures PointSum(curves, k) == PointAt(book, k)
  {
    PointSumOver(items, key, keys, curves, k);
    CurvePoint(items, All(), book, k);
    GroupSum(items, CallAt(All(), k), key, keys);
    GroupSum(items, PutAt(All(), k), key, keys);
    GroupSum(items, At(All(), k), key, keys);
  }

  // ---------------------------------------------------------------- the snapshot

  function ExpiryTotals(es: seq<ExpiryGex>): seq<Totals> { seq(|es|, i requires 0 <= i < |es| => es[i].totals) }
  function ExpiryCurves(es: seq<ExpiryGex>): seq<seq<StrikeExposure>> { seq(|es|, i requires 0 <= i < |es| => es[i].perStrike) }
  function ClassTotals(cs: seq<ClassGex>): seq<Totals> { seq(|cs|, i requires 0 <= i < |cs| => cs[i].totals) }
  function ClassCurves(cs: seq<ClassGex>): seq<seq<StrikeExposure>> { seq(|cs|, i requires 0 <= i < |cs| => cs[i].perStrike) }

  /** A curve is strictly ascending, each net is its call plus its put, and the nets sum to a total. */
  predicate Balanced(curve: seq<StrikeExposure>, gex: real) {
    && (forall i, j :: 0 <= i < j < |curve| ==> curve[i].strike < curve[j].strike)
    && (forall i :: 0 <= i < |curve| ==> curve[i].netGex == curve[i].callGex + curve[i].putGex)
    && NetSum(curve) == gex
  }

  lemma CurveBalanced(items: seq<Item>, test: Item -> bool, curve: seq<StrikeExposure>)
    requires CurveList(items, test, curve)
    ensures Balanced(curve, SumIf(items, test).gex)
  {
    CurveConserved(items, test, curve);
    forall i | 0 <= i < |curve| ensures curve[i].netGex == curve[i].callGex + curve[i].putGex {
      SidesAddUp(items, test, curve[i].strike);
    }
  }

  /** Every curve of the snapshot balances against its own total. */
  lemma SnapshotBalanced(items: seq<Item>, multi: bool, s: Snapshot)
    requires IsSnapshot(items, multi, s)
    ensures Balanced(s.perStrike, s.totals.gex)
    ensures forall i :: 0 <= i < |s.perExpiry| ==> Balanced(s.perExpiry[i].perStrike, s.perExpiry[i].totals.gex)
    ensures forall i :: 0 <= i < |s.classes| ==> Balanced(s.classes[i].perStrike, s.classes[i].totals.gex)
  {
    CurveBalanced(items, All(), s.perStrike);
    forall i | 0 <= i < |s.perExpiry| ensures Balanced(s.perExpiry[i].perStrike, s.perExpiry[i].totals.gex) {
      CurveBalanced(items, Keyed(PairKey(), s.perExpiry[i].pair), s.perExpiry[i].perStrike);
    }
    forall i | 0 <= i < |s.classes| ensures Balanced(s.classes[i].perStrike, s.classes[i].totals.gex) {
      CurveBalanced(items, Keyed(ClassKey(), s.classes[i].cls), s.classes[i].perStrike);
    }
  }

  lemma ExpiriesCover(items: seq<Item>, es: seq<ExpiryGex>)
    requires AreExpiries(items, es)
    ensures Distinct(PairsIn(es)) && forall i :: 0 <= i < |items| ==> PairKey()(items[i]) in PairsIn(es)
  {
    forall i, j | 0 <= i < j < |es| ensures es[i].pair != es[j].pair {
      PairOrder();
      assert PairBefore(es[i].pair, es[j].pair) && !ByPair()(es[i].pair, es[i].pair);
    }
    forall i | 0 <= i < |items| ensures PairKey()(items[i]) in PairsIn(es) {
      assert PairListed(es, items[i].pair);
      var j :| 0 <= j < |es| && es[j].pair == items[i].pair;
      assert PairsIn(es)[j] == items[i].pair;
    }
  }

  lemma ClassesCover(items: seq<Item>, cs: seq<ClassGex>)
    requires AreClasses(items, cs)
    ensures Distinct(ClassesIn(cs)) && forall i :: 0 <= i < |items| ==> ClassKey()(items[i]) in ClassesIn(cs)
  {
    forall i, j | 0 <= i < j < |cs| ensures cs[i].cls != cs[j].cls {
      TextNotBeforeItself(cs[i].cls);
    }
    forall i | 0 <= i < |items| ensures ClassKey()(items[i]) in ClassesIn(cs) {
      assert ClassListed(cs, items[i].pair.cls);
      var j :| 0 <= j < |cs| && cs[j].cls == items[i].pair.cls;
      assert ClassesIn(cs)[j] == items[i].pair.cls;
    }
  }

  lemma ExpiryTotalsConserved(items: seq<Item>, es: seq<ExpiryGex>)
    requires AreExpiries(items, es)
    ensures TotalsSum(ExpiryTotals(es)) == SumIf(items, All())
  {
    ExpiriesCover(items, es);
    TotalsConserved(items, PairKey(), PairsIn(es), ExpiryTotals(es));
  }

  lemma ClassTotalsConserved(items: seq<Item>, cs: seq<ClassGex>)
    requires AreClasses(items, cs)
    ensures TotalsSum(ClassTotals(cs)) == SumIf(items, All())
  {
    ClassesCover(items, cs);
    TotalsConserved(items, ClassKey(), ClassesIn(cs), ClassTotals(cs));
  }

  lemma ExpiryCurvesConserved(items: seq<Item>, es: seq<ExpiryGex>, book: seq<StrikeExposure>, k: real)
    requires AreExpiries(items, es) && CurveList(items, All(), book)
    ensures PointSum(ExpiryCurves(es), k) == PointAt(book, k)
  {
    ExpiriesCover(items, es);
    CurvesConserved(items, PairKey(), PairsIn(es), ExpiryCurves(es), book, k);
  }

  lemma ClassCurvesConserved(items: seq<Item>, cs: seq<ClassGex>, book: seq<StrikeExposure>, k: real)
    requires AreClasses(items, cs) && CurveList(items, All(), book)
    ensures PointSum(ClassCurves(cs), k) == PointAt(book, k)
  {
    ClassesCover(items, cs);
    CurvesConserved(items, ClassKey(), ClassesIn(cs), ClassCurves(cs), book, k);
  }

  /** All four totals agree with the expiry table and, on a multi-class chain, the class table. */
  lemma SlicesConserveTotals(items: seq<Item>, multi: bool, s: Snapshot)
    requires IsSnapshot(items, multi, s)
    ensures TotalsSum(ExpiryTotals(s.perExpiry)) == s.totals
    ensures multi ==> TotalsSum(ClassTotals(s.classes)) == s.totals
  {
    ExpiryTotalsConserved(items, s.perExpiry);
    if multi {
      ClassTotalsConserved(items, s.classes);
    }
  }

  /** At every strike the expiry curves, and the class curves, add up to the book's curve. */
  lemma SlicesConserveCurve(items: seq<Item>, multi: bool, s: Snapshot, k: real)
    requires IsSnapshot(items, multi, s)
    ensures PointSum(ExpiryCurves(s.perExpiry), k) == PointAt(s.perStrike, k)
    ensures multi ==> PointSum(ClassCurves(s.classes), k) == PointAt(s.perStrike, k)
  {
    ExpiryCurvesConserved(items, s.perExpiry, s.perStrike, k);
    if multi {
      ClassCurvesConserved(items, s.classes, s.perStrike, k);
    }
  }
}
