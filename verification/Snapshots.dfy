/** The aggregates of a chain (the pass of ComputeSnapshot over its rows, and findWalls, in
    core/internal/exposure/aggregate.go). */
module Snapshots {
  import opened Common
  import opened Market
  import opened Exposure
  import opened Ordering

  datatype Wall = NoWall | Wall(strike: real, bestGex: real)
  datatype ExpiryGex = ExpiryGex(pair: Pair, totals: Totals, perStrike: seq<StrikeExposure>)
  datatype ClassGex = ClassGex(cls: string, contracts: nat, totals: Totals, callWall: Wall, putWall: Wall,
                               perStrike: seq<StrikeExposure>)
  datatype Snapshot = Snapshot(totals: Totals, perStrike: seq<StrikeExposure>, perExpiry: seq<ExpiryGex>,
                               classes: seq<ClassGex>, callWall: Wall, putWall: Wall)

  // ---------------------------------------------------------------- walls

  /** The strike of the largest call exposure, the lowest such strike on a tie. */
  ghost predicate IsCallWall(curve: seq<StrikeExposure>, has: bool, w: Wall) {
    if !has || curve == [] then w == NoWall else
    exists i :: 0 <= i < |curve| && w == Wall(curve[i].strike, curve[i].callGex) &&
                (forall j :: 0 <= j < |curve| ==> curve[j].callGex <= w.bestGex) &&
                (forall j :: 0 <= j < i ==> curve[j].callGex < w.bestGex)
  }

  /** The strike of the smallest put exposure, the lowest such strike on a tie. */
  ghost predicate IsPutWall(curve: seq<StrikeExposure>, has: bool, w: Wall) {
    if !has || curve == [] then w == NoWall else
    exists i :: 0 <= i < |curve| && w == Wall(curve[i].strike, curve[i].putGex) &&
                (forall j :: 0 <= j < |curve| ==> curve[j].putGex >= w.bestGex) &&
                (forall j :: 0 <= j < i ==> curve[j].putGex > w.bestGex)
  }

  method FindWalls(curve: seq<StrikeExposure>, hasCalls: bool, hasPuts: bool) returns (call: Wall, put: Wall)
    ensures IsCallWall(curve, hasCalls, call) && IsPutWall(curve, hasPuts, put)
  {
    call, put := NoWall, NoWall;
    if hasCalls {
      for n := 0 to |curve|
        invariant IsCallWall(curve[..n], true, call)
      {
        ghost var was := call;
        if call.NoWall? || curve[n].callGex > call.bestGex {
          call := Wall(curve[n].strike, curve[n].callGex);
        }
        CallWallStep(curve[..n], curve[n], was, call);
        assert curve[..n + 1] == curve[..n] + [curve[n]];
      }
    }
    if hasPuts {
      for n := 0 to |curve|
        invariant IsPutWall(curve[..n], true, put)
      {
        ghost var was := put;
        if put.NoWall? || curve[n].putGex < put.bestGex {
          put := Wall(curve[n].strike, curve[n].putGex);
        }
        PutWallStep(curve[..n], curve[n], was, put);
        assert curve[..n + 1] == curve[..n] + [curve[n]];
      }
    }
    assert curve[..|curve|] == curve;
  }

  lemma CallWallStep(curve: seq<StrikeExposure>, p: StrikeExposure, w: Wall, w': Wall)
    requires IsCallWall(curve, true, w)
    requires w' == if w.NoWall? || p.callGex > w.bestGex then Wall(p.strike, p.callGex) else w
    ensures IsCallWall(curve + [p], true, w')
  {
    var all := curve + [p];
    if w' == w && w.Wall? {
      var i :| 0 <= i < |curve| && w == Wall(curve[i].strike, curve[i].callGex) &&
               (forall j :: 0 <= j < |curve| ==> curve[j].callGex <= w.bestGex) &&
               (forall j :: 0 <= j < i ==> curve[j].callGex < w.bestGex);
      assert all[i] == curve[i];
    } else {
      assert all[|curve|] == p;
    }
  }

  lemma PutWallStep(curve: seq<StrikeExposure>, p: StrikeExposure, w: Wall, w': Wall)
    requires IsPutWall(curve, true, w)
    requires w' == if w.NoWall? || p.putGex < w.bestGex then Wall(p.strike, p.putGex) else w
    ensures IsPutWall(curve + [p], true, w')
  {
    var all := curve + [p];
    if w' == w && w.Wall? {
      var i :| 0 <= i < |curve| && w == Wall(curve[i].strike, curve[i].putGex) &&
               (forall j :: 0 <= j < |curve| ==> curve[j].putGex >= w.bestGex) &&
               (forall j :: 0 <= j < i ==> curve[j].putGex > w.bestGex);
      assert all[i] == curve[i];
    } else {
      assert all[|curve|] == p;
    }
  }

  // ---------------------------------------------------------------- what a snapshot is

  ghost predicate IsExpiry(items: seq<Item>, e: ExpiryGex) {
    && HasKey(items, PairKey(), e.pair)
    && e.totals == SumIf(items, Keyed(PairKey(), e.pair))
    && CurveList(items, Keyed(PairKey(), e.pair), e.perStrike)
  }

  ghost predicate IsClass(items: seq<Item>, c: ClassGex) {
    var test := Keyed(ClassKey(), c.cls);
    && HasKey(items, ClassKey(), c.cls)
    && c.totals == SumIf(items, test) && c.contracts == CountIf(items, test)
    && CurveList(items, test, c.perStrike)
    && IsCallWall(c.perStrike, Some1(items, test, true), c.callWall)
    && IsPutWall(c.perStrike, Some1(items, test, false), c.putWall)
  }

  ghost predicate IsSnapshot(items: seq<Item>, multiClass: bool, s: Snapshot) {
    && s.totals == SumIf(items, All()) && CurveList(items, All(), s.perStrike)
    && IsCallWall(s.perStrike, Some1(items, All(), true), s.callWall)
    && IsPutWall(s.perStrike, Some1(items, All(), false), s.putWall)
    && AreExpiries(items, s.perExpiry)
    && (if multiClass then AreClasses(items, s.classes) else s.classes == [])
  }

  /** One row per (expiry, class) pair that occurs, by date and then class. */
  ghost predicate AreExpiries(items: seq<Item>, es: seq<ExpiryGex>) {
    && (forall i :: 0 <= i < |es| ==> IsExpiry(items, es[i]))
    && (forall i, j :: 0 <= i < j < |es| ==> PairBefore(es[i].pair, es[j].pair))
    && (forall i :: 0 <= i < |items| ==> PairListed(es, items[i].pair))
  }
  ghost predicate PairListed(es: seq<ExpiryGex>, p: Pair) { exists j :: 0 <= j < |es| && es[j].pair == p }

  ghost predicate AreClasses(items: seq<Item>, cs: seq<ClassGex>) {
    && (forall i :: 0 <= i < |cs| ==> IsClass(items, cs[i]))
    && (forall i, j :: 0 <= i < j < |cs| ==> TextBefore(cs[i].cls, cs[j].cls))
    && (forall i :: 0 <= i < |items| ==> ClassListed(cs, items[i].pair.cls))
  }
  ghost predicate ClassListed(cs: seq<ClassGex>, cls: string) { exists j :: 0 <= j < |cs| && cs[j].cls == cls }

  // ---------------------------------------------------------------- aggregation

  predicate Listable<K(!new)>(gs: Groups<K>) {
    forall k :: k in gs.order ==> k in gs.table && Complete(gs.table[k].curve)
  }

  /** The finished row of a pair and of a class. */
  function ExpiryRow(p: Pair, g: Group): ExpiryGex
    requires Complete(g.curve)
  {
    ExpiryGex(p, g.totals, Finished(g.curve))
  }
  ghost predicate IsClassRow(cls: string, g: Group, c: ClassGex)
    requires Complete(g.curve)
  {
    && c == ClassGex(cls, g.contracts, g.totals, c.callWall, c.putWall, Finished(g.curve))
    && IsCallWall(c.perStrike, g.calls, c.callWall) && IsPutWall(c.perStrike, g.puts, c.putWall)
  }

  method ListExpiries(gs: Groups<Pair>) returns (out: seq<ExpiryGex>)
    requires Listable(gs)
    ensures |out| == |gs.order| && forall i :: 0 <= i < |out| ==> out[i] == ExpiryRow(gs.order[i], gs.table[gs.order[i]])
  {
    out := [];
    for n := 0 to |gs.order|
      invariant |out| == n && forall i :: 0 <= i < n ==> out[i] == ExpiryRow(gs.order[i], gs.table[gs.order[i]])
    {
      var g := gs.table[gs.order[n]];
      var curve := ListCurve(g.curve);
      out := out + [ExpiryGex(gs.order[n], g.totals, curve)];
    }
  }

  method ListClasses(gs: Groups<string>) returns (out: seq<ClassGex>)
    requires Listable(gs)
    ensures |out| == |gs.order| && forall i :: 0 <= i < |out| ==> IsClassRow(gs.order[i], gs.table[gs.order[i]], out[i])
  {
    out := [];
    for n := 0 to |gs.order|
      invariant |out| == n && forall i :: 0 <= i < n ==> IsClassRow(gs.order[i], gs.table[gs.order[i]], out[i])
    {
      var g := gs.table[gs.order[n]];
      var curve := ListCurve(g.curve);
      var call, put := FindWalls(curve, g.calls, g.puts);
      out := out + [ClassGex(gs.order[n], g.contracts, g.totals, call, put, curve)];
    }
  }

  lemma GroupsListable<K(!new)>(items: seq<Item>, key: Item -> K, gs: Groups<K>)
    requires AreGroups(items, key, gs)
    ensures Listable(gs)
  {
    forall k | k in gs.order ensures k in gs.table && Complete(gs.table[k].curve) {
      assert k in gs.table;
      assert IsCurve(items, Keyed(key, k), gs.table[k].curve);
    }
  }

  lemma KeyListed<K(!new)>(items: seq<Item>, key: Item -> K, gs: Groups<K>, i: nat) returns (j: nat)
    requires AreGroups(items, key, gs) && i < |items|
    ensures j < |gs.order| && gs.order[j] == key(items[i])
  {
    assert key(items[i]) in gs.order;
    j :| 0 <= j < |gs.order| && gs.order[j] == key(items[i]);
  }

  lemma ExpiryRowIs(items: seq<Item>, gs: Groups<Pair>, p: Pair)
    requires AreGroups(items, PairKey(), gs) && p in gs.order && Listable(gs)
    ensures IsExpiry(items, ExpiryRow(p, gs.table[p]))
  {
    FinishedCurve(gs.table[p].curve, items, Keyed(PairKey(), p));
  }

  lemma ClassRowIs(items: seq<Item>, gs: Groups<string>, cls: string, c: ClassGex)
    requires AreGroups(items, ClassKey(), gs) && cls in gs.order && Listable(gs)
    requires IsClassRow(cls, gs.table[cls], c)
    ensures IsClass(items, c)
  {
    FinishedCurve(gs.table[cls].curve, items, Keyed(ClassKey(), cls));
  }

  lemma ExpiriesListed(items: seq<Item>, gs: Groups<Pair>, out: seq<ExpiryGex>)
    requires AreGroups(items, PairKey(), gs) && Listable(gs) && SortedBy(gs.order, ByPair())
    requires |out| == |gs.order| && forall i :: 0 <= i < |out| ==> out[i] == ExpiryRow(gs.order[i], gs.table[gs.order[i]])
    ensures AreExpiries(items, out)
  {
    forall i, j | 0 <= i < j < |out| ensures PairBefore(out[i].pair, out[j].pair) {
      assert ByPair()(gs.order[i], gs.order[j]);
    }
    forall i | 0 <= i < |out| ensures IsExpiry(items, out[i]) {
      ExpiryRowIs(items, gs, gs.order[i]);
    }
    forall i | 0 <= i < |items| ensures PairListed(out, items[i].pair) {
      var j := KeyListed(items, PairKey(), gs, i);
      assert out[j].pair == items[i].pair;
    }
  }

  lemma ClassesListed(items: seq<Item>, gs: Groups<string>, out: seq<ClassGex>)
    requires AreGroups(items, ClassKey(), gs) && Listable(gs) && SortedBy(gs.order, ByText())
    requires |out| == |gs.order| && forall i :: 0 <= i < |out| ==> IsClassRow(gs.order[i], gs.table[gs.order[i]], out[i])
    ensures AreClasses(items, out)
  {
    forall i, j | 0 <= i < j < |out| ensures TextBefore(out[i].cls, out[j].cls) {
      assert ByText()(gs.order[i], gs.order[j]);
    }
    forall i | 0 <= i < |out| ensures IsClass(items, out[i]) {
      ClassRowIs(items, gs, gs.order[i], out[i]);
    }
    forall i | 0 <= i < |items| ensures ClassListed(out, items[i].pair.cls) {
      var j := KeyListed(items, ClassKey(), gs, i);
      assert IsClassRow(gs.order[j], gs.table[gs.order[j]], out[j]);
    }
  }

  /** Whether a row makes the whole snapshot fail. */
  ghost predicate RowFails(b: Inputs, vols: Option<seq<real>>, i: nat)
    requires i < |b.rows|
  {
    PriceRow(b, vols, b.spot, i).Failed? || (PriceRow(b, vols, b.spot, i).Ok? && SkewFails(b, i))
  }

  ghost predicate NoneFails(b: Inputs, vols: Option<seq<real>>, n: nat)
    requires n <= |b.rows|
  {
    forall i :: 0 <= i < n ==> !RowFails(b, vols, i)
  }

  lemma FailsFirst(b: Inputs, vols: Option<seq<real>>, n: nat)
    requires n < |b.rows| && NoneFails(b, vols, n)
    ensures NoneFails(b, vols, n + 1) <==> !RowFails(b, vols, n)
    ensures RowFails(b, vols, n) ==> !NoneFails(b, vols, |b.rows|)
  {
  }

  /** The running aggregates of the pass over the chain. */
  datatype Tally = Tally(book: Group, expiries: Groups<Pair>, classes: Groups<string>)
  const EMPTY_TALLY := Tally(EMPTY_GROUP, Groups(map[], []), Groups(map[], []))

  function AddToTally(t: Tally, it: Item, multiClass: bool): Tally {
    Tally(AddItem(t.book, it), AddToGroups(t.expiries, it.pair, it),
          if multiClass then AddToGroups(t.classes, it.pair.cls, it) else t.classes)
  }

  ghost predicate Tallied(items: seq<Item>, multiClass: bool, t: Tally) {
    && IsGroup(items, All(), t.book) && AreGroups(items, PairKey(), t.expiries)
    && (if multiClass then AreGroups(items, ClassKey(), t.classes) else t.classes == Groups(map[], []))
  }

  /** The aggregates after a list of items. */
  function TallyOf(items: seq<Item>, multiClass: bool): Tally {
    if items == [] then EMPTY_TALLY else
    AddToTally(TallyOf(items[..|items| - 1], multiClass), items[|items| - 1], multiClass)
  }

  /** One pass over the chain; it stops at the first row that fails. */
  method Accumulate(b: Inputs, vols: Option<seq<real>>, multiClass: bool) returns (ok: bool, t: Tally, ghost items: seq<Item>)
    ensures ok <==> NoneFails(b, vols, |b.rows|)
    ensures ok ==> ItemsAt(b, vols, b.spot, |b.rows|) == Some(items) && t == TallyOf(items, multiClass)
  {
    ok, t, items := true, EMPTY_TALLY, [];
    for n := 0 to |b.rows|
      invariant ok && NoneFails(b, vols, n)
      invariant ItemsAt(b, vols, b.spot, n) == Some(items)
      invariant t == TallyOf(items, multiClass)
    {
      FailsFirst(b, vols, n);
      ok, t, items := AccumulateRow(b, vols, multiClass, n, t, items);
      if !ok {
        return;
      }
    }
  }

  method AccumulateRow(b: Inputs, vols: Option<seq<real>>, multiClass: bool, n: nat, t: Tally, ghost items: seq<Item>)
    returns (ok: bool, t': Tally, ghost items': seq<Item>)
    requires n < |b.rows| && ItemsAt(b, vols, b.spot, n) == Some(items) && t == TallyOf(items, multiClass)
    ensures ok <==> !RowFails(b, vols, n)
    ensures ok ==> ItemsAt(b, vols, b.spot, n + 1) == Some(items') && t' == TallyOf(items', multiClass)
  {
    var p := PriceRow(b, vols, b.spot, n);
    ok, t', items' := !p.Failed? && !(p.Ok? && SkewFails(b, n)), t, items;
    if ok && p.Ok? {
      TallyAppend(items, p.item, multiClass);
      t', items' := AddToTally(t, p.item, multiClass), items + [p.item];
    }
  }

  lemma TallyAppend(items: seq<Item>, it: Item, multiClass: bool)
    ensures TallyOf(items + [it], multiClass) == AddToTally(TallyOf(items, multiClass), it, multiClass)
  {
    assert (items + [it])[..|items|] == items;
  }

  /** The aggregates are exact for every list of items. */
  lemma {:induction false} TallyExact(items: seq<Item>, multiClass: bool)
    ensures Tallied(items, multiClass, TallyOf(items, multiClass))
  {
    if items == [] {
      NothingTallied(multiClass);
    } else {
      TallyExact(items[..|items| - 1], multiClass);
      TallyStep(items, multiClass, TallyOf(items[..|items| - 1], multiClass));
    }
  }

  lemma NothingTallied(multiClass: bool)
    ensures Tallied([], multiClass, EMPTY_TALLY)
  {
  }

  lemma TallyStep(items: seq<Item>, multiClass: bool, t: Tally)
    requires items != [] && Tallied(items[..|items| - 1], multiClass, t)
    ensures Tallied(items, multiClass, AddToTally(t, items[|items| - 1], multiClass))
  {
    GroupLast(items, All(), t.book);
    GroupsLast(items, PairKey(), t.expiries);
    if multiClass {
      GroupsLast(items, ClassKey(), t.classes);
    }
  }

  ghost predicate SeveralClasses(rows: seq<Contract>) {
    exists i, j :: 0 <= i < |rows| && 0 <= j < |rows| && rows[i].cls != rows[j].cls
  }

  method MultiClass(rows: seq<Contract>) returns (multi: bool)
    ensures multi <==> SeveralClasses(rows)
  {
    multi := false;
    for n := 0 to |rows|
      invariant !multi && forall i, j :: 0 <= i < n && 0 <= j < n ==> rows[i].cls == rows[j].cls
    {
      if rows[n].cls != rows[0].cls {
        return true;
      }
    }
  }

  /** The aggregates of a chain: an error if a row fails or nothing is left to price. */
  method Aggregate(b: Inputs, vols: Option<seq<real>>, multi: bool) returns (r: Option<Snapshot>, ghost items: seq<Item>)
    ensures r.Some? <==> NoneFails(b, vols, |b.rows|) &&
                         ItemsAt(b, vols, b.spot, |b.rows|) != Some([])
    ensures r.Some? ==> ItemsAt(b, vols, b.spot, |b.rows|) == Some(items) && IsSnapshot(items, multi, r.value)
  {
    var ok, t;
    ok, t, items := Accumulate(b, vols, multi);
    if !ok {
      return None, items;
    }
    TallyExact(items, multi);
    StrikesEmpty(items, t.book.curve);
    if t.book.curve.strikes == [] {
      return None, items;
    }
    var s := Finish(t, multi, items);
    return Some(s), items;
  }

  /** The groups with their keys sorted. */
  method SortGroups<K(!new)>(gs: Groups<K>, less: (K, K) -> bool, ghost items: seq<Item>, ghost key: Item -> K) returns (r: Groups<K>)
    requires StrictOrder(less) && AreGroups(items, key, gs)
    ensures AreGroups(items, key, r) && SortedBy(r.order, less)
  {
    var order := SortKeys(gs.order, less);
    r := Groups(gs.table, order);
    SortSorts(gs.order, less);
    SortedDistinct(order, less);
  }

  lemma SortedDistinct<K(!new)>(s: seq<K>, less: (K, K) -> bool)
    requires StrictOrder(less) && SortedBy(s, less)
    ensures Distinct(s)
  {
  }

  method Finish(t: Tally, multi: bool, ghost items: seq<Item>) returns (s: Snapshot)
    requires Tallied(items, multi, t)
    ensures IsSnapshot(items, multi, s)
  {
    PairOrder();
    TextOrder();
    var expiries := SortGroups(t.expiries, ByPair(), items, PairKey());
    var classes := t.classes;
    if multi {
      classes := SortGroups(t.classes, ByText(), items, ClassKey());
    }
    s := List(Tally(t.book, expiries, classes), multi, items);
  }

  method List(t: Tally, multi: bool, ghost items: seq<Item>) returns (s: Snapshot)
    requires Tallied(items, multi, t) && SortedBy(t.expiries.order, ByPair()) && (multi ==> SortedBy(t.classes.order, ByText()))
    ensures IsSnapshot(items, multi, s)
  {
    ReadyToList(items, multi, t);
    var curve := ListCurve(t.book.curve);
    var perExpiry := ListExpiries(t.expiries);
    var perClass := [];
    if multi {
      perClass := ListClasses(t.classes);
    }
    var call, put := FindWalls(curve, t.book.calls, t.book.puts);
    s := Snapshot(t.book.totals, curve, perExpiry, perClass, call, put);
    Assembled(items, multi, t, s);
  }

  lemma ReadyToList(items: seq<Item>, multi: bool, t: Tally)
    requires Tallied(items, multi, t)
    ensures Complete(t.book.curve) && Listable(t.expiries) && (multi ==> Listable(t.classes))
  {
    GroupsListable(items, PairKey(), t.expiries);
    if multi {
      GroupsListable(items, ClassKey(), t.classes);
    }
  }

  lemma Assembled(items: seq<Item>, multi: bool, t: Tally, s: Snapshot)
    requires Tallied(items, multi, t) && SortedBy(t.expiries.order, ByPair()) && (multi ==> SortedBy(t.classes.order, ByText()))
    requires Complete(t.book.curve) && Listable(t.expiries) && (multi ==> Listable(t.classes))
    requires s.totals == t.book.totals && s.perStrike == Finished(t.book.curve)
    requires |s.perExpiry| == |t.expiries.order| &&
             forall i :: 0 <= i < |s.perExpiry| ==> s.perExpiry[i] == ExpiryRow(t.expiries.order[i], t.expiries.table[t.expiries.order[i]])
    requires if multi then |s.classes| == |t.classes.order| &&
               forall i :: 0 <= i < |s.classes| ==> IsClassRow(t.classes.order[i], t.classes.table[t.classes.order[i]], s.classes[i])
             else s.classes == []
    requires IsCallWall(s.perStrike, t.book.calls, s.callWall) && IsPutWall(s.perStrike, t.book.puts, s.putWall)
    ensures IsSnapshot(items, multi, s)
  {
    FinishedCurve(t.book.curve, items, All());
    ExpiriesListed(items, t.expiries, s.perExpiry);
    if multi {
      ClassesListed(items, t.classes, s.classes);
    }
  }

  /** No strike was recorded exactly when no row was priced. */
  lemma StrikesEmpty(items: seq<Item>, c: Curve)
    requires IsCurve(items, All(), c)
    ensures c.strikes == [] <==> items == []
  {
    if items != [] {
      assert All()(items[0]);
      assert HasStrike(items, All(), items[0].strike);
      assert items[0].strike in c.strikes;
    }
    if c.strikes != [] {
      assert c.strikes[0] in c.strikes;
      assert HasStrike(items, All(), c.strikes[0]);
    }
  }

  /** The tables are in order: expiries by day, and within a day by class; classes by name. */
  lemma TablesInOrder(items: seq<Item>, multi: bool, s: Snapshot, i: nat, j: nat)
    requires IsSnapshot(items, multi, s) && i < j
    ensures j < |s.perExpiry| && s.perExpiry[i].pair.expiry.Ymd? && s.perExpiry[j].pair.expiry.Ymd? ==>
              var p, q := s.perExpiry[i].pair, s.perExpiry[j].pair;
              p.expiry.day < q.expiry.day || (p.expiry.day == q.expiry.day && Lexical(p.cls, q.cls))
    ensures j < |s.classes| ==> Lexical(s.classes[i].cls, s.classes[j].cls)
  {
    if j < |s.perExpiry| {
      assert PairBefore(s.perExpiry[i].pair, s.perExpiry[j].pair);
      TextBeforeIs(s.perExpiry[i].pair.cls, s.perExpiry[j].pair.cls);
    }
    if j < |s.classes| {
      TextBeforeIs(s.classes[i].cls, s.classes[j].cls);
    }
  }

  // ---------------------------------------------------------------- there is only one

  function StrikesIn(curve: seq<StrikeExposure>): seq<real> { seq(|curve|, i requires 0 <= i < |curve| => curve[i].strike) }

  lemma StrikesSorted(items: seq<Item>, test: Item -> bool, curve: seq<StrikeExposure>)
    requires CurveList(items, test, curve)
    ensures SortedBy(StrikesIn(curve), ByReal()) && forall k :: k in StrikesIn(curve) <==> HasStrike(items, test, k)
  {
    var ks := StrikesIn(curve);
    forall k | k in ks ensures HasStrike(items, test, k) {
      var i :| 0 <= i < |ks| && ks[i] == k;
    }
    forall k | HasStrike(items, test, k) ensures k in ks {
      var i :| 0 <= i < |items| && test(items[i]) && items[i].strike == k;
      assert Listed(curve, k);
      var j :| 0 <= j < |curve| && curve[j].strike == k;
      assert ks[j] == k;
    }
  }

  lemma CurveUnique(items: seq<Item>, test: Item -> bool, a: seq<StrikeExposure>, b: seq<StrikeExposure>)
    requires CurveList(items, test, a) && CurveList(items, test, b)
    ensures a == b
  {
    NumberOrder();
    StrikesSorted(items, test, a);
    StrikesSorted(items, test, b);
    SortedUnique(StrikesIn(a), StrikesIn(b), ByReal());
    forall i | 0 <= i < |a| ensures |a| == |b| && a[i] == b[i] {
      assert StrikesIn(a)[i] == StrikesIn(b)[i];
    }
    assert |a| == |StrikesIn(a)| && |b| == |StrikesIn(b)|;
  }

  lemma WallsUnique(curve: seq<StrikeExposure>, has: bool, v: Wall, w: Wall)
    ensures IsCallWall(curve, has, v) && IsCallWall(curve, has, w) ==> v == w
    ensures IsPutWall(curve, has, v) && IsPutWall(curve, has, w) ==> v == w
  {
  }

  lemma ExpiryUnique(items: seq<Item>, d: ExpiryGex, e: ExpiryGex)
    requires IsExpiry(items, d) && IsExpiry(items, e) && d.pair == e.pair
    ensures d == e
  {
    CurveUnique(items, Keyed(PairKey(), d.pair), d.perStrike, e.perStrike);
  }

  lemma ClassUnique(items: seq<Item>, c: ClassGex, d: ClassGex)
    requires IsClass(items, c) && IsClass(items, d) && c.cls == d.cls
    ensures c == d
  {
    var test := Keyed(ClassKey(), c.cls);
    CurveUnique(items, test, c.perStrike, d.perStrike);
    WallsUnique(c.perStrike, Some1(items, test, true), c.callWall, d.callWall);
    WallsUnique(c.perStrike, Some1(items, test, false), c.putWall, d.putWall);
  }

  function PairsIn(es: seq<ExpiryGex>): seq<Pair> { seq(|es|, i requires 0 <= i < |es| => es[i].pair) }
  function ClassesIn(cs: seq<ClassGex>): seq<string> { seq(|cs|, i requires 0 <= i < |cs| => cs[i].cls) }

  lemma PairsSorted(items: seq<Item>, es: seq<ExpiryGex>)
    requires AreExpiries(items, es)
    ensures SortedBy(PairsIn(es), ByPair()) && forall p :: p in PairsIn(es) <==> HasKey(items, PairKey(), p)
  {
    forall i | 0 <= i < |es| ensures HasKey(items, PairKey(), es[i].pair) {
      assert IsExpiry(items, es[i]);
    }
    forall p ensures p in PairsIn(es) <==> HasKey(items, PairKey(), p) {
      PairMember(items, es, p);
    }
  }

  lemma PairMember(items: seq<Item>, es: seq<ExpiryGex>, p: Pair)
    requires forall i :: 0 <= i < |es| ==> HasKey(items, PairKey(), es[i].pair)
    requires forall i :: 0 <= i < |items| ==> PairListed(es, items[i].pair)
    ensures p in PairsIn(es) <==> HasKey(items, PairKey(), p)
  {
    var ks := PairsIn(es);
    if p in ks {
      var i :| 0 <= i < |ks| && ks[i] == p;
      assert es[i].pair == p;
    }
    if HasKey(items, PairKey(), p) {
      var i :| 0 <= i < |items| && PairKey()(items[i]) == p;
      assert PairListed(es, items[i].pair);
      var j :| 0 <= j < |es| && es[j].pair == p;
      assert ks[j] == p;
    }
  }

  lemma ClassesSorted(items: seq<Item>, cs: seq<ClassGex>)
    requires AreClasses(items, cs)
    ensures SortedBy(ClassesIn(cs), ByText()) && forall c :: c in ClassesIn(cs) <==> HasKey(items, ClassKey(), c)
  {
    forall i | 0 <= i < |cs| ensures HasKey(items, ClassKey(), cs[i].cls) {
      assert IsClass(items, cs[i]);
    }
    forall c ensures c in ClassesIn(cs) <==> HasKey(items, ClassKey(), c) {
      ClassMember(items, cs, c);
    }
  }

  lemma ClassMember(items: seq<Item>, cs: seq<ClassGex>, c: string)
    requires forall i :: 0 <= i < |cs| ==> HasKey(items, ClassKey(), cs[i].cls)
    requires forall i :: 0 <= i < |items| ==> ClassListed(cs, items[i].pair.cls)
    ensures c in ClassesIn(cs) <==> HasKey(items, ClassKey(), c)
  {
    var ks := ClassesIn(cs);
    if c in ks {
      var i :| 0 <= i < |ks| && ks[i] == c;
      assert cs[i].cls == c;
    }
    if HasKey(items, ClassKey(), c) {
      var i :| 0 <= i < |items| && ClassKey()(items[i]) == c;
      assert ClassListed(cs, items[i].pair.cls);
      var j :| 0 <= j < |cs| && cs[j].cls == c;
      assert ks[j] == c;
    }
  }

  lemma ExpiriesUnique(items: seq<Item>, a: seq<ExpiryGex>, b: seq<ExpiryGex>)
    requires AreExpiries(items, a) && AreExpiries(items, b)
    ensures a == b
  {
    PairOrder();
    PairsSorted(items, a);
    PairsSorted(items, b);
    SortedUnique(PairsIn(a), PairsIn(b), ByPair());
    assert |a| == |PairsIn(a)| && |b| == |PairsIn(b)|;
    forall i | 0 <= i < |a| ensures a[i] == b[i] {
      assert PairsIn(a)[i] == PairsIn(b)[i];
      ExpiryUnique(items, a[i], b[i]);
    }
  }

  lemma ClassesUnique(items: seq<Item>, a: seq<ClassGex>, b: seq<ClassGex>)
    requires AreClasses(items, a) && AreClasses(items, b)
    ensures a == b
  {
    TextOrder();
    ClassesSorted(items, a);
    ClassesSorted(items, b);
    SortedUnique(ClassesIn(a), ClassesIn(b), ByText());
    assert |a| == |ClassesIn(a)| && |b| == |ClassesIn(b)|;
    forall i | 0 <= i < |a| ensures a[i] == b[i] {
      assert ClassesIn(a)[i] == ClassesIn(b)[i];
      ClassUnique(items, a[i], b[i]);
    }
  }

  /** The items of a chain have one snapshot. */
  lemma SnapshotUnique(items: seq<Item>, multi: bool, a: Snapshot, b: Snapshot)
    requires IsSnapshot(items, multi, a) && IsSnapshot(items, multi, b)
    ensures a == b
  {
    CurveUnique(items, All(), a.perStrike, b.perStrike);
    WallsUnique(a.perStrike, Some1(items, All(), true), a.callWall, b.callWall);
    WallsUnique(a.perStrike, Some1(items, All(), false), a.putWall, b.putWall);
    ExpiriesUnique(items, a.perExpiry, b.perExpiry);
    if multi {
      ClassesUnique(items, a.classes, b.classes);
    }
  }
}
