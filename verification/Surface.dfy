/** The per-contract volatility surface (blendedVols in core/internal/exposure/aggregate.go):
    each expiry of each class takes its level from its own at-the-money quote. */
module Surface {
  import opened Common
  import opened Market
  import opened Ordering
  import opened Exposure
  import opened Snapshots
  import opened VolBlend

  datatype StrikeQuote = StrikeQuote(sumIv: real, n: nat, bid: real, ask: real, ok: bool)
  const FRESH_QUOTE := StrikeQuote(0.0, 0, 0.0, 0.0, false)

  datatype AtmRef = AtmRef(iv: real, quote: Quote)
  const NO_REF := AtmRef(0.0, Quote(0.0, 0.0, false))

  /** Rows share a reference per expiry, and per class on a multi-class chain. */
  function KeyOf(c: Contract, multi: bool): Pair { Pair(if multi then c.cls else "", c.expiry) }

  predicate Quoted(c: Contract) { c.iv > 0.0 && c.expiry.Ymd? }
  predicate AnySide(c: Contract) { c.bid > 0.0 || c.ask > 0.0 }
  predicate Belongs(c: Contract, multi: bool, key: Pair, k: real) { Quoted(c) && KeyOf(c, multi) == key && c.strike == k }

  function Noted(q: StrikeQuote, c: Contract): StrikeQuote {
    var q' := q.(sumIv := q.sumIv + c.iv, n := q.n + 1);
    if !q.ok then q'.(bid := c.bid, ask := c.ask, ok := AnySide(c))
    else if c.right == CALL && AnySide(c) then q'.(bid := c.bid, ask := c.ask)
    else q'
  }

  /** What one more row does to a strike's quote. */
  function Extended(prev: Option<StrikeQuote>, c: Contract, multi: bool, key: Pair, k: real): Option<StrikeQuote> {
    if !Belongs(c, multi, key, k) then prev else Some(Noted(if prev.Some? then prev.value else FRESH_QUOTE, c))
  }

  /** What the rows say about one strike of one group; None if nothing is quoted there. */
  function QuoteAt(rows: seq<Contract>, multi: bool, key: Pair, k: real): (r: Option<StrikeQuote>)
    ensures r.Some? ==> r.value.n > 0
  {
    if rows == [] then None else
    Extended(QuoteAt(rows[..|rows| - 1], multi, key, k), rows[|rows| - 1], multi, key, k)
  }

  // ---------------------------------------------------------------- pass 1: quoted strikes

  type Table = map<Pair, map<real, StrikeQuote>>

  function Look(t: Table, key: Pair, k: real): Option<StrikeQuote> {
    if key in t && k in t[key] then Some(t[key][k]) else None
  }

  function Note(t: Table, multi: bool, c: Contract): Table {
    var key := KeyOf(c, multi);
    var m := if key in t then t[key] else map[];
    t[key := m[c.strike := Noted(if c.strike in m then m[c.strike] else FRESH_QUOTE, c)]]
  }

  lemma NoteLooks(t: Table, multi: bool, c: Contract, key: Pair, k: real)
    ensures Look(Note(t, multi, c), key, k) ==
            if KeyOf(c, multi) == key && c.strike == k then
              Some(Noted(if Look(t, key, k).Some? then Look(t, key, k).value else FRESH_QUOTE, c))
            else Look(t, key, k)
  {
  }

  ghost predicate Tabled(rows: seq<Contract>, multi: bool, t: Table) {
    && (forall key, k :: Look(t, key, k) == QuoteAt(rows, multi, key, k))
    && (forall key :: key in t ==> t[key].Keys != {})
  }

  method Collect(rows: seq<Contract>, multi: bool) returns (t: Table)
    ensures Tabled(rows, multi, t)
  {
    t := map[];
    for n := 0 to |rows|
      invariant Tabled(rows[..n], multi, t)
    {
      CollectStep(rows[..n], multi, t, rows[n]);
      assert rows[..n + 1] == rows[..n] + [rows[n]];
      if Quoted(rows[n]) {
        t := Note(t, multi, rows[n]);
      }
    }
    assert rows[..|rows|] == rows;
  }

  lemma CollectStep(rows: seq<Contract>, multi: bool, t: Table, c: Contract)
    requires Tabled(rows, multi, t)
    ensures Tabled(rows + [c], multi, if Quoted(c) then Note(t, multi, c) else t)
  {
    assert (rows + [c])[..|rows|] == rows;
    forall key, k ensures Look(if Quoted(c) then Note(t, multi, c) else t, key, k) == QuoteAt(rows + [c], multi, key, k) {
      NoteLooks(t, multi, c, key, k);
      assert Look(t, key, k) == QuoteAt(rows, multi, key, k);
    }
  }

  // ---------------------------------------------------------------- pass 2: the reference of a group

  ghost predicate AscendingReals(s: seq<real>) { forall i, j :: 0 <= i < j < |s| ==> s[i] < s[j] }

  method Pick<T(==)>(s: set<T>) returns (x: T)
    requires s != {}
    ensures x in s
  {
    x :| x in s;
  }

  /** The strikes of a group, in the order a map happens to yield them and then sorted. */
  method SortedStrikes(m: map<real, StrikeQuote>) returns (keys: seq<real>)
    ensures AscendingReals(keys) && forall k :: k in keys <==> k in m
  {
    var found: seq<real> := [];
    var rest := m.Keys;
    while rest != {}
      invariant rest <= m.Keys && forall i, j :: 0 <= i < j < |found| ==> found[i] != found[j]
      invariant forall k :: k in found <==> k in m && k !in rest
      decreases |rest|
    {
      var k := Pick(rest);
      found := found + [k];
      rest := rest - {k};
    }
    NumberOrder();
    SortSorts(found, ByReal());
    keys := SortKeys(found, ByReal());
    forall i, j | 0 <= i < j < |keys| ensures keys[i] < keys[j] {
      assert ByReal()(keys[i], keys[j]);
    }
  }

  /** k comes before x: it is nearer to spot, or as near and lower. */
  ghost predicate Nearer(k: real, x: real, spot: real) {
    Abs(k - spot) < Abs(x - spot) || (Abs(k - spot) == Abs(x - spot) && k <= x)
  }

  /** k is the strike nearest to spot. */
  ghost predicate IsAtm(m: map<real, StrikeQuote>, spot: real, k: real) {
    k in m && forall x :: x in m ==> Nearer(k, x, spot)
  }

  ghost predicate AtmOfFirst(keys: seq<real>, n: nat, spot: real, best: nat)
    requires n <= |keys|
  {
    && best < n
    && (forall j :: 0 <= j < n ==> Abs(keys[best] - spot) <= Abs(keys[j] - spot))
    && (forall j :: 0 <= j < best ==> Abs(keys[best] - spot) < Abs(keys[j] - spot))
  }

  method AtmStrike(m: map<real, StrikeQuote>, spot: real) returns (k: real)
    requires m.Keys != {}
    ensures IsAtm(m, spot, k)
  {
    var keys := SortedStrikes(m);
    ghost var some := Any(m.Keys);
    assert some in m;
    assert some in keys;
    var best: nat := 0;
    for n := 1 to |keys|
      invariant AtmOfFirst(keys, n, spot, best)
    {
      if Abs(keys[n] - spot) < Abs(keys[best] - spot) {
        best := n;
      }
    }
    k := keys[best];
    FirstIsAtm(m, keys, spot, best);
  }

  lemma FirstIsAtm(m: map<real, StrikeQuote>, keys: seq<real>, spot: real, best: nat)
    requires AscendingReals(keys) && (forall k :: k in keys <==> k in m) && AtmOfFirst(keys, |keys|, spot, best)
    ensures IsAtm(m, spot, keys[best])
  {
    forall x | x in m ensures Nearer(keys[best], x, spot) {
      assert x in keys;
      var j :| 0 <= j < |keys| && keys[j] == x;
    }
    assert keys[best] in keys;
  }

  function RefOf(q: StrikeQuote): AtmRef
    requires q.n > 0
  {
    AtmRef(q.sumIv / q.n as real, Quote(q.bid, q.ask, q.ok))
  }

  ghost predicate RefIn(m: map<real, StrikeQuote>, spot: real, ref: AtmRef) {
    exists k :: IsAtm(m, spot, k) && m[k].n > 0 && ref == RefOf(m[k])
  }

  predicate Counted(m: map<real, StrikeQuote>) { m.Keys != {} && forall k :: k in m ==> m[k].n > 0 }

  method AtmRefs(t: Table, spot: real) returns (atm: map<Pair, AtmRef>)
    requires forall key :: key in t ==> Counted(t[key])
    ensures atm.Keys == t.Keys && forall key :: key in t ==> RefIn(t[key], spot, atm[key])
  {
    atm := map[];
    var rest := t.Keys;
    while rest != {}
      invariant rest <= t.Keys && atm.Keys == t.Keys - rest
      invariant forall key :: key in atm ==> RefIn(t[key], spot, atm[key])
      decreases |rest|
    {
      var key := Pick(rest);
      var k := AtmStrike(t[key], spot);
      assert RefIn(t[key], spot, RefOf(t[key][k]));
      atm, rest := atm[key := RefOf(t[key][k])], rest - {key};
    }
  }

  // ---------------------------------------------------------------- pass 3: the surface

  /** k is the quoted strike of the group nearest to spot. */
  ghost predicate IsAtmOf(rows: seq<Contract>, multi: bool, key: Pair, spot: real, k: real) {
    QuoteAt(rows, multi, key, k).Some? && forall x :: QuoteAt(rows, multi, key, x).Some? ==> Nearer(k, x, spot)
  }

  ghost predicate Unquoted(rows: seq<Contract>, multi: bool, key: Pair) {
    forall k :: QuoteAt(rows, multi, key, k).None?
  }

  /** The reference of a group, said of the rows alone. */
  ghost predicate IsRef(rows: seq<Contract>, multi: bool, key: Pair, spot: real, ref: AtmRef) {
    if Unquoted(rows, multi, key) then ref == NO_REF else
    exists k :: IsAtmOf(rows, multi, key, spot, k) && ref == RefOf(QuoteAt(rows, multi, key, k).value)
  }

  lemma TabledCounted(rows: seq<Contract>, multi: bool, t: Table, key: Pair)
    requires Tabled(rows, multi, t) && key in t
    ensures Counted(t[key])
  {
    forall k | k in t[key] ensures t[key][k].n > 0 {
      assert Look(t, key, k) == QuoteAt(rows, multi, key, k);
    }
  }

  lemma RefFound(rows: seq<Contract>, multi: bool, t: Table, key: Pair, spot: real, ref: AtmRef)
    requires Tabled(rows, multi, t) && key in t && RefIn(t[key], spot, ref)
    ensures IsRef(rows, multi, key, spot, ref)
  {
    var k :| IsAtm(t[key], spot, k) && t[key][k].n > 0 && ref == RefOf(t[key][k]);
    assert Look(t, key, k) == QuoteAt(rows, multi, key, k);
    forall x | QuoteAt(rows, multi, key, x).Some? ensures Nearer(k, x, spot) {
      assert Look(t, key, x) == QuoteAt(rows, multi, key, x);
    }
    assert IsAtmOf(rows, multi, key, spot, k);
  }

  lemma RefMissing(rows: seq<Contract>, multi: bool, t: Table, key: Pair, spot: real)
    requires Tabled(rows, multi, t) && key !in t
    ensures IsRef(rows, multi, key, spot, NO_REF)
  {
    forall k ensures QuoteAt(rows, multi, key, k).None? {
      assert Look(t, key, k) == QuoteAt(rows, multi, key, k);
    }
  }

  predicate Priceable(b: Inputs, i: nat)
    requires i < |b.rows|
  {
    b.rows[i].expiry.Ymd? && b.rows[i].expiry.day - b.today >= 1
  }

  function RowVol(m: Maths, b: Inputs, i: nat, ref: AtmRef): real
    requires i < |b.rows|
  {
    if !Priceable(b, i) then b.sigma(1) else
    var c := b.rows[i];
    var dte := c.expiry.day - b.today;
    BlendSkewCarrier(m, c.iv, ref.iv, b.sigma(dte), dte as real / 365.0, QuoteOf(c.bid, c.ask), ref.quote)
  }

  ghost predicate IsVol(m: Maths, b: Inputs, multi: bool, i: nat, v: real)
    requires i < |b.rows|
  {
    exists ref :: IsRef(b.rows, multi, KeyOf(b.rows[i], multi), b.spot, ref) && v == RowVol(m, b, i, ref)
  }

  ghost predicate IsSurface(m: Maths, b: Inputs, multi: bool, vols: seq<real>) {
    |vols| == |b.rows| && forall i :: 0 <= i < |vols| ==> IsVol(m, b, multi, i, vols[i])
  }

  method BlendedVols(m: Maths, b: Inputs, multi: bool) returns (vols: seq<real>)
    ensures IsSurface(m, b, multi, vols)
  {
    var t := Collect(b.rows, multi);
    forall key | key in t ensures Counted(t[key]) {
      TabledCounted(b.rows, multi, t, key);
    }
    var atm := AtmRefs(t, b.spot);
    vols := RowVols(m, b, multi, atm);
    forall i | 0 <= i < |vols| ensures IsVol(m, b, multi, i, vols[i]) {
      RefKnown(b.rows, multi, t, atm, KeyOf(b.rows[i], multi), b.spot);
    }
  }

  function RefFrom(atm: map<Pair, AtmRef>, key: Pair): AtmRef { if key in atm then atm[key] else NO_REF }

  method RowVols(m: Maths, b: Inputs, multi: bool, atm: map<Pair, AtmRef>) returns (vols: seq<real>)
    ensures |vols| == |b.rows|
    ensures forall i :: 0 <= i < |vols| ==> vols[i] == RowVol(m, b, i, RefFrom(atm, KeyOf(b.rows[i], multi)))
  {
    vols := [];
    for n := 0 to |b.rows|
      invariant |vols| == n
      invariant forall i :: 0 <= i < n ==> vols[i] == RowVol(m, b, i, RefFrom(atm, KeyOf(b.rows[i], multi)))
    {
      vols := vols + [RowVol(m, b, n, RefFrom(atm, KeyOf(b.rows[n], multi)))];
    }
  }

  lemma RefKnown(rows: seq<Contract>, multi: bool, t: Table, atm: map<Pair, AtmRef>, key: Pair, spot: real)
    requires Tabled(rows, multi, t) && atm.Keys == t.Keys && forall x :: x in t ==> RefIn(t[x], spot, atm[x])
    ensures IsRef(rows, multi, key, spot, RefFrom(atm, key))
  {
    if key in t {
      RefFound(rows, multi, t, key, spot, atm[key]);
    } else {
      RefMissing(rows, multi, t, key, spot);
    }
  }

  // ---------------------------------------------------------------- what the surface is

  /** The surface is a function of the chain: no order of iteration shows in it. */
  lemma SurfaceDetermined(m: Maths, b: Inputs, multi: bool, vols: seq<real>, vols': seq<real>)
    requires IsSurface(m, b, multi, vols) && IsSurface(m, b, multi, vols')
    ensures vols == vols'
  {
    forall i | 0 <= i < |vols| ensures vols[i] == vols'[i] {
      assert IsVol(m, b, multi, i, vols[i]) && IsVol(m, b, multi, i, vols'[i]);
      var key := KeyOf(b.rows[i], multi);
      var r :| IsRef(b.rows, multi, key, b.spot, r) && vols[i] == RowVol(m, b, i, r);
      var r' :| IsRef(b.rows, multi, key, b.spot, r') && vols'[i] == RowVol(m, b, i, r');
      RefUnique(b.rows, multi, key, b.spot, r, r');
    }
  }

  lemma RefUnique(rows: seq<Contract>, multi: bool, key: Pair, spot: real, r: AtmRef, r': AtmRef)
    requires IsRef(rows, multi, key, spot, r) && IsRef(rows, multi, key, spot, r')
    ensures r == r'
  {
    if !Unquoted(rows, multi, key) {
      var k :| IsAtmOf(rows, multi, key, spot, k) && r == RefOf(QuoteAt(rows, multi, key, k).value);
      var k' :| IsAtmOf(rows, multi, key, spot, k') && r' == RefOf(QuoteAt(rows, multi, key, k').value);
      assert Nearer(k, k', spot) && Nearer(k', k, spot);
    }
  }

  /** The rows of c's expiry, and on a multi-class chain of its class. */
  function GroupOf(c: Contract, multi: bool): Contract -> bool { (d: Contract) => d.expiry == c.expiry && (multi ==> d.cls == c.cls) }

  lemma KeyIsGroup(c: Contract, d: Contract, multi: bool)
    ensures KeyOf(d, multi) == KeyOf(c, multi) <==> GroupOf(c, multi)(d)
  {
  }

  /** The quotes of a row's group are those of the rows of its own expiry and class alone. */
  lemma {:induction false} GroupsNeverMix(rows: seq<Contract>, multi: bool, c: Contract, k: real)
    ensures QuoteAt(rows, multi, KeyOf(c, multi), k) == QuoteAt(Filter(rows, GroupOf(c, multi)), multi, KeyOf(c, multi), k)
  {
    if rows != [] {
      var front, d := rows[..|rows| - 1], rows[|rows| - 1];
      GroupsNeverMix(front, multi, c, k);
      var own := Filter(front, GroupOf(c, multi));
      QuoteAppend(front, d, multi, KeyOf(c, multi), k);
      KeyIsGroup(c, d, multi);
      assert rows == front + [d];
      if GroupOf(c, multi)(d) {
        QuoteAppend(own, d, multi, KeyOf(c, multi), k);
        assert Filter(rows, GroupOf(c, multi)) == own + [d];
      } else {
        assert Filter(rows, GroupOf(c, multi)) == own;
      }
    }
  }

  lemma QuoteAppend(rows: seq<Contract>, c: Contract, multi: bool, key: Pair, k: real)
    ensures QuoteAt(rows + [c], multi, key, k) == Extended(QuoteAt(rows, multi, key, k), c, multi, key, k)
  {
    assert (rows + [c])[..|rows|] == rows;
  }

  ghost predicate Represents(rows: seq<Contract>, multi: bool, key: Pair, k: real, q: StrikeQuote, i: nat) {
    i < |rows| && Belongs(rows[i], multi, key, k) && AnySide(rows[i]) && q.bid == rows[i].bid && q.ask == rows[i].ask
  }
  ghost predicate HasQuote(rows: seq<Contract>, multi: bool, key: Pair, k: real, callsOnly: bool) {
    exists i :: 0 <= i < |rows| && Belongs(rows[i], multi, key, k) && (rows[i].bid > 0.0 || rows[i].ask > 0.0) && (callsOnly ==> rows[i].right == CALL)
  }

  lemma HasQuoteAppend(rows: seq<Contract>, c: Contract, multi: bool, key: Pair, k: real, callsOnly: bool)
    ensures HasQuote(rows + [c], multi, key, k, callsOnly) <==>
            HasQuote(rows, multi, key, k, callsOnly) || (Belongs(c, multi, key, k) && (c.bid > 0.0 || c.ask > 0.0) && (callsOnly ==> c.right == CALL))
  {
    var all := rows + [c];
    if HasQuote(rows, multi, key, k, callsOnly) {
      var i :| 0 <= i < |rows| && Belongs(rows[i], multi, key, k) && (rows[i].bid > 0.0 || rows[i].ask > 0.0) && (callsOnly ==> rows[i].right == CALL);
      assert all[i] == rows[i];
    }
    if Belongs(c, multi, key, k) && (c.bid > 0.0 || c.ask > 0.0) && (callsOnly ==> c.right == CALL) {
      assert all[|rows|] == c;
    }
  }

  /** Row i is the last call with a quote, or the first row with one if no call has. */
  ghost predicate Leads(rows: seq<Contract>, multi: bool, key: Pair, k: real, i: nat)
    requires i < |rows|
  {
    if HasQuote(rows, multi, key, k, true)
    then rows[i].right == CALL && forall j :: i < j < |rows| ==> !(Belongs(rows[j], multi, key, k) && AnySide(rows[j]) && rows[j].right == CALL)
    else forall j :: 0 <= j < i ==> !(Belongs(rows[j], multi, key, k) && AnySide(rows[j]))
  }

  /** A strike has a quote exactly when one of its rows has: that of its last call with one, else that
      of its first row with one. */
  lemma {:induction false} CallRepresents(rows: seq<Contract>, multi: bool, key: Pair, k: real)
    ensures var q := QuoteAt(rows, multi, key, k);
            && (q.Some? && q.value.ok <==> HasQuote(rows, multi, key, k, false))
            && (q.Some? && q.value.ok ==> exists i: nat :: Represents(rows, multi, key, k, q.value, i) && Leads(rows, multi, key, k, i))
  {
    if rows != [] {
      var n := |rows| - 1;
      var front, c := rows[..n], rows[n];
      assert rows == front + [c];
      CallRepresents(front, multi, key, k);
      HasQuoteAppend(front, c, multi, key, k, false);
      HasQuoteAppend(front, c, multi, key, k, true);
      var p, q := QuoteAt(front, multi, key, k), QuoteAt(rows, multi, key, k);
      if q.Some? && q.value.ok {
        if Belongs(c, multi, key, k) && AnySide(c) && (c.right == CALL || p.None? || !p.value.ok) {
          NoneBefore(rows, multi, key, k);
          assert Represents(rows, multi, key, k, q.value, n) && Leads(rows, multi, key, k, n);
        } else {
          var i: nat :| Represents(front, multi, key, k, p.value, i) && Leads(front, multi, key, k, i);
          LeadsOn(front, c, multi, key, k, i);
          assert Represents(rows, multi, key, k, q.value, i);
        }
      }
    }
  }

  lemma NoneBefore(rows: seq<Contract>, multi: bool, key: Pair, k: real)
    requires rows != []
    requires var c := rows[|rows| - 1]; Belongs(c, multi, key, k) && AnySide(c) && (c.right == CALL || !HasQuote(rows[..|rows| - 1], multi, key, k, false))
    ensures Leads(rows, multi, key, k, |rows| - 1)
  {
    var n := |rows| - 1;
    if rows[n].right == CALL {
      assert HasQuote(rows, multi, key, k, true);
    } else {
      assert forall j :: 0 <= j < n ==> rows[..n][j] == rows[j];
      assert !HasQuote(rows, multi, key, k, true);
    }
  }

  lemma LeadsOn(front: seq<Contract>, c: Contract, multi: bool, key: Pair, k: real, i: nat)
    requires i < |front| && Leads(front, multi, key, k, i) && !(Belongs(c, multi, key, k) && AnySide(c) && c.right == CALL)
    ensures Leads(front + [c], multi, key, k, i)
  {
    HasQuoteAppend(front, c, multi, key, k, true);
  }

  function Sum(rows: seq<Contract>): real { if rows == [] then 0.0 else Sum(rows[..|rows| - 1]) + rows[|rows| - 1].iv }
  /** The quoted rows of c's group at a strike. */
  function InStrike(c: Contract, multi: bool, k: real): Contract -> bool {
    (d: Contract) => d.iv > 0.0 && d.expiry.Ymd? && d.expiry == c.expiry && (multi ==> d.cls == c.cls) && d.strike == k
  }

  lemma {:induction false} StrikeSum(rows: seq<Contract>, multi: bool, c: Contract, k: real)
    ensures var q, own := QuoteAt(rows, multi, KeyOf(c, multi), k), Filter(rows, InStrike(c, multi, k));
            && (q.None? <==> own == [])
            && (q.Some? ==> q.value.n == |own| && q.value.sumIv == Sum(own))
  {
    if rows != [] {
      var front, d := rows[..|rows| - 1], rows[|rows| - 1];
      StrikeSum(front, multi, c, k);
      var own := Filter(front, InStrike(c, multi, k));
      if InStrike(c, multi, k)(d) {
        assert (own + [d])[..|own|] == own;
      } else {
        assert Filter(rows, InStrike(c, multi, k)) == own;
      }
    }
  }

  /** The volatility of a strike of a row's group is the average over the quoted rows of the same
      expiry and class there, calls and puts together. */
  lemma StrikeAverage(rows: seq<Contract>, multi: bool, c: Contract, k: real)
    ensures var q, own := QuoteAt(rows, multi, KeyOf(c, multi), k), Filter(rows, InStrike(c, multi, k));
            (q.None? <==> own == []) && (q.Some? ==> RefOf(q.value).iv == Sum(own) / |own| as real)
  {
    StrikeSum(rows, multi, c, k);
  }

  /** What a quoted row without bid or ask gets: the level of its own group, which blends the average
      volatility at the money with the anchor of the row's own expiry by the quote at the money, times
      the ratio of its volatility to that average, clamped. */
  lemma SurfaceKeepsSmile(m: Maths, b: Inputs, multi: bool, vols: seq<real>, i: nat, k: real)
    requires Lawful(m) && IsSurface(m, b, multi, vols) && i < |b.rows| && Priceable(b, i)
    requires IsAtmOf(b.rows, multi, KeyOf(b.rows[i], multi), b.spot, k)
    requires b.rows[i].iv > 0.0001 && b.rows[i].bid <= 0.0 && b.rows[i].ask <= 0.0
    requires RefOf(QuoteAt(b.rows, multi, KeyOf(b.rows[i], multi), k).value).iv > 0.0001
    ensures var c, q := b.rows[i], QuoteAt(b.rows, multi, KeyOf(b.rows[i], multi), k).value;
            var days, atm := c.expiry.day - b.today, q.sumIv / q.n as real;
            KeepsSmile(vols[i], c.iv, atm, Level(LiveWeight(m, days as real / 365.0, Quote(q.bid, q.ask, q.ok)), atm, b.sigma(days)))
  {
    var c := b.rows[i];
    var ref := RefOf(QuoteAt(b.rows, multi, KeyOf(c, multi), k).value);
    VolByRef(m, b, multi, vols, i, k);
    var days := c.expiry.day - b.today;
    UnquotedSkew(m, c.iv, ref.iv, b.sigma(days), days as real / 365.0, QuoteOf(c.bid, c.ask), ref.quote);
  }

  lemma VolByRef(m: Maths, b: Inputs, multi: bool, vols: seq<real>, i: nat, k: real)
    requires IsSurface(m, b, multi, vols) && i < |b.rows| && IsAtmOf(b.rows, multi, KeyOf(b.rows[i], multi), b.spot, k)
    ensures vols[i] == RowVol(m, b, i, RefOf(QuoteAt(b.rows, multi, KeyOf(b.rows[i], multi), k).value))
  {
    var key := KeyOf(b.rows[i], multi);
    var ref := RefOf(QuoteAt(b.rows, multi, key, k).value);
    assert IsVol(m, b, multi, i, vols[i]);
    var r :| IsRef(b.rows, multi, key, b.spot, r) && vols[i] == RowVol(m, b, i, r);
    assert IsRef(b.rows, multi, key, b.spot, ref);
    RefUnique(b.rows, multi, key, b.spot, r, ref);
  }

  // ---------------------------------------------------------------- the flat smile

  /** Every quoted row with a day or more to go quotes its own expiry's anchor. */
  ghost predicate Flat(b: Inputs) {
    forall i :: 0 <= i < |b.rows| && Priceable(b, i) && b.rows[i].iv > 0.0 ==>
      b.rows[i].iv == b.sigma(b.rows[i].expiry.day - b.today)
  }

  ghost predicate AllQuote(rows: seq<Contract>, multi: bool, key: Pair, v: real) {
    forall i :: 0 <= i < |rows| && Quoted(rows[i]) && KeyOf(rows[i], multi) == key ==> rows[i].iv == v
  }

  lemma {:induction false} FlatSum(rows: seq<Contract>, multi: bool, key: Pair, k: real, v: real)
    requires AllQuote(rows, multi, key, v)
    ensures var q := QuoteAt(rows, multi, key, k); q.Some? ==> q.value.sumIv == Mul(q.value.n as real, v)
  {
    if rows != [] {
      FlatSum(rows[..|rows| - 1], multi, key, k, v);
      var p := QuoteAt(rows[..|rows| - 1], multi, key, k);
      var n: nat := if p.Some? then p.value.n else 0;
      assert (n + 1) as real == n as real + 1.0;
      MulAdd(n as real, 1.0, v);
    }
  }

  lemma MeanOfEqual(n: nat, v: real)
    requires n > 0
    ensures Mul(n as real, v) / n as real == v
  {
    assert n as real > 0.0;
  }

  lemma FlatRef(rows: seq<Contract>, multi: bool, key: Pair, spot: real, ref: AtmRef, v: real)
    requires AllQuote(rows, multi, key, v) && IsRef(rows, multi, key, spot, ref)
    ensures if Unquoted(rows, multi, key) then ref == NO_REF else ref.iv == v
  {
    if !Unquoted(rows, multi, key) {
      var k :| IsAtmOf(rows, multi, key, spot, k) && ref == RefOf(QuoteAt(rows, multi, key, k).value);
      FlatSum(rows, multi, key, k, v);
      MeanOfEqual(QuoteAt(rows, multi, key, k).value.n, v);
    }
  }

  lemma {:induction false} QuotedRowCounts(rows: seq<Contract>, multi: bool, i: nat)
    requires i < |rows| && Quoted(rows[i])
    ensures QuoteAt(rows, multi, KeyOf(rows[i], multi), rows[i].strike).Some?
  {
    if i < |rows| - 1 {
      QuotedRowCounts(rows[..|rows| - 1], multi, i);
    }
  }

  /** On a flat smile the surface is the anchor, for every row with a day or more to go. */
  lemma FlatSmile(m: Maths, b: Inputs, multi: bool, vols: seq<real>, i: nat)
    requires Lawful(m) && Flat(b) && IsSurface(m, b, multi, vols) && i < |b.rows| && Priceable(b, i)
    ensures vols[i] == b.sigma(b.rows[i].expiry.day - b.today)
  {
    assert IsVol(m, b, multi, i, vols[i]);
    var ref :| IsRef(b.rows, multi, KeyOf(b.rows[i], multi), b.spot, ref) && vols[i] == RowVol(m, b, i, ref);
    FlatRowRef(b, multi, i, ref);
    FlatRowVol(m, b, i, ref);
  }

  ghost predicate FlatRefOf(c: Contract, ref: AtmRef, anchor: real) {
    (ref.iv == anchor || ref.iv <= 0.0) && (c.iv > 0.0 ==> ref.iv == anchor && c.iv == anchor)
  }

  lemma FlatRowVol(m: Maths, b: Inputs, i: nat, ref: AtmRef)
    requires Lawful(m) && i < |b.rows| && Priceable(b, i) && FlatRefOf(b.rows[i], ref, b.sigma(b.rows[i].expiry.day - b.today))
    ensures RowVol(m, b, i, ref) == b.sigma(b.rows[i].expiry.day - b.today)
  {
    var c := b.rows[i];
    var dte := c.expiry.day - b.today;
    FlatCarrier(m, c.iv, ref.iv, b.sigma(dte), dte as real / 365.0, QuoteOf(c.bid, c.ask), ref.quote);
  }

  lemma FlatRowRef(b: Inputs, multi: bool, i: nat, ref: AtmRef)
    requires Flat(b) && i < |b.rows| && Priceable(b, i)
    requires IsRef(b.rows, multi, KeyOf(b.rows[i], multi), b.spot, ref)
    ensures FlatRefOf(b.rows[i], ref, b.sigma(b.rows[i].expiry.day - b.today))
  {
    FlatGroup(b, multi, i);
    FlatRef(b.rows, multi, KeyOf(b.rows[i], multi), b.spot, ref, b.sigma(b.rows[i].expiry.day - b.today));
    if b.rows[i].iv > 0.0 {
      QuotedRowCounts(b.rows, multi, i);
    }
  }

  lemma FlatGroup(b: Inputs, multi: bool, i: nat)
    requires Flat(b) && i < |b.rows| && Priceable(b, i)
    ensures AllQuote(b.rows, multi, KeyOf(b.rows[i], multi), b.sigma(b.rows[i].expiry.day - b.today))
  {
  }

  /** A flat smile changes no exposure: at every spot the book is priced, and fails, as without
      a surface. */
  lemma FlatBook(m: Maths, b: Inputs, multi: bool, vols: seq<real>, spot: real)
    requires Lawful(m) && Flat(b) && IsSurface(m, b, multi, vols)
    ensures ItemsAt(b, Some(vols), spot, |b.rows|) == ItemsAt(b, None, spot, |b.rows|)
    ensures forall i :: 0 <= i < |b.rows| ==> RowFails(b, Some(vols), i) == RowFails(b, None, i)
  {
    forall i | 0 <= i < |b.rows| ensures PriceRow(b, Some(vols), spot, i) == PriceRow(b, None, spot, i) {
      FlatRow(m, b, multi, vols, spot, i);
    }
    SamePrices(b, Some(vols), None, spot, |b.rows|);
    forall i | 0 <= i < |b.rows| ensures RowFails(b, Some(vols), i) == RowFails(b, None, i) {
      FlatRow(m, b, multi, vols, b.spot, i);
    }
  }

  lemma {:induction false} SamePrices(b: Inputs, vols: Option<seq<real>>, vols': Option<seq<real>>, spot: real, n: nat)
    requires n <= |b.rows| && forall i :: 0 <= i < n ==> PriceRow(b, vols, spot, i) == PriceRow(b, vols', spot, i)
    ensures ItemsAt(b, vols, spot, n) == ItemsAt(b, vols', spot, n)
  {
    if n > 0 {
      SamePrices(b, vols, vols', spot, n - 1);
    }
  }

  lemma FlatRow(m: Maths, b: Inputs, multi: bool, vols: seq<real>, spot: real, i: nat)
    requires Lawful(m) && Flat(b) && IsSurface(m, b, multi, vols) && i < |b.rows|
    ensures PriceRow(b, Some(vols), spot, i) == PriceRow(b, None, spot, i)
  {
    if Priceable(b, i) {
      FlatSmile(m, b, multi, vols, i);
    }
  }

  /** An expiry of a class in which nothing is quoted keeps its pure anchor. */
  lemma UnquotedKeepsAnchor(m: Maths, b: Inputs, multi: bool, vols: seq<real>, i: nat)
    requires IsSurface(m, b, multi, vols) && i < |b.rows| && Priceable(b, i)
    requires Unquoted(b.rows, multi, KeyOf(b.rows[i], multi))
    ensures vols[i] == b.sigma(b.rows[i].expiry.day - b.today)
  {
    assert IsVol(m, b, multi, i, vols[i]);
    if b.rows[i].iv > 0.0 {
      QuotedRowCounts(b.rows, multi, i);
    }
  }
}
