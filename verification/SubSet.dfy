/** The selection the core ships to the edge (core/internal/edge/ingest.go): kept
    (class, expiry) pairs, a global strike range and a strike window per pair, and the filter
    the edge rebuilds from them (edge/src/GexEdge/TwsCallbacks.cs, Budget.cs). */
module SubSet {
  import opened Common
  import opened Market
  import opened Selection

  datatype Window = Window(pair: Pair, lo: real, hi: real)
  datatype SubSet = SubSet(keep: seq<Pair>, lo: real, hi: real, windows: seq<Window>)

  // ---------------------------------------------------------------- what the summary must be

  /** lo and hi are strikes of rows of the pair, and every such strike lies between them. */
  ghost predicate Envelope(rows: seq<Contract>, w: Window) {
    && (exists c :: c in rows && PairOf(c) == w.pair && c.strike == w.lo)
    && (exists c :: c in rows && PairOf(c) == w.pair && c.strike == w.hi)
    && (forall c :: c in rows && PairOf(c) == w.pair ==> w.lo <= c.strike <= w.hi)
  }

  ghost predicate WindowsOf(rows: seq<Contract>, ws: seq<Window>) {
    && (forall i :: 0 <= i < |ws| ==> Envelope(rows, ws[i]))
    && (forall i, j :: 0 <= i < j < |ws| ==> ws[i].pair != ws[j].pair)
    && (forall c :: c in rows ==> exists i :: 0 <= i < |ws| && ws[i].pair == PairOf(c))
  }

  ghost predicate Lists(rows: seq<Contract>, p: Pair) { exists c :: c in rows && PairOf(c) == p }
  ghost predicate Strikes(rows: seq<Contract>, k: real) { exists c :: c in rows && c.strike == k }

  ghost predicate Summary(rows: seq<Contract>, s: SubSet) {
    && (forall p :: p in s.keep <==> Lists(rows, p))
    && (forall c :: c in rows ==> s.lo <= c.strike <= s.hi)
    && WindowsOf(rows, s.windows)
  }

  // ---------------------------------------------------------------- the core

  method KeptListings(rows: seq<Contract>) returns (out: seq<Pair>)
    ensures forall p :: p in out <==> Lists(rows, p)
    ensures forall i, j :: 0 <= i < j < |out| ==> out[i] != out[j]
  {
    out := [];
    var seen: set<Pair> := {};
    for i := 0 to |rows|
      invariant seen == set p | p in out
      invariant forall p :: p in out <==> exists k :: 0 <= k < i && PairOf(rows[k]) == p
      invariant forall a, b :: 0 <= a < b < |out| ==> out[a] != out[b]
    {
      var p := PairOf(rows[i]);
      if p !in seen {
        seen := seen + {p};
        out := out + [p];
      }
    }
  }

  method StrikeRange(rows: seq<Contract>) returns (lo: real, hi: real)
    ensures forall c :: c in rows ==> lo <= c.strike <= hi
    ensures rows != [] ==> Strikes(rows, lo) && Strikes(rows, hi)
    ensures rows == [] ==> lo == hi == 0.0
  {
    if |rows| == 0 {
      return 0.0, 0.0;
    }
    lo, hi := rows[0].strike, rows[0].strike;
    assert rows[0] in rows;
    for i := 0 to |rows|
      invariant forall k :: 0 <= k < i ==> lo <= rows[k].strike <= hi
      invariant Strikes(rows, lo) && Strikes(rows, hi)
    {
      assert rows[i] in rows;
      if rows[i].strike < lo {
        lo := rows[i].strike;
      }
      if rows[i].strike > hi {
        hi := rows[i].strike;
      }
    }
  }

  /** The bounds seen so far, by pair. */
  ghost predicate BoundsOf(rows: seq<Contract>, lo: map<Pair, real>, hi: map<Pair, real>) {
    && lo.Keys == hi.Keys
    && (forall p :: p in lo ==> Envelope(rows, Window(p, lo[p], hi[p])))
    && (forall c :: c in rows ==> PairOf(c) in lo)
  }

  lemma EnvelopeGrows(rows: seq<Contract>, c: Contract, w: Window, w': Window)
    requires Envelope(rows, w) && w'.pair == w.pair
    requires if PairOf(c) == w.pair then w'.lo == Min(w.lo, c.strike) && w'.hi == Max(w.hi, c.strike) else w' == w
    ensures Envelope(rows + [c], w')
  {
    var a :| a in rows && PairOf(a) == w.pair && a.strike == w.lo;
    var b :| b in rows && PairOf(b) == w.pair && b.strike == w.hi;
    assert a in rows + [c] && b in rows + [c] && c in rows + [c];
  }

  lemma EnvelopeStarts(rows: seq<Contract>, c: Contract)
    requires forall r :: r in rows ==> PairOf(r) != PairOf(c)
    ensures Envelope(rows + [c], Window(PairOf(c), c.strike, c.strike))
  {
    assert c in rows + [c];
  }

  lemma BoundsStep(rows: seq<Contract>, c: Contract, lo: map<Pair, real>, hi: map<Pair, real>,
                   lo': map<Pair, real>, hi': map<Pair, real>)
    requires BoundsOf(rows, lo, hi)
    requires var p := PairOf(c);
             if p in lo then lo' == lo[p := Min(lo[p], c.strike)] && hi' == hi[p := Max(hi[p], c.strike)]
             else lo' == lo[p := c.strike] && hi' == hi[p := c.strike]
    ensures BoundsOf(rows + [c], lo', hi')
  {
    forall p | p in lo' ensures Envelope(rows + [c], Window(p, lo'[p], hi'[p])) {
      if p in lo {
        EnvelopeGrows(rows, c, Window(p, lo[p], hi[p]), Window(p, lo'[p], hi'[p]));
      } else {
        EnvelopeStarts(rows, c);
      }
    }
  }

  /** The bounds, and their pairs in order of appearance. */
  ghost predicate Collected(rows: seq<Contract>, lo: map<Pair, real>, hi: map<Pair, real>, order: seq<Pair>) {
    && BoundsOf(rows, lo, hi) && (forall p :: p in order <==> p in lo)
    && (forall a, b :: 0 <= a < b < |order| ==> order[a] != order[b])
  }

  method Widen(c: Contract, lo: map<Pair, real>, hi: map<Pair, real>, order: seq<Pair>, ghost rows: seq<Contract>)
    returns (lo': map<Pair, real>, hi': map<Pair, real>, order': seq<Pair>)
    requires Collected(rows, lo, hi, order)
    ensures Collected(rows + [c], lo', hi', order')
  {
    var p := PairOf(c);
    if p !in lo {
      lo', hi', order' := lo[p := c.strike], hi[p := c.strike], order + [p];
    } else {
      lo', hi', order' := lo[p := Min(lo[p], c.strike)], hi[p := Max(hi[p], c.strike)], order;
    }
    BoundsStep(rows, c, lo, hi, lo', hi');
  }

  method StrikeWindows(rows: seq<Contract>) returns (out: seq<Window>)
    ensures WindowsOf(rows, out)
  {
    var lo: map<Pair, real>, hi: map<Pair, real>, order: seq<Pair> := map[], map[], [];
    for i := 0 to |rows|
      invariant Collected(rows[..i], lo, hi, order)
    {
      lo, hi, order := Widen(rows[i], lo, hi, order, rows[..i]);
      assert rows[..i + 1] == rows[..i] + [rows[i]];
    }
    assert rows[..|rows|] == rows;
    out := ListWindows(rows, lo, hi, order);
  }

  method ListWindows(ghost rows: seq<Contract>, lo: map<Pair, real>, hi: map<Pair, real>, order: seq<Pair>)
    returns (out: seq<Window>)
    requires BoundsOf(rows, lo, hi) && forall p :: p in order <==> p in lo
    requires forall a, b :: 0 <= a < b < |order| ==> order[a] != order[b]
    ensures WindowsOf(rows, out)
  {
    out := [];
    for i := 0 to |order|
      invariant |out| == i
      invariant forall k :: 0 <= k < i ==> order[k] in lo && out[k] == Window(order[k], lo[order[k]], hi[order[k]])
    {
      assert order[i] in order;
      out := out + [Window(order[i], lo[order[i]], hi[order[i]])];
    }
    forall c | c in rows ensures exists i :: 0 <= i < |out| && out[i].pair == PairOf(c) {
      assert PairOf(c) in order;
      var k :| 0 <= k < |order| && order[k] == PairOf(c);
      assert out[k].pair == PairOf(c);
    }
  }

  /** The reply to a discovery. */
  method BuildSubSet(rows: seq<Contract>) returns (s: SubSet)
    ensures Summary(rows, s)
  {
    var keep := KeptListings(rows);
    var lo, hi := StrikeRange(rows);
    var windows := StrikeWindows(rows);
    Summed(rows, keep, lo, hi, windows);
    return SubSet(keep, lo, hi, windows);
  }

  lemma Summed(rows: seq<Contract>, keep: seq<Pair>, lo: real, hi: real, windows: seq<Window>)
    requires forall p :: p in keep <==> Lists(rows, p)
    requires (forall c :: c in rows ==> lo <= c.strike <= hi) && WindowsOf(rows, windows)
    ensures Summary(rows, SubSet(keep, lo, hi, windows))
  {
  }

  // ---------------------------------------------------------------- the edge

  /** The window the edge uses for a pair: the first listed, or the global range. */
  function WindowFor(windows: seq<Window>, pair: Pair, lo: real, hi: real): (real, real) {
    if windows == [] then (lo, hi)
    else if windows[0].pair == pair then (windows[0].lo, windows[0].hi)
    else WindowFor(windows[1..], pair, lo, hi)
  }

  /** Inside the first window listed for its pair, or inside the global range if none is. */
  ghost predicate InOwnWindow(c: Contract, windows: seq<Window>, lo: real, hi: real) {
    if exists i :: FirstWindow(windows, PairOf(c), i)
    then exists i :: FirstWindow(windows, PairOf(c), i) && windows[i].lo <= c.strike <= windows[i].hi
    else lo <= c.strike <= hi
  }
  ghost predicate FirstWindow(windows: seq<Window>, pair: Pair, i: int) {
    0 <= i < |windows| && windows[i].pair == pair && forall j :: 0 <= j < i ==> windows[j].pair != pair
  }

  lemma {:induction false} WindowForIs(windows: seq<Window>, pair: Pair, lo: real, hi: real) returns (i: int)
    ensures if FirstWindow(windows, pair, i) then WindowFor(windows, pair, lo, hi) == (windows[i].lo, windows[i].hi)
            else WindowFor(windows, pair, lo, hi) == (lo, hi) && forall j :: 0 <= j < |windows| ==> windows[j].pair != pair
  {
    i := 0;
    if windows != [] && windows[0].pair != pair {
      var k := WindowForIs(windows[1..], pair, lo, hi);
      i := k + 1;
      assert forall j :: 0 < j < |windows| ==> windows[j] == windows[1..][j - 1];
    }
  }

  lemma WindowsTestIs(c: Contract, windows: seq<Window>, lo: real, hi: real)
    ensures WindowsTest(windows, lo, hi)(c) <==> InOwnWindow(c, windows, lo, hi)
  {
    var i := WindowForIs(windows, PairOf(c), lo, hi);
    if exists j :: FirstWindow(windows, PairOf(c), j) {
      var j :| FirstWindow(windows, PairOf(c), j);
      assert FirstWindow(windows, PairOf(c), i) && i == j;
    }
  }

  /** `ResolveAsync` keeps kept pairs inside the global range; `WithinWindows` then applies the
      pair's own window. */
  predicate EdgeAdmits(s: SubSet, c: Contract) {
    && PairOf(c) in s.keep && s.lo <= c.strike <= s.hi
    && var (lo, hi) := WindowFor(s.windows, PairOf(c), s.lo, s.hi);
       lo <= c.strike <= hi
  }

  /** The dictionary of the edge: the first window of a pair wins. */
  method WithinWindows(metas: seq<Contract>, windows: seq<Window>, lo: real, hi: real) returns (out: seq<Contract>)
    ensures out == Filter(metas, WindowsTest(windows, lo, hi))
    ensures forall c :: c in out <==> c in metas && InOwnWindow(c, windows, lo, hi)
  {
    var byPair: map<Pair, (real, real)> := map[];
    for i := 0 to |windows|
      invariant forall p :: WindowFor(windows, p, lo, hi) ==
                            if p in byPair then byPair[p] else WindowFor(windows[i..], p, lo, hi)
    {
      var w := windows[i];
      assert windows[i..][0] == w && windows[i..][1..] == windows[i + 1..];
      if w.pair !in byPair {
        byPair := byPair[w.pair := (w.lo, w.hi)];
      }
    }
    out := [];
    for k := 0 to |metas|
      invariant out == Filter(metas[..k], WindowsTest(windows, lo, hi))
    {
      assert metas[..k + 1][..k] == metas[..k];
      var m := metas[k];
      var (l, h) := if PairOf(m) in byPair then byPair[PairOf(m)] else (lo, hi);
      if m.strike >= l && m.strike <= h {
        out := out + [m];
      }
    }
    assert metas[..|metas|] == metas;
    FilterMember(metas, WindowsTest(windows, lo, hi));
    forall c ensures c in out <==> c in metas && InOwnWindow(c, windows, lo, hi) {
      WindowsTestIs(c, windows, lo, hi);
    }
  }

  function WindowsTest(windows: seq<Window>, lo: real, hi: real): Contract -> bool {
    (c: Contract) => var (l, h) := WindowFor(windows, PairOf(c), lo, hi); l <= c.strike <= h
  }

  function ResolveTest(s: SubSet): Contract -> bool { (c: Contract) => PairOf(c) in s.keep && s.lo <= c.strike <= s.hi }
  function Admits(s: SubSet): Contract -> bool { (c: Contract) => EdgeAdmits(s, c) }

  /** `ResolveAsync`, and then `WithinWindows` on what it resolved. */
  method EdgeFilter(metas: seq<Contract>, s: SubSet) returns (out: seq<Contract>)
    ensures out == Filter(metas, Admits(s))
    ensures forall c :: c in out <==> c in metas && PairOf(c) in s.keep && s.lo <= c.strike <= s.hi && InOwnWindow(c, s.windows, s.lo, s.hi)
  {
    var resolved := [];
    for k := 0 to |metas|
      invariant resolved == Filter(metas[..k], ResolveTest(s))
    {
      assert metas[..k + 1][..k] == metas[..k];
      if PairOf(metas[k]) in s.keep && metas[k].strike >= s.lo && metas[k].strike <= s.hi {
        resolved := resolved + [metas[k]];
      }
    }
    assert metas[..|metas|] == metas;
    FilterMember(metas, ResolveTest(s));
    out := WithinWindows(resolved, s.windows, s.lo, s.hi);
    FilterTwice(metas, ResolveTest(s), WindowsTest(s.windows, s.lo, s.hi), Admits(s));
  }

  // ---------------------------------------------------------------- nothing is lost

  lemma {:induction false} WindowFound(windows: seq<Window>, i: nat, lo: real, hi: real)
    requires i < |windows| && forall a, b :: 0 <= a < b < |windows| ==> windows[a].pair != windows[b].pair
    ensures WindowFor(windows, windows[i].pair, lo, hi) == (windows[i].lo, windows[i].hi)
  {
    if i > 0 {
      assert windows[1..][i - 1] == windows[i];
      WindowFound(windows[1..], i - 1, lo, hi);
    }
  }

  /** The chain the core keeps from a discovered universe. */
  ghost function Kept(universe: seq<Contract>, spot: real, iv: real, today: int, cal: Calendar): Option<seq<Contract>> {
    match SelectedByClass(universe, today, cal)
    case None => None
    case Some(selected) => Filtered(selected, spot, iv, today)
  }

  /** Selection depends only on the pair, so a pair is kept whole or not at all. */
  lemma SelectionByPair(universe: seq<Contract>, a: Contract, b: Contract, today: int, cal: Calendar)
    requires SelectedByClass(universe, today, cal).Some?
    requires a in SelectedByClass(universe, today, cal).value && b in universe && PairOf(a) == PairOf(b)
    ensures b in SelectedByClass(universe, today, cal).value
  {
    if |Classes(universe)| <= 1 {
      FilterMember(universe, PickTest(universe, today, cal));
    } else {
      FilterMember(universe, ClassPickTest(universe, today, cal));
    }
  }

  lemma KeptBetween(universe: seq<Contract>, lo: Contract, hi: Contract, c: Contract,
                    spot: real, iv: real, today: int, cal: Calendar)
    requires Kept(universe, spot, iv, today, cal).Some?
    requires lo in Kept(universe, spot, iv, today, cal).value && hi in Kept(universe, spot, iv, today, cal).value
    requires c in universe && PairOf(c) == PairOf(lo) == PairOf(hi) && lo.strike <= c.strike <= hi.strike
    ensures c in Kept(universe, spot, iv, today, cal).value
  {
    var selected := SelectedByClass(universe, today, cal).value;
    FilterMember(selected, WindowTest(spot, iv, today));
    SelectionByPair(universe, lo, c, today, cal);
    WindowConvex(lo, hi, c, spot, iv, today);
  }

  lemma KeptIsAdmitted(kept: seq<Contract>, s: SubSet, c: Contract)
    requires Summary(kept, s) && c in kept
    ensures EdgeAdmits(s, c)
  {
    var i :| 0 <= i < |s.windows| && s.windows[i].pair == PairOf(c);
    WindowFound(s.windows, i, s.lo, s.hi);
    assert Envelope(kept, s.windows[i]);
  }

  /** An admitted contract lies between two kept strikes of its pair. */
  lemma AdmittedBetween(kept: seq<Contract>, s: SubSet, c: Contract) returns (lo: Contract, hi: Contract)
    requires Summary(kept, s) && EdgeAdmits(s, c)
    ensures lo in kept && hi in kept && PairOf(lo) == PairOf(c) == PairOf(hi) && lo.strike <= c.strike <= hi.strike
  {
    var r :| r in kept && PairOf(r) == PairOf(c);
    var i :| 0 <= i < |s.windows| && s.windows[i].pair == PairOf(r);
    WindowFound(s.windows, i, s.lo, s.hi);
    lo, hi := EnvelopeEnds(kept, s.windows[i]);
  }

  lemma EnvelopeEnds(kept: seq<Contract>, w: Window) returns (lo: Contract, hi: Contract)
    requires Envelope(kept, w)
    ensures lo in kept && hi in kept && PairOf(lo) == w.pair == PairOf(hi) && lo.strike == w.lo && hi.strike == w.hi
  {
    lo :| lo in kept && PairOf(lo) == w.pair && lo.strike == w.lo;
    hi :| hi in kept && PairOf(hi) == w.pair && hi.strike == w.hi;
  }

  /** The summary is lossless: for every contract of the universe the edge's filter admits it
      if and only if the core kept it. */
  lemma Lossless(universe: seq<Contract>, s: SubSet, c: Contract, spot: real, iv: real, today: int, cal: Calendar)
    requires Kept(universe, spot, iv, today, cal).Some?
    requires Summary(Kept(universe, spot, iv, today, cal).value, s) && c in universe
    ensures EdgeAdmits(s, c) <==> c in Kept(universe, spot, iv, today, cal).value
  {
    var kept := Kept(universe, spot, iv, today, cal).value;
    if c in kept {
      KeptIsAdmitted(kept, s, c);
    } else if EdgeAdmits(s, c) {
      var lo, hi := AdmittedBetween(kept, s, c);
      KeptBetween(universe, lo, hi, c, spot, iv, today, cal);
    }
  }

  /** Row for row: what the edge's two stages leave of the universe is the chain the core kept. */
  lemma LosslessRows(universe: seq<Contract>, s: SubSet, spot: real, iv: real, today: int, cal: Calendar)
    requires Kept(universe, spot, iv, today, cal).Some? && Summary(Kept(universe, spot, iv, today, cal).value, s)
    ensures Filter(universe, Admits(s)) == Kept(universe, spot, iv, today, cal).value
  {
    var test := KeptTest(universe, spot, iv, today, cal);
    KeptIsFilter(universe, spot, iv, today, cal);
    FilterMember(universe, test);
    forall c | c in universe ensures Admits(s)(c) == test(c) {
      Lossless(universe, s, c, spot, iv, today, cal);
    }
    FilterAgree(universe, Admits(s), test);
  }

  ghost function KeptTest(universe: seq<Contract>, spot: real, iv: real, today: int, cal: Calendar): Contract -> bool {
    var picked := if |Classes(universe)| <= 1 then PickTest(universe, today, cal) else ClassPickTest(universe, today, cal);
    (c: Contract) => picked(c) && InWindow(c, spot, iv, today)
  }

  lemma KeptIsFilter(universe: seq<Contract>, spot: real, iv: real, today: int, cal: Calendar)
    requires Kept(universe, spot, iv, today, cal).Some?
    ensures Kept(universe, spot, iv, today, cal).value == Filter(universe, KeptTest(universe, spot, iv, today, cal))
  {
    var picked := if |Classes(universe)| <= 1 then PickTest(universe, today, cal) else ClassPickTest(universe, today, cal);
    FilterTwice(universe, picked, WindowTest(spot, iv, today), KeptTest(universe, spot, iv, today, cal));
  }

  /** What the core keeps of a universe: the rows on a picked day of their own class, of which all
      dates parse, with a strike within two standard deviations of spot; a day's time at least. */
  lemma KeptIs(universe: seq<Contract>, spot: real, iv: real, today: int, cal: Calendar, root: int -> real, c: Contract)
    requires Kept(universe, spot, iv, today, cal).Some? && IsYearRoot(root)
    ensures c in Kept(universe, spot, iv, today, cal).value <==>
            && c in universe && c.expiry.Ymd? && AllParse(ClassDates(universe, c.cls))
            && IsPick(ClassDates(universe, c.cls), today, cal, c.expiry.day)
            && NearSpot(c.strike, spot, iv, root(if c.expiry.day == today then 1 else c.expiry.day - today))
  {
    KeptIsFilter(universe, spot, iv, today, cal);
    FilterMember(universe, KeptTest(universe, spot, iv, today, cal));
    if c in universe && c.expiry.Ymd? {
      PickedIs(universe, c, today, cal);
      if c.expiry.day >= today {
        WindowIs(c, spot, iv, today, root);
      }
    }
  }

  lemma PickedIs(universe: seq<Contract>, c: Contract, today: int, cal: Calendar)
    requires c in universe && c.expiry.Ymd?
    ensures (if |Classes(universe)| <= 1 then PickTest(universe, today, cal) else ClassPickTest(universe, today, cal))(c) <==>
            AllParse(ClassDates(universe, c.cls)) && IsPick(ClassDates(universe, c.cls), today, cal, c.expiry.day)
    ensures IsPick(ClassDates(universe, c.cls), today, cal, c.expiry.day) ==> c.expiry.day >= today
  {
    OwnDates(universe, c);
    if AllParse(ClassDates(universe, c.cls)) {
      PickIs(ClassDates(universe, c.cls), today, cal, c.expiry.day);
    }
  }

  /** The dates of the rows of one class. */
  ghost function ClassDates(rows: seq<Contract>, cls: string): set<Expiry> { set r | r in rows && r.cls == cls :: r.expiry }

  lemma OwnDates(universe: seq<Contract>, c: Contract)
    requires c in universe
    ensures DatesIn(OfClass(universe, c.cls)) == ClassDates(universe, c.cls)
    ensures |Classes(universe)| <= 1 ==> DatesIn(universe) == ClassDates(universe, c.cls)
  {
    FilterMember(universe, InClass(c.cls));
    if |Classes(universe)| <= 1 {
      forall r | r in universe ensures r.cls == c.cls {
        OneClass(universe, r, c);
      }
    }
  }
}
