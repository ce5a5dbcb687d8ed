/** The engine's snapshot, end to end (ComputeSnapshot in
    core/internal/exposure/aggregate.go): surface, aggregates, flip. */
module Engine {
  import opened Common
  import opened Brent
  import opened Exposure
  import opened Snapshots
  import opened Conservation
  import opened VolBlend
  import opened Surface
  import opened Flip
  import Positions

  datatype EngineSnapshot = EngineSnapshot(book: Snapshot, positiveRegime: bool, flip: Option<FlipResult>)

  ghost predicate VolsFor(m: Maths, b: Inputs, multi: bool, liveBlend: bool, vols: Option<seq<real>>) {
    if liveBlend then vols.Some? && IsSurface(m, b, multi, vols.value) else vols == None
  }

  /** Nothing is lost or counted twice, in any of the four groupings. */
  ghost predicate Conserved(s: Snapshot, multi: bool) {
    && Balanced(s.perStrike, s.totals.gex)
    && (forall i :: 0 <= i < |s.perExpiry| ==> Balanced(s.perExpiry[i].perStrike, s.perExpiry[i].totals.gex))
    && (forall i :: 0 <= i < |s.classes| ==> Balanced(s.classes[i].perStrike, s.classes[i].totals.gex))
    && TotalsSum(ExpiryTotals(s.perExpiry)) == s.totals
    && (multi ==> TotalsSum(ClassTotals(s.classes)) == s.totals)
    && (forall k: real :: PointSum(ExpiryCurves(s.perExpiry), k) == PointAt(s.perStrike, k))
    && (multi ==> forall k: real :: PointSum(ClassCurves(s.classes), k) == PointAt(s.perStrike, k))
  }

  lemma SnapshotConserved(items: seq<Item>, multi: bool, s: Snapshot)
    requires IsSnapshot(items, multi, s)
    ensures Conserved(s, multi)
  {
    SnapshotBalanced(items, multi, s);
    SlicesConserveTotals(items, multi, s);
    forall k: real
      ensures PointSum(ExpiryCurves(s.perExpiry), k) == PointAt(s.perStrike, k)
      ensures multi ==> PointSum(ClassCurves(s.classes), k) == PointAt(s.perStrike, k)
    {
      SlicesConserveCurve(items, multi, s, k);
    }
  }

  ghost predicate Priced(b: Inputs, vols: Option<seq<real>>) {
    NoneFails(b, vols, |b.rows|) && ItemsAt(b, vols, b.spot, |b.rows|) != Some([])
  }

  /** A scan that does not fail agrees with the snapshot: its middle is the book's total, and it
      reports a flip exactly when the regime at spot does not hold over the whole grid. */
  ghost predicate FlipAgrees(s: EngineSnapshot, b: Inputs) {
    && s.flip.Some? && s.flip.value.Scanned? && |s.flip.value.profile| == FLIP_POINTS
    && s.flip.value.profile[40] == SpotGex(b.spot, s.book.totals.gex)
    && (s.flip.value.flip.None? <==>
        forall i :: 0 <= i < FLIP_POINTS ==> (s.flip.value.profile[i].totalGex > 0.0) == s.positiveRegime)
  }

  /** What one run of the search for a flip goes by. */
  datatype Evidence = Evidence(items: seq<Item>, best: nat, exhausted: bool)

  /** s is a snapshot of the book at these volatilities. */
  ghost predicate IsResult(b: Inputs, vols: Option<seq<real>>, multi: bool, skipFlip: bool, s: EngineSnapshot, w: Evidence) {
    && ItemsAt(b, vols, b.spot, |b.rows|) == Some(w.items) && IsSnapshot(w.items, multi, s.book)
    && s.positiveRegime == (s.book.totals.gex > 0.0)
    && (s.flip.None? <==> skipFlip)
    && (!skipFlip ==> IsFlip(Objective(b, vols), b.spot, s.flip.value, w.best, w.exhausted))
  }

  /** r is what the engine answers for the book at these volatilities. */
  ghost predicate IsOutput(b: Inputs, vols: Option<seq<real>>, multi: bool, skipFlip: bool, r: Option<EngineSnapshot>) {
    && (r.None? <==> !Priced(b, vols) || (!skipFlip && FlipErrs(Objective(b, vols), b.spot)))
    && (r.Some? ==> exists w :: IsResult(b, vols, multi, skipFlip, r.value, w))
  }

  method ComputeSnapshot(m: Maths, b: Inputs, liveBlend: bool, skipFlip: bool)
    returns (r: Option<EngineSnapshot>, ghost multi: bool, ghost vols: Option<seq<real>>, ghost w: Evidence)
    ensures multi == SeveralClasses(b.rows) && VolsFor(m, b, multi, liveBlend, vols)
    ensures IsOutput(b, vols, multi, skipFlip, r)
    ensures r.None? ==> !Priced(b, vols) || (!skipFlip && FailsSomewhere(Objective(b, vols), b.spot))
    ensures r.Some? ==> IsResult(b, vols, multi, skipFlip, r.value, w)
    ensures r.Some? ==> Conserved(r.value.book, multi)
    ensures r.Some? && !skipFlip ==> FlipAgrees(r.value, b)
    // every number is the sum over its own contracts, at spot and at every point of the profile
    ensures r.Some? ==> Positions.SnapshotSums(b, vols, r.value.book)
    ensures r.Some? && !skipFlip ==> Positions.ProfileSums(b, vols, r.value.flip.value.profile)
  {
    var several := MultiClass(b.rows);
    multi, vols := several, None;
    var v: Option<seq<real>> := None;
    if liveBlend {
      var surface := BlendedVols(m, b, several);
      v := Some(surface);
    }
    vols := v;
    ghost var items;
    var book;
    book, items := Aggregate(b, v, several);
    w := Evidence(items, 0, false);
    if book.None? {
      return None, multi, vols, w;
    }
    SnapshotConserved(items, several, book.value);
    Positions.SnapshotIs(b, v, items, several, book.value);
    r := Some(EngineSnapshot(book.value, book.value.totals.gex > 0.0, None));
    assert skipFlip ==> IsResult(b, v, several, skipFlip, r.value, w);
    if !skipFlip {
      r, w := WithFlip(b, v, book.value, items, several);
    }
  }

  method WithFlip(b: Inputs, vols: Option<seq<real>>, book: Snapshot, ghost items: seq<Item>, ghost multi: bool)
    returns (r: Option<EngineSnapshot>, ghost w: Evidence)
    requires ItemsAt(b, vols, b.spot, |b.rows|) == Some(items) && IsSnapshot(items, multi, book)
    ensures r.None? <==> FlipErrs(Objective(b, vols), b.spot)
    ensures r.None? ==> FailsSomewhere(Objective(b, vols), b.spot)
    ensures r.Some? ==> r.value.book == book && IsResult(b, vols, multi, false, r.value, w) && FlipAgrees(r.value, b)
    ensures r.Some? ==> Positions.ProfileSums(b, vols, r.value.flip.value.profile)
  {
    var flip;
    ghost var best, exhausted;
    flip, best, exhausted := FindFlip(b, vols);
    w := Evidence(items, best, exhausted);
    if flip.FlipFailed? {
      return None, w;
    }
    MiddleIsSnapshot(b, vols, items, multi, book, flip.profile);
    NoFlipOneRegime(b, vols, items, multi, book, flip.profile);
    Positions.ProfileIs(b, vols, flip.profile);
    return Some(EngineSnapshot(book, book.totals.gex > 0.0, Some(flip))), w;
  }

  /** A book of calls alone is in the positive regime, a book of puts alone is not. */
  lemma OneSidedRegime(b: Inputs, vols: Option<seq<real>>, multi: bool, skipFlip: bool, s: EngineSnapshot, w: Evidence, right: string)
    requires IsResult(b, vols, multi, skipFlip, s, w) && w.items != [] && Positions.OneSide(b, vols, right) && b.spot > 0.0
    ensures s.positiveRegime <==> right == "C"
  {
    Positions.OneSidedTotal(b, vols, w.items, right);
  }

  // ---------------------------------------------------------------- the flat smile

  ghost predicate SameFunction(f: real -> Value, g: real -> Value) { forall x: real :: f(x) == g(x) }

  lemma SameLocated(f: real -> Value, g: real -> Value, x: real, lo: real, hi: real, tol: real)
    requires SameFunction(f, g) && Located(f, x, lo, hi, tol)
    ensures Located(g, x, lo, hi, tol)
  {
    if f(x).v != 0.0 {
      var y: real :| CloseChange(f, x, y, lo, hi, tol);
      assert CloseChange(g, x, y, lo, hi, tol);
    }
  }

  lemma SameFlip(f: real -> Value, g: real -> Value, spot: real, r: FlipResult, best: nat, exhausted: bool)
    requires SameFunction(f, g) && IsFlip(f, spot, r, best, exhausted)
    ensures IsFlip(g, spot, r, best, exhausted)
  {
    if r.flip.Some? {
      SameRoot(f, g, r.profile[best].spot, r.profile[best + 1].spot, DEFAULT_TOL, DEFAULT_MAX_ITER);
      if !exhausted {
        SameLocated(f, g, r.flip.value, r.profile[best].spot, r.profile[best + 1].spot, DEFAULT_TOL);
      }
    }
  }

  lemma SameErrs(f: real -> Value, g: real -> Value, spot: real)
    requires SameFunction(f, g) && FlipErrs(f, spot)
    ensures FlipErrs(g, spot)
  {
    if i: nat :| i < FLIP_POINTS && f(Grid(spot, i)).NonFinite? {
      assert g(Grid(spot, i)).NonFinite?;
    } else {
      var profile: seq<SpotGex>, best: nat :| SearchErrs(f, spot, profile, best);
      SameRoot(f, g, profile[best].spot, profile[best + 1].spot, DEFAULT_TOL, DEFAULT_MAX_ITER);
      assert SearchErrs(g, spot, profile, best);
    }
  }

  lemma SameObjective(b: Inputs, u: Option<seq<real>>, v: Option<seq<real>>)
    requires forall x: real :: ItemsAt(b, u, x, |b.rows|) == ItemsAt(b, v, x, |b.rows|)
    ensures SameFunction(Objective(b, u), Objective(b, v))
  {
    forall x: real ensures Objective(b, u)(x) == Objective(b, v)(x) {
      assert ItemsAt(b, u, x, |b.rows|) == ItemsAt(b, v, x, |b.rows|);
    }
  }

  /** Two ways of pricing a book that agree on every row at every spot have the same results. */
  lemma SameResult(b: Inputs, u: Option<seq<real>>, v: Option<seq<real>>, multi: bool, skipFlip: bool, s: EngineSnapshot, w: Evidence)
    requires forall x: real :: ItemsAt(b, u, x, |b.rows|) == ItemsAt(b, v, x, |b.rows|)
    requires IsResult(b, u, multi, skipFlip, s, w)
    ensures IsResult(b, v, multi, skipFlip, s, w)
  {
    assert ItemsAt(b, u, b.spot, |b.rows|) == ItemsAt(b, v, b.spot, |b.rows|);
    if !skipFlip {
      SameObjective(b, u, v);
      SameFlip(Objective(b, u), Objective(b, v), b.spot, s.flip.value, w.best, w.exhausted);
    }
  }

  /** A book has one result at given volatilities. */
  lemma ResultUnique(b: Inputs, vols: Option<seq<real>>, multi: bool, skipFlip: bool, s: EngineSnapshot, w: Evidence, t: EngineSnapshot, x: Evidence)
    requires IsResult(b, vols, multi, skipFlip, s, w) && IsResult(b, vols, multi, skipFlip, t, x)
    ensures s == t
  {
    SnapshotUnique(w.items, multi, s.book, t.book);
    if !skipFlip {
      FlipUnique(Objective(b, vols), b.spot, s.flip.value, w.best, w.exhausted, t.flip.value, x.best, x.exhausted);
    }
  }

  lemma FlatPrices(m: Maths, b: Inputs, multi: bool, vols: seq<real>)
    requires Lawful(m) && Flat(b) && IsSurface(m, b, multi, vols)
    ensures forall x: real :: ItemsAt(b, Some(vols), x, |b.rows|) == ItemsAt(b, None, x, |b.rows|)
    ensures Priced(b, Some(vols)) <==> Priced(b, None)
    ensures FlipErrs(Objective(b, Some(vols)), b.spot) <==> FlipErrs(Objective(b, None), b.spot)
  {
    forall x: real ensures ItemsAt(b, Some(vols), x, |b.rows|) == ItemsAt(b, None, x, |b.rows|) {
      FlatBook(m, b, multi, vols, x);
    }
    FlatBook(m, b, multi, vols, b.spot);
    SameObjective(b, Some(vols), None);
    SameObjective(b, None, Some(vols));
    if FlipErrs(Objective(b, Some(vols)), b.spot) {
      SameErrs(Objective(b, Some(vols)), Objective(b, None), b.spot);
    }
    if FlipErrs(Objective(b, None), b.spot) {
      SameErrs(Objective(b, None), Objective(b, Some(vols)), b.spot);
    }
  }

  /** On a flat smile the blended and the unblended engine give the same answer, error or
      snapshot, flip included. */
  lemma FlatEngine(m: Maths, b: Inputs, multi: bool, skipFlip: bool, vols: seq<real>, blended: Option<EngineSnapshot>, plain: Option<EngineSnapshot>)
    requires Lawful(m) && Flat(b) && IsSurface(m, b, multi, vols)
    requires IsOutput(b, Some(vols), multi, skipFlip, blended) && IsOutput(b, None, multi, skipFlip, plain)
    ensures blended == plain
  {
    FlatPrices(m, b, multi, vols);
    if blended.Some? {
      var w :| IsResult(b, Some(vols), multi, skipFlip, blended.value, w);
      var x :| IsResult(b, None, multi, skipFlip, plain.value, x);
      SameResult(b, Some(vols), None, multi, skipFlip, blended.value, w);
      ResultUnique(b, None, multi, skipFlip, blended.value, w, plain.value, x);
    }
  }
}
