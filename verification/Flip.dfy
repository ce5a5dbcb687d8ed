/** The zero-gamma flip (FindFlip and totalGEXAt in core/internal/exposure/aggregate.go): a grid
    scan of total GEX over spot, then a root search in the sign change nearest to spot. */
module Flip {
  import opened Common
  import opened Exposure
  import opened Snapshots
  import opened Brent

  const FLIP_POINTS: nat := 81

  datatype SpotGex = SpotGex(spot: real, totalGex: real)
  datatype FlipResult = FlipFailed | Scanned(profile: seq<SpotGex>, flip: Option<real>)

  /** Total GEX of the book at a hypothetical spot; not finite where a row cannot be priced. */
  function GexAt(b: Inputs, vols: Option<seq<real>>, spot: real): Value {
    match ItemsAt(b, vols, spot, |b.rows|)
    case None => NonFinite
    case Some(items) => Finite(SumIf(items, All()).gex)
  }
  function Objective(b: Inputs, vols: Option<seq<real>>): real -> Value { (s: real) => GexAt(b, vols, s) }

  /** The i-th grid point, from 20% below spot to 20% above. */
  function Grid(spot: real, i: nat): real {
    var lo, hi := spot * (1.0 - 0.2), spot * (1.0 + 0.2);
    lo + Mul(hi - lo, i as real) / (FLIP_POINTS - 1) as real
  }

  // ---------------------------------------------------------------- one point of the profile

  ghost predicate Summed(b: Inputs, vols: Option<seq<real>>, spot: real, n: nat, total: real)
    requires n <= |b.rows|
  {
    var items := ItemsAt(b, vols, spot, n);
    items.Some? && SumIf(items.value, All()).gex == total
  }

  lemma SummedStep(b: Inputs, vols: Option<seq<real>>, spot: real, n: nat, total: real)
    requires n < |b.rows| && Summed(b, vols, spot, n, total)
    ensures var p := PriceRow(b, vols, spot, n);
            && (p.Failed? ==> ItemsAt(b, vols, spot, n + 1).None?)
            && (p.Skipped? ==> Summed(b, vols, spot, n + 1, total))
            && (p.Ok? ==> Summed(b, vols, spot, n + 1, total + p.item.ex.gex))
  {
    var p := PriceRow(b, vols, spot, n);
    if p.Ok? {
      SumAppend(ItemsAt(b, vols, spot, n).value, p.item, All());
    }
  }

  lemma {:induction false} FailureStays(b: Inputs, vols: Option<seq<real>>, spot: real, n: nat, m: nat)
    requires n <= m <= |b.rows| && ItemsAt(b, vols, spot, n).None?
    ensures ItemsAt(b, vols, spot, m).None?
    decreases m
  {
    if n < m {
      FailureStays(b, vols, spot, n, m - 1);
    }
  }

  /** Re-price the whole book at a hypothetical spot. */
  method TotalGexAt(b: Inputs, vols: Option<seq<real>>, spot: real) returns (r: Value)
    ensures r == GexAt(b, vols, spot)
  {
    var total := 0.0;
    for n := 0 to |b.rows|
      invariant Summed(b, vols, spot, n, total)
    {
      SummedStep(b, vols, spot, n, total);
      var p := PriceRow(b, vols, spot, n);
      if p.Failed? {
        FailureStays(b, vols, spot, n + 1, |b.rows|);
        return NonFinite;
      }
      if p.Ok? {
        total := total + p.item.ex.gex;
      }
    }
    return Finite(total);
  }

  // ---------------------------------------------------------------- the profile

  ghost predicate IsProfile(f: real -> Value, spot: real, profile: seq<SpotGex>) {
    forall i :: 0 <= i < |profile| ==> profile[i].spot == Grid(spot, i) && f(Grid(spot, i)) == Finite(profile[i].totalGex)
  }

  method Scan(b: Inputs, vols: Option<seq<real>>) returns (ok: bool, profile: seq<SpotGex>)
    ensures ok <==> forall i :: 0 <= i < FLIP_POINTS ==> GexAt(b, vols, Grid(b.spot, i)).Finite?
    ensures ok ==> |profile| == FLIP_POINTS && IsProfile(Objective(b, vols), b.spot, profile)
  {
    ok, profile := true, [];
    for i := 0 to FLIP_POINTS
      invariant |profile| == i && IsProfile(Objective(b, vols), b.spot, profile)
      invariant forall j :: 0 <= j < i ==> GexAt(b, vols, Grid(b.spot, j)).Finite?
    {
      var s := Grid(b.spot, i);
      var total := TotalGexAt(b, vols, s);
      if total.NonFinite? {
        return false, profile;
      }
      profile := profile + [SpotGex(s, total.v)];
    }
  }

  /** The profile goes from positive to not positive, or back, between points i and i + 1. */
  predicate Changes(profile: seq<SpotGex>, i: nat)
    requires i + 1 < |profile|
  {
    (profile[i].totalGex > 0.0) != (profile[i + 1].totalGex > 0.0)
  }

  function Distance(profile: seq<SpotGex>, i: nat, spot: real): real
    requires i + 1 < |profile|
  {
    Abs((profile[i].spot + profile[i + 1].spot) / 2.0 - spot)
  }

  /** i is the change nearest to spot among the first n intervals, the lowest on a tie. */
  ghost predicate NearestOf(profile: seq<SpotGex>, spot: real, n: nat, i: nat)
    requires n < |profile|
  {
    && i < n && Changes(profile, i)
    && (forall j :: 0 <= j < n && Changes(profile, j) ==> Distance(profile, i, spot) <= Distance(profile, j, spot))
    && (forall j :: 0 <= j < i && Changes(profile, j) ==> Distance(profile, i, spot) < Distance(profile, j, spot))
  }

  method NearestChange(profile: seq<SpotGex>, spot: real) returns (best: Option<nat>)
    requires |profile| > 0
    ensures best.None? ==> !ChangesSign(profile)
    ensures best.Some? ==> NearestOf(profile, spot, |profile| - 1, best.value)
  {
    best := None;
    var nearest := 0.0;
    for i := 0 to |profile| - 1
      invariant best.None? ==> forall j :: 0 <= j < i ==> !Changes(profile, j)
      invariant best.Some? ==> NearestOf(profile, spot, i, best.value) && nearest == Distance(profile, best.value, spot)
    {
      if Changes(profile, i) {
        var d := Distance(profile, i, spot);
        if best.None? || d < nearest {
          nearest, best := d, Some(i);
        }
      }
    }
  }

  // ---------------------------------------------------------------- the flip

  lemma ChangeBrackets(x: real, y: real)
    requires (x > 0.0) != (y > 0.0)
    ensures x * y <= 0.0
  {
  }

  /** Where the objective fails, between two neighbouring grid points. */
  ghost predicate FailsIn(f: real -> Value, lo: real, hi: real) { exists x: real :: Fails(f, x, lo, hi) }
  ghost predicate FailsNear(f: real -> Value, spot: real, i: nat) { FailsIn(f, Grid(spot, i), Grid(spot, i + 1)) }

  ghost predicate FlipIn(f: real -> Value, p: SpotGex, q: SpotGex, x: real, exhausted: bool) {
    && Within(x, p.spot, q.spot) && f(x).Finite?
    && (!exhausted ==> Located(f, x, p.spot, q.spot, 0.001))
  }

  ghost predicate ChangesSign(profile: seq<SpotGex>) { exists i :: 0 <= i < |profile| - 1 && Changes(profile, i) }

  /** The profile is the grid's, and a flip is reported exactly when it changes sign, inside the
      change nearest to spot. */
  ghost predicate IsFlip(f: real -> Value, spot: real, r: FlipResult, best: nat, exhausted: bool) {
    && r.Scanned? && |r.profile| == FLIP_POINTS && IsProfile(f, spot, r.profile)
    && (r.flip.Some? <==> ChangesSign(r.profile))
    && (r.flip.Some? ==> NearestOf(r.profile, spot, FLIP_POINTS - 1, best) &&
                         FlipIn(f, r.profile[best], r.profile[best + 1], r.flip.value, exhausted) &&
                         Refined(f, r.profile, best) == Root(r.flip.value))
  }

  /** What the root search answers in an interval of the profile. */
  function Refined(f: real -> Value, profile: seq<SpotGex>, i: nat): Outcome
    requires i + 1 < |profile|
  {
    RootOf(f, profile[i].spot, profile[i + 1].spot, DEFAULT_TOL, DEFAULT_MAX_ITER)
  }

  /** Exactly when the scan fails: a grid point cannot be priced, or a point that the root search
      tries in the nearest change. */
  ghost predicate FlipErrs(f: real -> Value, spot: real) {
    || (exists i: nat :: i < FLIP_POINTS && f(Grid(spot, i)).NonFinite?)
    || (exists profile, best: nat :: SearchErrs(f, spot, profile, best))
  }
  ghost predicate SearchErrs(f: real -> Value, spot: real, profile: seq<SpotGex>, best: nat) {
    && |profile| == FLIP_POINTS && IsProfile(f, spot, profile)
    && NearestOf(profile, spot, FLIP_POINTS - 1, best) && !Refined(f, profile, best).Root?
  }

  lemma ProfileUnique(f: real -> Value, spot: real, p: seq<SpotGex>, q: seq<SpotGex>)
    requires IsProfile(f, spot, p) && IsProfile(f, spot, q) && |p| == |q|
    ensures p == q
  {
    forall i | 0 <= i < |p| ensures p[i] == q[i] {
      assert Finite(p[i].totalGex) == Finite(q[i].totalGex);
    }
  }

  lemma NearestUnique(profile: seq<SpotGex>, spot: real, i: nat, j: nat)
    requires |profile| == FLIP_POINTS && NearestOf(profile, spot, FLIP_POINTS - 1, i) && NearestOf(profile, spot, FLIP_POINTS - 1, j)
    ensures i == j
  {
  }

  /** A scan that finds a root, or needs none, does not fail. */
  lemma NoErr(f: real -> Value, spot: real, profile: seq<SpotGex>, best: nat)
    requires |profile| == FLIP_POINTS && IsProfile(f, spot, profile)
    requires ChangesSign(profile) ==> NearestOf(profile, spot, FLIP_POINTS - 1, best) && Refined(f, profile, best).Root?
    ensures !FlipErrs(f, spot)
  {
    forall i: nat | i < FLIP_POINTS ensures f(Grid(spot, i)).Finite? {
      assert f(Grid(spot, i)) == Finite(profile[i].totalGex);
    }
    forall q, k: nat ensures !SearchErrs(f, spot, q, k) {
      if SearchErrs(f, spot, q, k) {
        ProfileUnique(f, spot, profile, q);
        NearestUnique(profile, spot, best, k);
      }
    }
  }

  /** An objective has one flip. */
  lemma FlipUnique(f: real -> Value, spot: real, r: FlipResult, i: nat, x: bool, r': FlipResult, j: nat, y: bool)
    requires IsFlip(f, spot, r, i, x) && IsFlip(f, spot, r', j, y)
    ensures r == r'
  {
    ProfileUnique(f, spot, r.profile, r'.profile);
    if r.flip.Some? {
      NearestUnique(r.profile, spot, i, j);
    }
  }

  /** Some point between two neighbouring grid points cannot be priced. */
  ghost predicate FailsSomewhere(f: real -> Value, spot: real) { exists i: nat :: i < FLIP_POINTS - 1 && FailsNear(f, spot, i) }

  method FindFlip(b: Inputs, vols: Option<seq<real>>) returns (r: FlipResult, ghost best: nat, ghost exhausted: bool)
    // it fails only where the book cannot be priced, never for want of a bracket
    ensures r.FlipFailed? <==> FlipErrs(Objective(b, vols), b.spot)
    ensures r.FlipFailed? ==> FailsSomewhere(Objective(b, vols), b.spot)
    ensures r.Scanned? ==> IsFlip(Objective(b, vols), b.spot, r, best, exhausted)
  {
    best, exhausted := 0, false;
    var ok, profile := Scan(b, vols);
    if !ok {
      GridFailure(b, vols);
      return FlipFailed, best, exhausted;
    }
    r, best, exhausted := FlipIn81(b, vols, profile);
  }

  method FlipIn81(b: Inputs, vols: Option<seq<real>>, profile: seq<SpotGex>) returns (r: FlipResult, ghost best: nat, ghost exhausted: bool)
    requires |profile| == FLIP_POINTS && IsProfile(Objective(b, vols), b.spot, profile)
    ensures r.FlipFailed? <==> FlipErrs(Objective(b, vols), b.spot)
    ensures r.FlipFailed? ==> FailsSomewhere(Objective(b, vols), b.spot)
    ensures r.Scanned? ==> IsFlip(Objective(b, vols), b.spot, r, best, exhausted)
  {
    best, exhausted := 0, false;
    var found := NearestChange(profile, b.spot);
    if found.None? {
      NoChange(Objective(b, vols), b.spot, profile);
      return Scanned(profile, None), best, exhausted;
    }
    best := found.value;
    var root;
    root, exhausted := Refine(b, vols, profile, found.value);
    if root.None? {
      RootFailed(Objective(b, vols), b.spot, profile, best);
      return FlipFailed, best, exhausted;
    }
    RootFound(Objective(b, vols), b.spot, profile, best, root.value, exhausted);
    return Scanned(profile, root), best, exhausted;
  }

  lemma NoChange(f: real -> Value, spot: real, profile: seq<SpotGex>)
    requires |profile| == FLIP_POINTS && IsProfile(f, spot, profile) && !ChangesSign(profile)
    ensures IsFlip(f, spot, Scanned(profile, None), 0, false) && !FlipErrs(f, spot)
  {
    NoErr(f, spot, profile, 0);
  }

  lemma RootFound(f: real -> Value, spot: real, profile: seq<SpotGex>, best: nat, x: real, exhausted: bool)
    requires |profile| == FLIP_POINTS && IsProfile(f, spot, profile) && NearestOf(profile, spot, FLIP_POINTS - 1, best)
    requires FlipIn(f, profile[best], profile[best + 1], x, exhausted) && Refined(f, profile, best) == Root(x)
    ensures IsFlip(f, spot, Scanned(profile, Some(x)), best, exhausted) && !FlipErrs(f, spot)
  {
    NoErr(f, spot, profile, best);
  }

  lemma RootFailed(f: real -> Value, spot: real, profile: seq<SpotGex>, best: nat)
    requires |profile| == FLIP_POINTS && IsProfile(f, spot, profile) && NearestOf(profile, spot, FLIP_POINTS - 1, best)
    requires Refined(f, profile, best) == BadObjective && FailsNear(f, spot, best)
    ensures FlipErrs(f, spot) && FailsSomewhere(f, spot)
  {
    assert SearchErrs(f, spot, profile, best);
  }

  lemma GridFailure(b: Inputs, vols: Option<seq<real>>)
    requires exists i :: 0 <= i < FLIP_POINTS && GexAt(b, vols, Grid(b.spot, i)).NonFinite?
    ensures FlipErrs(Objective(b, vols), b.spot)
    ensures FailsSomewhere(Objective(b, vols), b.spot)
  {
    var i: nat :| 0 <= i < FLIP_POINTS && GexAt(b, vols, Grid(b.spot, i)).NonFinite?;
    assert Objective(b, vols)(Grid(b.spot, i)).NonFinite?;
    var j := if i < FLIP_POINTS - 1 then i else i - 1;
    assert Fails(Objective(b, vols), Grid(b.spot, i), Grid(b.spot, j), Grid(b.spot, j + 1));
    assert FailsNear(Objective(b, vols), b.spot, j);
  }

  method Refine(b: Inputs, vols: Option<seq<real>>, profile: seq<SpotGex>, i: nat) returns (root: Option<real>, ghost exhausted: bool)
    requires |profile| == FLIP_POINTS && IsProfile(Objective(b, vols), b.spot, profile)
    requires i < FLIP_POINTS - 1 && Changes(profile, i)
    ensures Refined(Objective(b, vols), profile, i) == (if root.Some? then Root(root.value) else BadObjective)
    ensures root.None? ==> FailsNear(Objective(b, vols), b.spot, i)
    ensures root.Some? ==> FlipIn(Objective(b, vols), profile[i], profile[i + 1], root.value, exhausted)
  {
    var f, p, q := Objective(b, vols), profile[i], profile[i + 1];
    var r;
    ghost var trace;
    r, trace, exhausted := FindRoot(f, p.spot, q.spot, DEFAULT_TOL, DEFAULT_MAX_ITER);
    ChangeBrackets(p.totalGex, q.totalGex);
    root := if r.Root? then Some(r.x) else None;
  }

  // ---------------------------------------------------------------- what the scan means

  /** The middle of the grid is spot itself, and the profile there is the snapshot's total. */
  lemma MiddleIsSnapshot(b: Inputs, vols: Option<seq<real>>, items: seq<Item>, multi: bool, s: Snapshot, profile: seq<SpotGex>)
    requires ItemsAt(b, vols, b.spot, |b.rows|) == Some(items) && IsSnapshot(items, multi, s)
    requires |profile| == FLIP_POINTS && IsProfile(Objective(b, vols), b.spot, profile)
    ensures profile[40] == SpotGex(b.spot, s.totals.gex)
  {
    assert Grid(b.spot, 40) == b.spot;
    assert Objective(b, vols)(Grid(b.spot, 40)) == Finite(profile[40].totalGex);
  }

  /** Without a change the whole profile is on one side. */
  lemma {:induction false} OneSided(profile: seq<SpotGex>, i: nat, j: nat)
    requires i <= j < |profile| && forall k :: 0 <= k < |profile| - 1 ==> !Changes(profile, k)
    ensures (profile[i].totalGex > 0.0) == (profile[j].totalGex > 0.0)
    decreases j
  {
    if i < j {
      OneSided(profile, i, j - 1);
      assert !Changes(profile, j - 1);
    }
  }

  /** No flip is reported exactly when the regime at spot holds over the whole grid. */
  lemma NoFlipOneRegime(b: Inputs, vols: Option<seq<real>>, items: seq<Item>, multi: bool, s: Snapshot, profile: seq<SpotGex>)
    requires ItemsAt(b, vols, b.spot, |b.rows|) == Some(items) && IsSnapshot(items, multi, s)
    requires |profile| == FLIP_POINTS && IsProfile(Objective(b, vols), b.spot, profile)
    ensures (forall i :: 0 <= i < FLIP_POINTS - 1 ==> !Changes(profile, i)) <==>
            (forall i :: 0 <= i < FLIP_POINTS ==> (profile[i].totalGex > 0.0) == (s.totals.gex > 0.0))
  {
    MiddleIsSnapshot(b, vols, items, multi, s, profile);
    if forall i :: 0 <= i < FLIP_POINTS - 1 ==> !Changes(profile, i) {
      forall i | 0 <= i < FLIP_POINTS ensures (profile[i].totalGex > 0.0) == (s.totals.gex > 0.0) {
        if i <= 40 {
          OneSided(profile, i, 40);
        } else {
          OneSided(profile, 40, i);
        }
      }
    }
  }

  function FromCentre(i: int): int { if 2 * i < 79 then 79 - 2 * i else 2 * i - 79 }

  lemma GridDistance(f: real -> Value, spot: real, profile: seq<SpotGex>, i: nat)
    requires spot > 0.0 && |profile| == FLIP_POINTS && IsProfile(f, spot, profile) && i < FLIP_POINTS - 1
    ensures Distance(profile, i, spot) == Mul(spot, 0.0025 * FromCentre(i) as real)
  {
    var x := i as real;
    assert (i + 1) as real == x + 1.0;
    assert Grid(spot, i) == 0.8 * spot + 0.005 * (spot * x);
    assert Grid(spot, i + 1) == 0.8 * spot + 0.005 * (spot * x) + 0.005 * spot;
    assert spot * x - 39.5 * spot == spot * (x - 39.5);
  }

  /** Nearest to spot is nearest to the middle of the grid; a tie goes to the lower interval. */
  lemma NearestIsCentral(f: real -> Value, spot: real, profile: seq<SpotGex>, i: nat, j: nat)
    requires spot > 0.0 && |profile| == FLIP_POINTS && IsProfile(f, spot, profile)
    requires NearestOf(profile, spot, FLIP_POINTS - 1, i) && j < FLIP_POINTS - 1 && Changes(profile, j)
    ensures FromCentre(i) <= FromCentre(j) && (FromCentre(i) == FromCentre(j) ==> i <= j)
  {
    GridDistance(f, spot, profile, i);
    GridDistance(f, spot, profile, j);
    if FromCentre(j) < FromCentre(i) {
      var u, v := 0.0025 * FromCentre(j) as real, 0.0025 * FromCentre(i) as real;
      MulAdd(v, u, spot);
      MulSign(spot, v - u);
    }
  }
}
