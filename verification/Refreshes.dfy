/** Vendor refreshes of open interest (core/internal/edge/vendoroi.go), which reach the core beside
    the wire: what a session is without them. */
module Refreshes {
  import opened Common
  import opened Market
  import opened Skeleton
  import opened Ingest
  import opened IngestRuns
  import opened Sessions

  function DropVendor(es: seq<Event>): seq<Event> {
    if es == [] then [] else
    DropVendor(es[..|es| - 1]) + (if es[|es| - 1].Vendor? then [] else [es[|es| - 1]])
  }

  // ---------------------------------------------------------------- chains alike but for open interest

  function Muted(c: Contract): Contract { c.(openInterest := 0.0) }

  ghost predicate AlikeRows(a: seq<Contract>, b: seq<Contract>) {
    |a| == |b| && forall i :: 0 <= i < |a| ==> Muted(a[i]) == Muted(b[i])
  }

  ghost predicate Alike(s: Option<IngestState>, t: Option<IngestState>) {
    && s.Some? == t.Some?
    && AlikeRows(Current(s).rows, Current(t).rows) && Current(s).spot == Current(t).spot
    && Current(s).byCon == Current(t).byCon && Current(s).nextSyn == Current(t).nextSyn
  }

  lemma AlikeIndex(a: seq<Contract>, b: seq<Contract>, id: Identity)
    requires AlikeRows(a, b)
    ensures IndexOf(a, id) == IndexOf(b, id)
  {
    forall i | 0 <= i < |a| ensures Id(a[i]) == Id(b[i]) {
      assert Muted(a[i]) == Muted(b[i]);
    }
    SameIndex(a, b, id);
  }

  lemma {:induction false} AlikeCounts(a: seq<Contract>, b: seq<Contract>)
    requires AlikeRows(a, b)
    ensures BareCount(a) == BareCount(b) && IndexRows(a) == IndexRows(b)
  {
    if a != [] {
      var n := |a| - 1;
      assert AlikeRows(a[..n], b[..n]);
      AlikeCounts(a[..n], b[..n]);
      assert Muted(a[n]) == Muted(b[n]);
    }
  }

  lemma AlikeStamp(a: seq<Contract>, b: seq<Contract>, base: int, nextSyn: nat)
    requires AlikeRows(a, b)
    ensures AlikeRows(Stamp(a, base, nextSyn), Stamp(b, base, nextSyn))
  {
    forall i | 0 <= i < |a| ensures Muted(Stamp(a, base, nextSyn)[i]) == Muted(Stamp(b, base, nextSyn)[i]) {
      assert Muted(a[i]) == Muted(b[i]);
      AlikeCounts(a[..i + 1], b[..i + 1]);
    }
  }

  lemma AlikeCarry(rows: seq<Contract>, a: seq<Contract>, b: seq<Contract>)
    requires AlikeRows(a, b)
    ensures AlikeRows(Carry(rows, a), Carry(rows, b))
  {
    forall i | 0 <= i < |rows| ensures Muted(Carry(rows, a)[i]) == Muted(Carry(rows, b)[i]) {
      AlikeIndex(a, b, Id(rows[i]));
      var k := IndexOf(a, Id(rows[i]));
      if k >= 0 {
        assert Muted(a[k]) == Muted(b[k]);
      }
    }
  }

  lemma AlikeAdopt(s: IngestState, t: IngestState, rows: seq<Contract>, spot: real, base: int)
    requires AlikeRows(s.rows, t.rows) && s.nextSyn == t.nextSyn
    ensures Alike(Some(Adopt(s, rows, spot, base)), Some(Adopt(t, rows, spot, base)))
  {
    AlikeCarry(rows, s.rows, t.rows);
    AlikeCounts(Carry(rows, s.rows), Carry(rows, t.rows));
    AlikeStamp(Carry(rows, s.rows), Carry(rows, t.rows), base, s.nextSyn);
    AlikeCounts(Stamp(Carry(rows, s.rows), base, s.nextSyn), Stamp(Carry(rows, t.rows), base, t.nextSyn));
  }

  lemma AlikeTarget(s: IngestState, t: IngestState, o: OptComp)
    requires AlikeRows(s.rows, t.rows) && s.byCon == t.byCon
    ensures Target(s, o) == Target(t, o)
  {
    AlikeIndex(s.rows, t.rows, IdOf(o));
    if o.conId in s.byCon && 0 <= s.byCon[o.conId] < |s.rows| {
      assert Muted(s.rows[s.byCon[o.conId]]) == Muted(t.rows[s.byCon[o.conId]]);
    }
  }

  lemma AlikeUpdated(c: Contract, d: Contract, o: OptComp, known: bool)
    requires Muted(c) == Muted(d)
    ensures Muted(Updated(c, o, known)) == Muted(Updated(d, o, known))
  {
    if known {
      AlikeAmended(c, d, o);
      AlikeQuoted(Amend(c, o), Amend(d, o), o);
    } else {
      AlikeQuoted(c.(conId := o.conId), d.(conId := o.conId), o);
    }
  }

  lemma AlikeQuoted(c: Contract, d: Contract, o: OptComp)
    requires Muted(c) == Muted(d)
    ensures Muted(Quote(c, o)) == Muted(Quote(d, o))
  {
  }

  lemma AlikeAmended(c: Contract, d: Contract, o: OptComp)
    requires Muted(c) == Muted(d)
    ensures Muted(Amend(c, o)) == Muted(Amend(d, o))
  {
  }

  lemma AlikePatched(s: IngestState, t: IngestState, o: OptComp)
    requires Alike(Some(s), Some(t)) && Target(s, o) >= 0 && Target(s, o) == Target(t, o)
    ensures Alike(Some(Patched(s, o)), Some(Patched(t, o)))
  {
    var idx := Target(s, o);
    assert Muted(s.rows[idx]) == Muted(t.rows[idx]);
    AlikeUpdated(s.rows[idx], t.rows[idx], o, o.conId in s.byCon);
  }

  lemma AlikeStep(s: Option<IngestState>, t: Option<IngestState>, e: Event, cfg: Config)
    requires Alike(s, t) && !e.Vendor?
    ensures Alike(Step(s, e, cfg), Step(t, e, cfg))
  {
    match e
    case Discovered(ev, _) =>
      if Kept(e, cfg) {
        AlikeAdopt(Opening(s, cfg), Opening(t, cfg), Yield(e, cfg.cal).value, ev.spot, cfg.base);
      }
    case Computed(o) =>
      AlikeTarget(Current(s), Current(t), o);
      if s.Some? && Target(s.value, o) >= 0 {
        AlikePatched(s.value, t.value, o);
      }
    case _ =>
  }

  lemma AlikeRefresh(s: Option<IngestState>, t: Option<IngestState>, e: Event, cfg: Config)
    requires Alike(s, t) && e.Vendor?
    ensures Alike(Step(s, e, cfg), t)
  {
    if s.Some? {
      var rows := VendorRows(e.entries, s.value.rows);
      forall i | 0 <= i < |rows| ensures Muted(rows[i]) == Muted(t.value.rows[i]) {
        assert Muted(s.value.rows[i]) == Muted(t.value.rows[i]);
      }
    }
  }

  /** Without its refreshes a session has the same working chain but for open interest. */
  lemma {:induction false} RefreshesTouchInterestOnly(es: seq<Event>, cfg: Config)
    ensures Alike(Run(None, es, cfg), Run(None, DropVendor(es), cfg))
  {
    if es != [] {
      var front, e := es[..|es| - 1], es[|es| - 1];
      RefreshesTouchInterestOnly(front, cfg);
      if e.Vendor? {
        assert DropVendor(es) == DropVendor(front);
        AlikeRefresh(Run(None, front, cfg), Run(None, DropVendor(front), cfg), e, cfg);
      } else {
        assert DropVendor(es) == DropVendor(front) + [e];
        RunExtend(None, DropVendor(front), e, cfg);
        AlikeStep(Run(None, front, cfg), Run(None, DropVendor(front), cfg), e, cfg);
      }
    }
  }

  // ---------------------------------------------------------------- what open interest a row has

  /** What a row has heard since it entered the chain: the last positive open interest of an
      optcomp, and the last value a refresh offered after that. */
  datatype Heard = Heard(told: Option<real>, offered: Option<real>)

  ghost function HeardOf(es: seq<Event>, id: Identity, cfg: Config): Heard {
    if es == [] then Heard(None, None) else
    var front, e := es[..|es| - 1], es[|es| - 1];
    Hear(HeardOf(front, id, cfg), Run(None, front, cfg), e, id, cfg)
  }

  ghost function Hear(h: Heard, s: Option<IngestState>, e: Event, id: Identity, cfg: Config): Heard {
    match e
    case Discovered(_, _) => if Kept(e, cfg) && !Has(s, id) then Heard(None, None) else h
    case Computed(o) => if s.Some? && Target(s.value, o) >= 0 && IdOf(o) == id && o.openInterest > 0.0 then Heard(Some(o.openInterest), None) else h
    case Vendor(entries) => if Has(s, id) && PickVendor(entries, RowOf(s, id)).Some? then h.(offered := PickVendor(entries, RowOf(s, id))) else h
    case _ => h
  }

  function Value(h: Heard): real {
    if h.offered.Some? then h.offered.value else if h.told.Some? then h.told.value else 0.0
  }

  lemma AdoptInterest(s: Option<IngestState>, e: Event, id: Identity, cfg: Config)
    requires Sound(Current(s)) && Kept(e, cfg) && Has(Step(s, e, cfg), id)
    ensures RowOf(Step(s, e, cfg), id).openInterest == if Has(s, id) then RowOf(s, id).openInterest else 0.0
  {
    var rows := Yield(e, cfg.cal).value;
    var a := Adopt(Opening(s, cfg), rows, e.ev.spot, cfg.base);
    var i := IndexOf(a.rows, id);
    YieldShape(e, cfg.cal);
    AdoptCarries(Opening(s, cfg), rows, e.ev.spot, cfg.base, i);
    BareInterest(Opening(s, cfg), rows, e.ev.spot, cfg.base, i);
    assert rows[i] in rows && FromEvent(e.ev, rows[i]);
  }

  lemma BareInterest(s: IngestState, rows: seq<Contract>, spot: real, base: int, i: nat)
    requires i < |rows|
    ensures IndexOf(s.rows, Id(rows[i])) < 0 ==> Adopt(s, rows, spot, base).rows[i].openInterest == rows[i].openInterest
  {
  }

  lemma IndexIsOnly(rows: seq<Contract>, i: nat)
    requires DistinctIds(rows) && i < |rows|
    ensures IndexOf(rows, Id(rows[i])) == i
  {
    var k := IndexOf(rows, Id(rows[i]));
    assert k >= 0 && Id(rows[k]) == Id(rows[i]);
  }

  lemma PatchInterest(s: IngestState, o: OptComp, id: Identity)
    requires Sound(s) && Target(s, o) >= 0 && Has(Some(s), id)
    ensures Has(Some(Patched(s, o)), id)
    ensures RowOf(Some(Patched(s, o)), id).openInterest ==
            if IdOf(o) == id && o.openInterest > 0.0 then o.openInterest else RowOf(Some(s), id).openInterest
  {
    PatchKeepsIds(s, o);
    SameIndex(s.rows, Patched(s, o).rows, id);
    IndexIsOnly(s.rows, Target(s, o));
  }

  lemma VendorInterest(s: IngestState, entries: seq<VendorEntry>, id: Identity)
    requires Has(Some(s), id)
    ensures Has(Some(OnVendor(s, entries)), id)
    ensures var oi := PickVendor(entries, RowOf(Some(s), id));
            RowOf(Some(OnVendor(s, entries)), id).openInterest == if oi.Some? then oi.value else RowOf(Some(s), id).openInterest
  {
    SameIndex(s.rows, VendorRows(entries, s.rows), id);
    if PickVendor(entries, RowOf(Some(s), id)).Some? {
      assert AnyMatch(entries, s.rows);
    }
  }

  lemma HearStep(h: Heard, s: Option<IngestState>, e: Event, id: Identity, cfg: Config)
    requires Sound(Current(s)) && Has(Step(s, e, cfg), id)
    requires Has(s, id) ==> RowOf(s, id).openInterest == Value(h)
    ensures RowOf(Step(s, e, cfg), id).openInterest == Value(Hear(h, s, e, id, cfg))
  {
    match e
    case Discovered(_, _) => if Kept(e, cfg) { AdoptInterest(s, e, id, cfg); }
    case Computed(o) => if Target(s.value, o) >= 0 { PatchedHas(s.value, o, id); PatchInterest(s.value, o, id); }
    case Vendor(entries) => VendorHas(s.value, entries, id); VendorInterest(s.value, entries, id);
    case _ =>
  }

  lemma PatchedHas(s: IngestState, o: OptComp, id: Identity)
    requires Target(s, o) >= 0
    ensures Has(Some(Patched(s, o)), id) <==> Has(Some(s), id)
  {
    PatchKeepsIds(s, o);
    SameIndex(s.rows, Patched(s, o).rows, id);
  }

  lemma VendorHas(s: IngestState, entries: seq<VendorEntry>, id: Identity)
    ensures Has(Some(OnVendor(s, entries)), id) <==> Has(Some(s), id)
  {
    SameIndex(s.rows, VendorRows(entries, s.rows), id);
  }

  /** A row's open interest is the last value offered to it, else the last one told, else none. */
  lemma {:induction false} InterestIs(es: seq<Event>, id: Identity, cfg: Config)
    requires Has(Run(None, es, cfg), id)
    ensures RowOf(Run(None, es, cfg), id).openInterest == Value(HeardOf(es, id, cfg))
  {
    var front, e := es[..|es| - 1], es[|es| - 1];
    var s := Run(None, front, cfg);
    if Has(s, id) {
      InterestIs(front, id, cfg);
    }
    RunSound(None, front, cfg);
    HearStep(HeardOf(front, id, cfg), s, e, id, cfg);
  }

  lemma {:induction false} OffersArePositive(es: seq<Event>, id: Identity, cfg: Config)
    ensures var h := HeardOf(es, id, cfg); h.offered.Some? ==> h.offered.value > 0.0
  {
    if es != [] {
      OffersArePositive(es[..|es| - 1], id, cfg);
    }
  }

  lemma AlikeHear(h: Heard, s: Option<IngestState>, t: Option<IngestState>, e: Event, id: Identity, cfg: Config)
    requires Alike(s, t) && !e.Vendor?
    ensures Hear(h.(offered := None), t, e, id, cfg) == Hear(h, s, e, id, cfg).(offered := None)
  {
    AlikeIndex(Current(s).rows, Current(t).rows, id);
    if e.Computed? {
      AlikeTarget(Current(s), Current(t), e.o);
    }
  }

  lemma {:induction false} HeardWithout(es: seq<Event>, id: Identity, cfg: Config)
    ensures HeardOf(DropVendor(es), id, cfg) == HeardOf(es, id, cfg).(offered := None)
  {
    if es != [] {
      var front, e := es[..|es| - 1], es[|es| - 1];
      HeardWithout(front, id, cfg);
      if e.Vendor? {
        assert DropVendor(es) == DropVendor(front);
      } else {
        assert DropVendor(es) == DropVendor(front) + [e];
        assert (DropVendor(front) + [e])[..|DropVendor(front)|] == DropVendor(front);
        RefreshesTouchInterestOnly(front, cfg);
        AlikeHear(HeardOf(front, id, cfg), Run(None, front, cfg), Run(None, DropVendor(front), cfg), e, id, cfg);
      }
    }
  }

  // ---------------------------------------------------------------- exactly when refreshes do not matter

  /** For every row: no refresh offered a value after the last positive open interest of an
      optcomp, or the last one that did offered just that. */
  ghost predicate Harmless(es: seq<Event>, cfg: Config) {
    forall id :: Has(Run(None, es, cfg), id) ==> HarmlessTo(es, id, cfg)
  }
  ghost predicate HarmlessTo(es: seq<Event>, id: Identity, cfg: Config) {
    var h := HeardOf(es, id, cfg);
    h.offered.None? || h.offered == h.told
  }

  lemma SameInterest(es: seq<Event>, id: Identity, cfg: Config)
    requires Has(Run(None, es, cfg), id)
    ensures Has(Run(None, DropVendor(es), cfg), id)
    ensures RowOf(Run(None, es, cfg), id).openInterest == RowOf(Run(None, DropVendor(es), cfg), id).openInterest <==> HarmlessTo(es, id, cfg)
  {
    RefreshesTouchInterestOnly(es, cfg);
    AlikeIndex(Current(Run(None, es, cfg)).rows, Current(Run(None, DropVendor(es), cfg)).rows, id);
    InterestIs(es, id, cfg);
    InterestIs(DropVendor(es), id, cfg);
    HeardWithout(es, id, cfg);
    OffersArePositive(es, id, cfg);
  }

  /** Without its refreshes a session ends with the same working chain if and only if they were
      harmless. */
  lemma RefreshExact(es: seq<Event>, cfg: Config)
    ensures Current(Run(None, es, cfg)).rows == Current(Run(None, DropVendor(es), cfg)).rows <==> Harmless(es, cfg)
  {
    var s, t := Run(None, es, cfg), Run(None, DropVendor(es), cfg);
    RefreshesTouchInterestOnly(es, cfg);
    if Current(s).rows == Current(t).rows {
      forall id | Has(s, id) ensures HarmlessTo(es, id, cfg) {
        SameInterest(es, id, cfg);
      }
    }
    if Harmless(es, cfg) {
      RunSound(None, es, cfg);
      forall i | 0 <= i < |Current(s).rows| ensures Current(s).rows[i] == Current(t).rows[i] {
        SameRow(es, i, cfg);
      }
    }
  }

  lemma SameRow(es: seq<Event>, i: nat, cfg: Config)
    requires i < |Current(Run(None, es, cfg)).rows| && Harmless(es, cfg) && Sound(Current(Run(None, es, cfg)))
    ensures i < |Current(Run(None, DropVendor(es), cfg)).rows|
    ensures Current(Run(None, es, cfg)).rows[i] == Current(Run(None, DropVendor(es), cfg)).rows[i]
  {
    var a, b := Current(Run(None, es, cfg)).rows, Current(Run(None, DropVendor(es), cfg)).rows;
    RefreshesTouchInterestOnly(es, cfg);
    IndexIsOnly(a, i);
    AlikeIndex(a, b, Id(a[i]));
    SameInterest(es, Id(a[i]), cfg);
    assert Muted(a[i]) == Muted(b[i]);
  }
}
