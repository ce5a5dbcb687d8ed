/** Replay (README.md of the repository): whether the books after a session depend on the moments
    at which the working chains were flushed to them. */
module Replay {
  import opened Common
  import opened Market
  import opened Selection
  import opened Skeleton
  import opened Ingest
  import opened IngestRuns
  import opened Sessions
  import Holds

  ghost predicate RowsAccepted(rows: seq<Contract>) { forall i :: 0 <= i < |rows| ==> RowAccepted(rows[i]) }

  /** After the run and a final flush the book is the working chain. */
  ghost predicate Follows(es: seq<Event>, cfg: Config) {
    var end := Step(Run(None, es, cfg), Flushed, cfg);
    end.Some? && end.value.book == Some(Book(end.value.rows, end.value.spot))
  }

  // ---------------------------------------------------------------- what every run keeps

  /** Once settled, the book lags an acceptable chain only while patches are pending. */
  ghost predicate Tracks(s: IngestState) {
    SaneSpot(s.spot) && (RowsAccepted(s.rows) && !s.pending ==> s.book == Some(Book(s.rows, s.spot)))
  }

  ghost predicate SameRows(b: Option<Book>, b': Option<Book>) {
    b.Some? == b'.Some? && (b.Some? ==> b.value.rows == b'.value.rows)
  }

  /** Until then it is the chain, or has the rows it had before the last discovery. */
  ghost predicate Stale(s: IngestState, before: Option<Book>) {
    && (SaneSpot(s.spot) && s.book.Some? ==> s.book.value.spot == s.spot)
    && (SameRows(s.book, before) || s.book == Some(Book(s.rows, s.spot)))
  }

  ghost predicate Kind(s: Option<IngestState>, settled: bool, before: Option<Book>, cfg: Config) {
    BookSane(BookOf(s, cfg)) && (s.Some? ==> if settled then Tracks(s.value) else Stale(s.value, before))
  }

  ghost predicate RunKind(es: seq<Event>, cfg: Config) {
    Kind(Run(None, es, cfg), Settled(es, cfg), BookOf(Run(None, BeforeLast(es, cfg), cfg), cfg), cfg)
  }

  lemma PublishKind(s: IngestState, before: Option<Book>, settled: bool, cfg: Config)
    requires Kind(Some(s), settled, before, cfg) && s.pending
    ensures Kind(Some(Flush(s)), settled, before, cfg)
  {
  }

  lemma AdoptKind(s: Option<IngestState>, e: Event, cfg: Config)
    requires BookSane(BookOf(s, cfg)) && Kept(e, cfg)
    ensures Kind(Step(s, e, cfg), SaneSpot(e.ev.spot), BookOf(s, cfg), cfg)
  {
  }

  lemma PatchKind(s: IngestState, e: Event, cfg: Config, settled: bool, before: Option<Book>)
    requires Kind(Some(s), settled, before, cfg) && Patches(Some(s), e)
    ensures Kind(Step(Some(s), e, cfg), settled || SaneSpot(Current(Step(Some(s), e, cfg)).spot), before, cfg)
  {
    if e.Computed? {
      var p := Patched(s, e.o);
      assert Kind(Some(p), settled || SaneSpot(p.spot), before, cfg);
      PublishKind(p, before, settled || SaneSpot(p.spot), cfg);
    } else {
      var p := s.(rows := VendorRows(e.entries, s.rows), pending := true);
      assert Kind(Some(p), settled || SaneSpot(p.spot), before, cfg);
      PublishKind(p, before, settled || SaneSpot(p.spot), cfg);
    }
  }

  lemma OtherKind(s: Option<IngestState>, e: Event, cfg: Config, settled: bool, before: Option<Book>)
    requires Kind(s, settled, before, cfg) && !Kept(e, cfg) && !Patches(s, e)
    ensures Kind(Step(s, e, cfg), settled, before, cfg)
  {
    if e.Flushed? && s.Some? && s.value.pending {
      PublishKind(s.value, before, settled, cfg);
    }
  }

  lemma {:induction false} EveryRunKind(es: seq<Event>, cfg: Config)
    ensures RunKind(es, cfg)
  {
    if es != [] {
      var front, e := es[..|es| - 1], es[|es| - 1];
      EveryRunKind(front, cfg);
      var s, before := Run(None, front, cfg), BookOf(Run(None, BeforeLast(front, cfg), cfg), cfg);
      if Kept(e, cfg) {
        AdoptKind(s, e, cfg);
      } else if Patches(s, e) {
        PatchKind(s.value, e, cfg, Settled(front, cfg), before);
      } else {
        OtherKind(s, e, cfg, Settled(front, cfg), before);
      }
    }
  }

  // ---------------------------------------------------------------- exactly when replay holds

  /** A settled session ends with the working chain as its book, wherever its flushes fell, if
      and only if every row of that chain is one the book accepts. */
  lemma SettledReplay(es: seq<Event>, cfg: Config)
    requires Settled(es, cfg) && Run(None, es, cfg).Some?
    ensures Follows(es, cfg) <==> RowsAccepted(Run(None, es, cfg).value.rows)
  {
    EveryRunKind(es, cfg);
    FlushFollows(Run(None, es, cfg).value, BookOf(Run(None, BeforeLast(es, cfg), cfg), cfg), cfg);
  }

  lemma FlushFollows(s: IngestState, before: Option<Book>, cfg: Config)
    requires Kind(Some(s), true, before, cfg)
    ensures var end := Flush(s);
            end.rows == s.rows && end.spot == s.spot && (end.book == Some(Book(s.rows, s.spot)) <==> RowsAccepted(s.rows))
  {
  }

  /** What the book refuses, row by row: exactly when a settled session does not end with its chain. */
  lemma SettledRefused(es: seq<Event>, cfg: Config)
    requires Settled(es, cfg) && Run(None, es, cfg).Some?
    ensures !Follows(es, cfg) <==>
            exists i :: 0 <= i < |Run(None, es, cfg).value.rows| &&
                        var c := Run(None, es, cfg).value.rows[i];
                        || c.strike <= 0.0 || (c.right != "C" && c.right != "P") || c.openInterest < 0.0 || c.bid < 0.0 || c.ask < 0.0
                        || (c.settlement != "" && c.settlement != "AM" && c.settlement != "PM")
  {
    SettledReplay(es, cfg);
    RunSound(None, es, cfg);
  }

  /** Whatever happens, the book holds no such row and no spot out of bounds. */
  lemma BookHolds(es: seq<Event>, cfg: Config)
    requires BookOf(Run(None, es, cfg), cfg).Some?
    ensures var b := BookOf(Run(None, es, cfg), cfg).value;
            && 0.0 < b.spot < 1_000_000_000.0
            && forall i :: 0 <= i < |b.rows| ==>
                 var c := b.rows[i];
                 && c.conId != 0 && c.strike > 0.0 && (c.right == "C" || c.right == "P") && c.openInterest >= 0.0
                 && c.bid >= 0.0 && c.ask >= 0.0 && (c.settlement == "" || c.settlement == "AM" || c.settlement == "PM")
  {
    EveryRunKind(es, cfg);
  }

  /** The events up to the last kept discovery leave these rows in the book: the last of them that
      hands a chain over at once hands over these, or is refused after events that leave them, and
      no patch since could have handed over others. */
  ghost predicate HeldBefore(session: seq<Event>, rows: seq<Contract>, cfg: Config) {
    Holds.Stays(Sights(BeforeLast(session, cfg), cfg), rows, 0, RowsIn(cfg.seed), cfg.flushAt)
  }

  /** What a session must meet: every row acceptable, and either settled, or back at a sane spot
      with the rows the book already had. */
  ghost predicate Replayable(session: seq<Event>, cfg: Config) {
    var w := Current(Run(None, session, cfg));
    Run(None, session, cfg).Some? && RowsAccepted(w.rows) && (Settled(session, cfg) || (SaneSpot(w.spot) && HeldBefore(session, w.rows, cfg)))
  }

  lemma ReplayHolds(es: seq<Event>, session: seq<Event>, cfg: Config)
    requires Placement(es, session) && Replayable(session, cfg)
    ensures Follows(es, cfg)
  {
    SameSession(es, session, cfg);
    if Settled(es, cfg) {
      SettledReplay(es, cfg);
    } else {
      HeldExact(BeforeLast(session, cfg), Run(None, session, cfg).value.rows, cfg);
      UnsettledReplay(es, cfg);
    }
  }

  lemma UnsettledReplay(es: seq<Event>, cfg: Config)
    requires !Settled(es, cfg) && Run(None, es, cfg).Some? && SaneSpot(Run(None, es, cfg).value.spot)
    requires HoldsRows(BeforeLast(es, cfg), Run(None, es, cfg).value.rows, cfg)
    ensures Follows(es, cfg)
  {
    EveryRunKind(es, cfg);
    UnsettledFollows(Run(None, es, cfg).value, BookOf(Run(None, BeforeLast(es, cfg), cfg), cfg), cfg);
  }

  lemma UnsettledFollows(s: IngestState, before: Option<Book>, cfg: Config)
    requires Kind(Some(s), false, before, cfg) && before.Some? && before.value.rows == s.rows && SaneSpot(s.spot)
    ensures Flush(s).book == Some(Book(s.rows, s.spot))
  {
  }

  // ---------------------------------------------------------------- the placement that fails

  /** The session flushed after every event since its last kept discovery, after p. */
  ghost function Stalled(es: seq<Event>, p: seq<Event>, cfg: Config): seq<Event> {
    if es == [] then p else
    var front, e := es[..|es| - 1], es[|es| - 1];
    if Kept(e, cfg) then p + [e] else
    Stalled(front, p, cfg) + (if e.Flushed? then [Flushed] else [e, Flushed])
  }

  lemma {:induction false} StalledPlacement(es: seq<Event>, p: seq<Event>, cfg: Config)
    requires Placement(p, BeforeLast(es, cfg))
    ensures Placement(Stalled(es, p, cfg), es)
  {
    if es != [] {
      var front, e := es[..|es| - 1], es[|es| - 1];
      if Kept(e, cfg) {
        EraseAppend(p, e);
      } else {
        StalledPlacement(front, p, cfg);
        var s := Stalled(front, p, cfg);
        EraseAppend(s, e);
        EraseAppend(s + [e], Flushed);
        assert s + [e, Flushed] == s + [e] + [Flushed];
      }
    }
  }

  /** What a flush after an event leaves of an unsettled state: nothing pending, the old rows. */
  lemma StalledStep(s: IngestState, e: Event, cfg: Config, before: Option<Book>)
    requires !s.pending && SameRows(s.book, before) && !Kept(e, cfg)
    requires Patches(Some(s), e) ==> !SaneSpot(Current(Step(Some(s), e, cfg)).spot)
    ensures var r := Step(Step(Some(s), e, cfg), Flushed, cfg);
            r.Some? && !r.value.pending && SameRows(r.value.book, before)
  {
  }

  lemma {:induction false} StalledStale(es: seq<Event>, p: seq<Event>, cfg: Config)
    requires Run(None, es, cfg).Some? && !Settled(es, cfg) && Placement(p, BeforeLast(es, cfg))
    ensures var s := Run(None, Stalled(es, p, cfg), cfg);
            s.Some? && !s.value.pending && SameRows(s.value.book, BookOf(Run(None, p, cfg), cfg))
  {
    var front, e := es[..|es| - 1], es[|es| - 1];
    if Kept(e, cfg) {
      RunExtend(None, p, e, cfg);
    } else {
      StalledStale(front, p, cfg);
      StalledPlacement(front, p, cfg);
      StalledNext(es, Stalled(front, p, cfg), BookOf(Run(None, p, cfg), cfg), cfg);
    }
  }

  lemma {:induction false} StalledNext(es: seq<Event>, q: seq<Event>, before: Option<Book>, cfg: Config)
    requires es != [] && !Settled(es, cfg) && !Kept(es[|es| - 1], cfg) && Placement(q, es[..|es| - 1])
    requires var s := Run(None, q, cfg); s.Some? && !s.value.pending && SameRows(s.value.book, before)
    ensures var e := es[|es| - 1];
            var s := Run(None, q + (if e.Flushed? then [Flushed] else [e, Flushed]), cfg);
            s.Some? && !s.value.pending && SameRows(s.value.book, before)
  {
    var front, e := es[..|es| - 1], es[|es| - 1];
    SameSession(q, front, cfg);
    SameEffect(Run(None, q, cfg), Run(None, front, cfg), e, cfg);
    StalledStep(Run(None, q, cfg).value, e, cfg, before);
    RunExtend(None, q, e, cfg);
    RunExtend(None, q + [e], Flushed, cfg);
    assert q + [e, Flushed] == q + [e] + [Flushed];
  }

  lemma ReplayNeeds(session: seq<Event>, cfg: Config)
    requires forall es :: Placement(es, session) ==> Follows(es, cfg)
    ensures Replayable(session, cfg)
  {
    assert Placement(session, session);
    var w := Run(None, session, cfg).value;
    EveryRunKind(session, cfg);
    FollowedIsSane(w, cfg);
    if !Settled(session, cfg) {
      forall p | Placement(p, BeforeLast(session, cfg)) ensures HoldsRows(p, w.rows, cfg) {
        StalledPlacement(session, p, cfg);
        StalledStale(session, p, cfg);
        SameSession(Stalled(session, p, cfg), session, cfg);
        assert Follows(Stalled(session, p, cfg), cfg);
      }
      HeldExact(BeforeLast(session, cfg), w.rows, cfg);
    }
  }

  lemma FollowedIsSane(w: IngestState, cfg: Config)
    requires BookSane(w.book) && Flush(w).book == Some(Book(w.rows, w.spot))
    ensures RowsAccepted(w.rows) && SaneSpot(w.spot)
  {
  }

  /** Replay, exactly: every placement of flushes in a session ends with the session's working
      chain as its book if and only if the session is replayable. */
  lemma ReplayExact(session: seq<Event>, cfg: Config)
    ensures (forall es :: Placement(es, session) ==> Follows(es, cfg)) <==> Replayable(session, cfg)
  {
    if Replayable(session, cfg) {
      forall es | Placement(es, session) ensures Follows(es, cfg) {
        ReplayHolds(es, session, cfg);
      }
    }
    if forall es :: Placement(es, session) ==> Follows(es, cfg) {
      ReplayNeeds(session, cfg);
    }
  }

  /** With one kept discovery only, that is: acceptable rows in a settled session. */
  lemma FirstDiscoveryExact(session: seq<Event>, cfg: Config)
    requires Run(None, session, cfg).Some? && Run(None, BeforeLast(session, cfg), cfg).None? && cfg.seed.None?
    ensures Replayable(session, cfg) <==> RowsAccepted(Run(None, session, cfg).value.rows) && Settled(session, cfg)
  {
    var before := BeforeLast(session, cfg);
    HeldExact(before, Run(None, session, cfg).value.rows, cfg);
    assert Placement(before, before);
    assert !HoldsRows(before, Run(None, session, cfg).value.rows, cfg);
  }

  // ---------------------------------------------------------------- a condition on single events

  /** An event the book has no reason to refuse. */
  ghost predicate Clean(e: Event) {
    match e
    case Discovered(ev, _) =>
      && ev.spot < 1_000_000_000.0
      && (forall k :: k in ev.strikes ==> k > 0.0)
      && (forall l :: l in ev.listings ==> KnownSettlement(l.settlement))
    case Computed(o) =>
      KnownSettlement(o.settlement) && (o.bid > 0.0 || o.ask > 0.0 ==> o.bid >= 0.0 && o.ask >= 0.0)
    case _ => true
  }

  /** A row fresh from a clean discovery. */
  ghost predicate Discovery(c: Contract) {
    Bare(c) && c.strike > 0.0 && KnownSettlement(c.settlement)
  }

  lemma CarriedAccepted(rows: seq<Contract>, prev: seq<Contract>, base: int, nextSyn: nat)
    requires forall i :: 0 <= i < |rows| ==> Discovery(rows[i])
    requires forall i :: 0 <= i < |prev| ==> RowAccepted(prev[i])
    requires var a := Stamp(Carry(rows, prev), base, nextSyn);
             forall i :: 0 <= i < |a| ==> a[i].conId != 0
    ensures var a := Stamp(Carry(rows, prev), base, nextSyn);
            forall i :: 0 <= i < |a| ==> RowAccepted(a[i])
  {
    var carried := Carry(rows, prev);
    var a := Stamp(carried, base, nextSyn);
    forall i | 0 <= i < |a| ensures RowAccepted(a[i]) {
      assert Discovery(rows[i]) && carried[i] == CarryRow(rows[i], prev);
      assert a[i] == carried[i].(conId := a[i].conId);
    }
  }

  lemma CleanYield(e: Event, cal: Calendar)
    requires e.Discovered? && Clean(e) && Yield(e, cal).Some?
    ensures var rows := Yield(e, cal).value;
            forall i :: 0 <= i < |rows| ==> Discovery(rows[i])
  {
    YieldShape(e, cal);
    var rows := Yield(e, cal).value;
    forall i | 0 <= i < |rows| ensures Discovery(rows[i]) {
      assert rows[i] in rows && FromEvent(e.ev, rows[i]);
    }
  }

  lemma CleanSpot(e: Event, cal: Calendar)
    requires e.Discovered? && Clean(e) && Yield(e, cal).Some?
    ensures SaneSpot(e.ev.spot)
  {
    UniverseIsProduct(e.ev);
    SelectedShape(Universe(e.ev), e.today, cal);
    FilteredSpot(SelectedByClass(Universe(e.ev), e.today, cal).value, e.ev.spot, e.ev.baselineIv, e.today);
  }

  lemma AdoptAccepted(s: IngestState, e: Event, cfg: Config)
    requires Sound(s) && Kept(e, cfg) && Clean(e) && RowsAccepted(s.rows)
    ensures RowsAccepted(Adopt(s, Yield(e, cfg.cal).value, e.ev.spot, cfg.base).rows)
  {
    YieldShape(e, cfg.cal);
    CleanYield(e, cfg.cal);
    AdoptSound(s, Yield(e, cfg.cal).value, e.ev.spot, cfg.base);
    CarriedAccepted(Yield(e, cfg.cal).value, s.rows, cfg.base, s.nextSyn);
  }

  lemma UpdatedAccepted(c: Contract, o: OptComp, known: bool)
    requires RowAccepted(c) && Clean(Computed(o)) && o.conId != 0
    ensures RowAccepted(Updated(c, o, known))
  {
    var d := if known then Amend(c, o) else c.(conId := o.conId);
    assert RowAccepted(d);
  }

  lemma CleanStep(s: Option<IngestState>, e: Event, cfg: Config)
    requires Sound(Current(s)) && Clean(e) && RowsAccepted(Current(s).rows)
    ensures RowsAccepted(Current(Step(s, e, cfg)).rows)
  {
    if Kept(e, cfg) {
      AdoptAccepted(Opening(s, cfg), e, cfg);
    } else if Patches(s, e) && e.Computed? {
      UpdatedAccepted(s.value.rows[Target(s.value, e.o)], e.o, e.o.conId in s.value.byCon);
    }
  }

  ghost predicate AllClean(es: seq<Event>) { forall i :: 0 <= i < |es| ==> Clean(es[i]) }

  /** A session of clean events has acceptable rows only and is settled, so it is replayable. */
  lemma {:induction false} CleanSession(es: seq<Event>, cfg: Config)
    requires AllClean(es)
    ensures RowsAccepted(Current(Run(None, es, cfg)).rows)
    ensures Run(None, es, cfg).Some? ==> Settled(es, cfg)
  {
    if es != [] {
      var front, e := es[..|es| - 1], es[|es| - 1];
      CleanSession(front, cfg);
      RunSound(None, front, cfg);
      CleanStep(Run(None, front, cfg), e, cfg);
      if Kept(e, cfg) {
        CleanSpot(e, cfg.cal);
      }
    }
  }
}
