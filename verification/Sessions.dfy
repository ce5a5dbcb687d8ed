/** Sessions and the placements of flushes in them: what of a session does not depend on when the
    working chain was flushed to the book. */
module Sessions {
  import opened Common
  import opened Market
  import opened Ingest
  import opened IngestRuns
  import Holds

  /** Two recordings of one session: the same events, flushed at different moments. */
  ghost predicate Placement(es: seq<Event>, session: seq<Event>) { Erase(es) == Erase(session) }

  lemma EraseAppend(es: seq<Event>, e: Event)
    ensures Erase(es + [e]) == Erase(es) + if e.Flushed? then [] else [e]
  {
    assert (es + [e])[..|es|] == es;
  }

  // ---------------------------------------------------------------- the moment that matters

  ghost predicate Kept(e: Event, cfg: Config) { e.Discovered? && Yield(e, cfg.cal).Some? }

  /** An optcomp that is not dropped, or vendor data that matches. */
  ghost predicate Patches(s: Option<IngestState>, e: Event) {
    s.Some? && ((e.Computed? && Target(s.value, e.o) >= 0) || (e.Vendor? && AnyMatch(e.entries, s.value.rows)))
  }

  /** The last discovery that was kept, or some patch since, found (or brought) a spot the book
      accepts. */
  ghost predicate Settled(es: seq<Event>, cfg: Config) {
    es != [] &&
    var front, e := es[..|es| - 1], es[|es| - 1];
    if Kept(e, cfg) then SaneSpot(e.ev.spot)
    else Settled(front, cfg) || (Patches(Run(None, front, cfg), e) && SaneSpot(Current(Run(None, es, cfg)).spot))
  }

  /** The session up to the last discovery that was kept. */
  ghost function BeforeLast(es: seq<Event>, cfg: Config): seq<Event> {
    if es == [] then [] else
    if Kept(es[|es| - 1], cfg) then es[..|es| - 1] else BeforeLast(es[..|es| - 1], cfg)
  }

  // ---------------------------------------------------------------- flushes do not matter for it

  lemma SameEffect(s: Option<IngestState>, t: Option<IngestState>, e: Event, cfg: Config)
    requires Working(s) == Working(t)
    ensures Patches(s, e) <==> Patches(t, e)
    ensures Current(Step(s, e, cfg)).spot == Current(Step(t, e, cfg)).spot
  {
    SameWorkingStep(s, t, e, cfg);
    if e.Computed? && s.Some? {
      assert Target(s.value, e.o) == Target(t.value, e.o);
    }
  }

  lemma {:induction false} SettledErased(es: seq<Event>, cfg: Config)
    ensures Settled(es, cfg) <==> Settled(Erase(es), cfg)
  {
    if es != [] {
      var front, e := es[..|es| - 1], es[|es| - 1];
      SettledErased(front, cfg);
      if e.Flushed? {
        assert Erase(es) == Erase(front);
      } else {
        assert Erase(es) == Erase(front) + [e];
        assert (Erase(front) + [e])[..|Erase(front)|] == Erase(front);
        FlushesInvisible(None, front, cfg);
        SameEffect(Run(None, front, cfg), Run(None, Erase(front), cfg), e, cfg);
      }
    }
  }

  lemma {:induction false} BeforeErased(es: seq<Event>, cfg: Config)
    ensures Erase(BeforeLast(es, cfg)) == BeforeLast(Erase(es), cfg)
  {
    if es != [] {
      var front, e := es[..|es| - 1], es[|es| - 1];
      BeforeErased(front, cfg);
      if e.Flushed? {
        assert Erase(es) == Erase(front);
      } else {
        assert Erase(es) == Erase(front) + [e];
        assert (Erase(front) + [e])[..|Erase(front)|] == Erase(front);
      }
    }
  }

  lemma SameSession(es: seq<Event>, session: seq<Event>, cfg: Config)
    requires Placement(es, session)
    ensures Working(Run(None, es, cfg)) == Working(Run(None, session, cfg))
    ensures Settled(es, cfg) <==> Settled(session, cfg)
    ensures Placement(BeforeLast(es, cfg), BeforeLast(session, cfg))
  {
    FlushesInvisible(None, es, cfg);
    FlushesInvisible(None, session, cfg);
    SettledErased(es, cfg);
    SettledErased(session, cfg);
    BeforeErased(es, cfg);
    BeforeErased(session, cfg);
  }

  /** The book has these rows after the run. */
  ghost predicate HoldsRows(es: seq<Event>, rows: seq<Contract>, cfg: Config) {
    var b := BookOf(Run(None, es, cfg), cfg);
    b.Some? && b.value.rows == rows
  }

  // ---------------------------------------------------------------- the book as a slot

  ghost function MoveOf(s: Option<IngestState>, e: Event, cfg: Config): Holds.Move {
    if Kept(e, cfg) || (e.Vendor? && Patches(s, e)) then Holds.Force else if Patches(s, e) then Holds.Patch else Holds.Other
  }

  ghost function SightOf(s: Option<IngestState>, e: Event, cfg: Config): Holds.Sight<seq<Contract>> {
    var r := Current(Step(s, e, cfg));
    Holds.Sight(MoveOf(s, e, cfg), Accepted(r.rows, r.spot), r.rows)
  }

  /** What the events of a session do, its flushes aside. */
  ghost function Sights(es: seq<Event>, cfg: Config): (r: seq<Holds.Sight<seq<Contract>>>)
    ensures |r| == |Erase(es)|
  {
    if es == [] then [] else
    var front, e := es[..|es| - 1], es[|es| - 1];
    if e.Flushed? then Sights(front, cfg) else Sights(front, cfg) + [SightOf(Run(None, front, cfg), e, cfg)]
  }

  /** After which of them there is a flush. */
  function Flags(es: seq<Event>): (r: seq<bool>)
    ensures |r| == |Erase(es)|
  {
    if es == [] then [] else
    var fs := Flags(es[..|es| - 1]);
    if !es[|es| - 1].Flushed? then fs + [false] else if fs == [] then [] else fs[|fs| - 1 := true]
  }

  function RowsIn(b: Option<Book>): Option<seq<Contract>> { if b.Some? then Some(b.value.rows) else None }

  ghost function SlotOf(s: Option<IngestState>, cfg: Config): Holds.Slot<seq<Contract>> {
    Holds.Slot(Current(s).pending, Current(s).patchCount, RowsIn(BookOf(s, cfg)))
  }

  lemma SameSight(s: Option<IngestState>, t: Option<IngestState>, e: Event, cfg: Config)
    requires Working(s) == Working(t)
    ensures SightOf(s, e, cfg) == SightOf(t, e, cfg)
  {
    SameEffect(s, t, e, cfg);
    SameWorkingStep(s, t, e, cfg);
  }

  lemma {:induction false} SightsErased(es: seq<Event>, cfg: Config)
    ensures Sights(es, cfg) == Sights(Erase(es), cfg)
  {
    if es != [] {
      var front, e := es[..|es| - 1], es[|es| - 1];
      SightsErased(front, cfg);
      if e.Flushed? {
        assert Erase(es) == Erase(front);
      } else {
        assert Erase(es) == Erase(front) + [e];
        assert (Erase(front) + [e])[..|Erase(front)|] == Erase(front);
        FlushesInvisible(None, front, cfg);
        SameSight(Run(None, front, cfg), Run(None, Erase(front), cfg), e, cfg);
      }
    }
  }

  /** The last of them has the chain as it is now. */
  lemma {:induction false} LastSight(es: seq<Event>, cfg: Config)
    ensures var xs, s := Sights(es, cfg), Run(None, es, cfg);
            if xs == [] then s == None
            else xs[|xs| - 1].value == Current(s).rows && xs[|xs| - 1].ok == Accepted(Current(s).rows, Current(s).spot)
  {
    if es != [] {
      LastSight(es[..|es| - 1], cfg);
      if es[|es| - 1].Flushed? {
        FlushKeeps(Run(None, es[..|es| - 1], cfg), cfg);
      }
    }
  }

  lemma FlushKeeps(s: Option<IngestState>, cfg: Config)
    ensures Current(Step(s, Flushed, cfg)).rows == Current(s).rows && Current(Step(s, Flushed, cfg)).spot == Current(s).spot
    ensures Step(s, Flushed, cfg).None? <==> s.None?
  {
  }

  lemma StepPlays(s: Option<IngestState>, e: Event, cfg: Config)
    requires !e.Flushed?
    ensures SlotOf(Step(s, e, cfg), cfg) == Holds.Act(SlotOf(s, cfg), SightOf(s, e, cfg), cfg.flushAt)
  {
  }

  lemma FlushPlays(s: Option<IngestState>, x: Holds.Sight<seq<Contract>>, cfg: Config)
    requires x.value == Current(s).rows && x.ok == Accepted(Current(s).rows, Current(s).spot)
    ensures SlotOf(Step(s, Flushed, cfg), cfg) == Holds.Flushing(SlotOf(s, cfg), x, true)
  {
  }

  /** The book of a run is the slot that its events and flushes play. */
  lemma {:induction false} Plays(es: seq<Event>, cfg: Config)
    ensures SlotOf(Run(None, es, cfg), cfg) == Holds.Play(Sights(es, cfg), Flags(es), RowsIn(cfg.seed), cfg.flushAt)
  {
    if es != [] {
      var front, e := es[..|es| - 1], es[|es| - 1];
      Plays(front, cfg);
      var xs, fs := Sights(front, cfg), Flags(front);
      if !e.Flushed? {
        StepPlays(Run(None, front, cfg), e, cfg);
        Holds.PlayMore(xs, SightOf(Run(None, front, cfg), e, cfg), fs, false, RowsIn(cfg.seed), cfg.flushAt);
      } else {
        LastSight(front, cfg);
        if xs != [] {
          FlushPlays(Run(None, front, cfg), xs[|xs| - 1], cfg);
          FlushAgain(xs, fs, RowsIn(cfg.seed), cfg.flushAt);
        }
      }
    }
  }

  lemma FlushAgain<T>(xs: seq<Holds.Sight<T>>, fs: seq<bool>, seed: Option<T>, cap: nat)
    requires |fs| == |xs| && xs != []
    ensures Holds.Play(xs, fs[|fs| - 1 := true], seed, cap) == Holds.Flushing(Holds.Play(xs, fs, seed, cap), xs[|xs| - 1], true)
  {
    assert fs[|fs| - 1 := true][..|fs| - 1] == fs[..|fs| - 1];
  }

  /** Any choice of flushes is a placement. */
  lemma {:induction false} Realise(es: seq<Event>, flags: seq<bool>) returns (p: seq<Event>)
    requires |flags| == |Erase(es)|
    ensures Placement(p, es) && Flags(p) == flags
  {
    if es == [] {
      p := [];
    } else {
      var front, e := es[..|es| - 1], es[|es| - 1];
      if e.Flushed? {
        p := Realise(front, flags);
      } else {
        var k := |flags| - 1;
        var q := Realise(front, flags[..k]);
        p := PlaceLast(q, e, flags[k]);
        EraseAppend(front, e);
        assert es == front + [e] && flags == flags[..k] + [flags[k]];
      }
    }
  }

  lemma PlaceLast(q: seq<Event>, e: Event, flush: bool) returns (p: seq<Event>)
    requires !e.Flushed?
    ensures Erase(p) == Erase(q) + [e] && Flags(p) == Flags(q) + [flush]
  {
    EraseAppend(q, e);
    FlagsAppend(q, e);
    p := q + [e];
    if flush {
      EraseAppend(p, Flushed);
      FlagsAppend(p, Flushed);
      p := p + [Flushed];
    }
  }

  lemma FlagsAppend(es: seq<Event>, e: Event)
    ensures var fs := Flags(es);
            Flags(es + [e]) == if !e.Flushed? then fs + [false] else if fs == [] then [] else fs[|fs| - 1 := true]
  {
    assert (es + [e])[..|es|] == es;
  }

  /** The book has these rows in every placement of a session if and only if they stay, which is
      said of its events alone. */
  lemma HeldExact(es: seq<Event>, rows: seq<Contract>, cfg: Config)
    ensures (forall p :: Placement(p, es) ==> HoldsRows(p, rows, cfg)) <==>
            Holds.Stays(Sights(es, cfg), rows, 0, RowsIn(cfg.seed), cfg.flushAt)
  {
    var xs, seed, cap := Sights(es, cfg), RowsIn(cfg.seed), cfg.flushAt;
    Holds.StaysExact(xs, rows, seed, cap);
    forall p | Placement(p, es) ensures Sights(p, cfg) == xs && (HoldsRows(p, rows, cfg) <==> Holds.Play(xs, Flags(p), seed, cap).held == Some(rows)) {
      SightsErased(p, cfg);
      SightsErased(es, cfg);
      Plays(p, cfg);
    }
    if forall p :: Placement(p, es) ==> HoldsRows(p, rows, cfg) {
      forall flags: seq<bool> | |flags| == |xs| ensures Holds.Play(xs, flags, seed, cap).held == Some(rows) {
        var p := Realise(es, flags);
        assert HoldsRows(p, rows, cfg);
      }
    }
  }
}
