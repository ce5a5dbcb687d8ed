/** The whole ingest core, all tickers together (core/internal/edge/ingest.go, vendoroi.go), the
    service's free slot (core/internal/app/edge.go), and the journal: it holds the lines of the wire
    (core/internal/edge/server.go) and neither flushes nor vendor refreshes. */
module Journal {
  import opened Common
  import opened Market
  import opened Ingest
  import opened IngestRuns
  import opened Sessions
  import opened Refreshes
  import opened Replay

  type WireEvent = e: Event | !e.Flushed? && !e.Vendor? witness Ticked(0.0)

  datatype CoreEvent = Wire(ticker: string, e: WireEvent) | Refresh(ticker: string, entries: seq<VendorEntry>) | FlushAll

  /** watchlist are the tickers with a book of their own, custom the one in the free slot, if any;
      seeds are the books they start with. */
  datatype CoreConfig = CoreConfig(slotOf: string -> nat, flushAt: Positive, cal: Calendar,
                                   watchlist: set<string>, custom: Option<string>, seeds: map<string, HeldBook>)

  ghost function ConfigOf(cc: CoreConfig, ticker: string): Config {
    Config(cc.slotOf(ticker), cc.flushAt, cc.cal, if ticker in cc.seeds then cc.seeds[ticker] else None)
  }

  ghost function Get(core: map<string, IngestState>, t: string): Option<IngestState> {
    if t in core then Some(core[t]) else None
  }

  ghost function At(core: map<string, IngestState>, t: string, e: Event, cc: CoreConfig): map<string, IngestState> {
    match Step(Get(core, t), e, ConfigOf(cc, t))
    case None => core
    case Some(s) => core[t := s]
  }

  /** `FlushAll` flushes every pending ticker; anything else concerns one ticker. */
  ghost function CoreStep(core: map<string, IngestState>, ce: CoreEvent, cc: CoreConfig): map<string, IngestState> {
    match ce
    case FlushAll => map t | t in core :: Flush(core[t])
    case Wire(t, e) => At(core, t, e, cc)
    case Refresh(t, entries) => At(core, t, Vendor(entries), cc)
  }

  ghost function CoreRun(ces: seq<CoreEvent>, cc: CoreConfig): map<string, IngestState> {
    if ces == [] then map[] else CoreStep(CoreRun(ces[..|ces| - 1], cc), ces[|ces| - 1], cc)
  }

  /** What ticker t sees of an event, and of a run. */
  function Seen(ce: CoreEvent, t: string): seq<Event> {
    match ce
    case FlushAll => [Flushed]
    case Wire(u, e) => if u == t then [e] else []
    case Refresh(u, entries) => if u == t then [Vendor(entries)] else []
  }
  function Project(ces: seq<CoreEvent>, t: string): seq<Event> {
    if ces == [] then [] else Project(ces[..|ces| - 1], t) + Seen(ces[|ces| - 1], t)
  }

  lemma CoreStepAt(core: map<string, IngestState>, ce: CoreEvent, cc: CoreConfig, t: string)
    ensures Get(CoreStep(core, ce, cc), t) ==
            if Seen(ce, t) == [] then Get(core, t) else Step(Get(core, t), Seen(ce, t)[0], ConfigOf(cc, t))
  {
  }

  /** Working chains do not influence each other: each ticker's state is its own run. */
  lemma {:induction false} TickersIndependent(ces: seq<CoreEvent>, cc: CoreConfig, t: string)
    ensures Get(CoreRun(ces, cc), t) == Run(None, Project(ces, t), ConfigOf(cc, t))
  {
    if ces != [] {
      var n := |ces| - 1;
      TickersIndependent(ces[..n], cc, t);
      CoreStepAt(CoreRun(ces[..n], cc), ces[n], cc, t);
      var seen, more := Project(ces[..n], t), Seen(ces[n], t);
      if more == [] {
        assert Project(ces, t) == seen;
      } else {
        assert Project(ces, t) == seen + [more[0]];
        RunExtend(None, seen, more[0], ConfigOf(cc, t));
      }
    }
  }

  // ---------------------------------------------------------------- which tickers have a book

  /** The ticker of a kept discovery of a ticker without a book of its own. */
  ghost function ClaimOf(ce: CoreEvent, cc: CoreConfig): Option<string> {
    if ce.Wire? && ce.ticker !in cc.watchlist && Kept(ce.e, ConfigOf(cc, ce.ticker)) then Some(ce.ticker) else None
  }

  /** Who holds the free slot: it is taken when a chain is handed over for a ticker without a book. */
  ghost function Custom(ces: seq<CoreEvent>, cc: CoreConfig): Option<string> {
    if ces == [] then cc.custom else
    Taken(Custom(ces[..|ces| - 1], cc), ClaimOf(ces[|ces| - 1], cc))
  }
  function Taken(slot: Option<string>, claim: Option<string>): Option<string> { if slot.None? then claim else slot }

  ghost function Claims(ces: seq<CoreEvent>, cc: CoreConfig): seq<Option<string>> {
    if ces == [] then [] else
    Claims(ces[..|ces| - 1], cc) + [ClaimOf(ces[|ces| - 1], cc)]
  }

  /** The first of some claims. */
  ghost predicate FirstOf(claims: seq<Option<string>>, t: Option<string>) {
    if t.None? then forall j :: 0 <= j < |claims| ==> claims[j].None?
    else exists i :: 0 <= i < |claims| && claims[i] == t && forall j :: 0 <= j < i ==> claims[j].None?
  }

  lemma FirstMore(claims: seq<Option<string>>, t: Option<string>, next: Option<string>)
    requires FirstOf(claims, t)
    ensures FirstOf(claims + [next], Taken(t, next))
  {
    var more := claims + [next];
    if t.Some? {
      var i :| 0 <= i < |claims| && claims[i] == t && forall j :: 0 <= j < i ==> claims[j].None?;
      assert more[i] == t;
    } else if next.Some? {
      assert more[|claims|] == next;
    }
  }

  /** An occupied slot stays with its ticker; a free one goes to the first claim, if there is one. */
  lemma {:induction false} CustomIs(ces: seq<CoreEvent>, cc: CoreConfig)
    ensures if cc.custom.Some? then Custom(ces, cc) == cc.custom else FirstOf(Claims(ces, cc), Custom(ces, cc))
  {
    if ces != [] {
      var front, ce := ces[..|ces| - 1], ces[|ces| - 1];
      CustomIs(front, cc);
      if cc.custom.None? {
        FirstMore(Claims(front, cc), Custom(front, cc), ClaimOf(ce, cc));
      }
    }
  }

  ghost predicate Admitted(ces: seq<CoreEvent>, cc: CoreConfig, t: string) {
    t in cc.watchlist || Custom(ces, cc) == Some(t)
  }

  /** The core after the run and a final flush. */
  ghost function End(ces: seq<CoreEvent>, cc: CoreConfig): map<string, IngestState> {
    CoreStep(CoreRun(ces, cc), FlushAll, cc)
  }

  /** The service's book of a ticker then; a ticker that is not admitted has none. */
  ghost function BookAt(ces: seq<CoreEvent>, cc: CoreConfig, t: string): Option<Book> {
    if Admitted(ces, cc, t) then BookOf(Get(End(ces, cc), t), ConfigOf(cc, t)) else None
  }

  ghost predicate SameBooks(a: seq<CoreEvent>, b: seq<CoreEvent>, cc: CoreConfig) {
    forall t :: BookAt(a, cc, t) == BookAt(b, cc, t)
  }

  // ---------------------------------------------------------------- recordings and journals

  /** A run without its flushes, and the lines of the wire alone. */
  function Unflushed(ces: seq<CoreEvent>): seq<CoreEvent> {
    if ces == [] then [] else
    Unflushed(ces[..|ces| - 1]) + (if ces[|ces| - 1].FlushAll? then [] else [ces[|ces| - 1]])
  }
  function Journaled(ces: seq<CoreEvent>): seq<CoreEvent> {
    if ces == [] then [] else
    Journaled(ces[..|ces| - 1]) + (if ces[|ces| - 1].Wire? then [ces[|ces| - 1]] else [])
  }

  /** The same events, flushed at other moments.  A replay of a run is a recording of its journal. */
  ghost predicate Recording(ces: seq<CoreEvent>, run: seq<CoreEvent>) { Unflushed(ces) == Unflushed(run) }

  lemma AppendCore(ces: seq<CoreEvent>, ce: CoreEvent)
    ensures Unflushed(ces + [ce]) == if ce.FlushAll? then Unflushed(ces) else Unflushed(ces) + [ce]
    ensures Journaled(ces + [ce]) == if ce.Wire? then Journaled(ces) + [ce] else Journaled(ces)
  {
    assert (ces + [ce])[..|ces|] == ces;
  }

  lemma AppendSeen(ces: seq<CoreEvent>, ce: CoreEvent, t: string)
    ensures Project(ces + [ce], t) == Project(ces, t) + Seen(ce, t)
  {
    assert (ces + [ce])[..|ces|] == ces;
  }

  lemma EraseSeen(es: seq<Event>, ce: CoreEvent, t: string)
    ensures Erase(es + Seen(ce, t)) == if ce.FlushAll? then Erase(es) else Erase(es) + Seen(ce, t)
  {
    if Seen(ce, t) == [] {
      assert es + Seen(ce, t) == es;
    } else {
      EraseAppend(es, Seen(ce, t)[0]);
      assert Seen(ce, t) == [Seen(ce, t)[0]];
    }
  }

  lemma {:induction false} UnflushedSeen(ces: seq<CoreEvent>, t: string)
    ensures Erase(Project(ces, t)) == Erase(Project(Unflushed(ces), t))
  {
    if ces != [] {
      var front, ce := ces[..|ces| - 1], ces[|ces| - 1];
      UnflushedSeen(front, t);
      EraseSeen(Project(front, t), ce, t);
      if ce.FlushAll? {
        assert Unflushed(ces) == Unflushed(front);
      } else {
        AppendSeen(Unflushed(front), ce, t);
        EraseSeen(Project(Unflushed(front), t), ce, t);
      }
    }
  }

  lemma {:induction false} JournaledSeen(ces: seq<CoreEvent>, t: string)
    ensures Erase(Project(Journaled(ces), t)) == Erase(DropVendor(Project(ces, t)))
  {
    if ces != [] {
      var front, ce := ces[..|ces| - 1], ces[|ces| - 1];
      JournaledSeen(front, t);
      DropSeen(Project(front, t), ce, t);
      if ce.Wire? {
        AppendSeen(Journaled(front), ce, t);
        EraseSeen(Project(Journaled(front), t), ce, t);
      } else {
        assert Journaled(ces) == Journaled(front);
      }
    }
  }

  lemma DropSeen(es: seq<Event>, ce: CoreEvent, t: string)
    ensures Erase(DropVendor(es + Seen(ce, t))) == if ce.Wire? then Erase(DropVendor(es)) + Seen(ce, t) else Erase(DropVendor(es))
  {
    if Seen(ce, t) == [] {
      assert es + Seen(ce, t) == es;
    } else {
      var e := Seen(ce, t)[0];
      assert es + Seen(ce, t) == es + [e];
      assert (es + [e])[..|es|] == es;
      if !e.Vendor? {
        assert DropVendor(es + [e]) == DropVendor(es) + [e];
        EraseAppend(DropVendor(es), e);
      } else {
        assert DropVendor(es + [e]) == DropVendor(es);
      }
    }
  }

  lemma CustomAppend(ces: seq<CoreEvent>, ce: CoreEvent, cc: CoreConfig)
    ensures Custom(ces + [ce], cc) == Taken(Custom(ces, cc), ClaimOf(ce, cc))
  {
    assert (ces + [ce])[..|ces|] == ces && (ces + [ce])[|ces|] == ce;
  }

  lemma {:induction false} CustomJournaled(ces: seq<CoreEvent>, cc: CoreConfig)
    ensures Custom(Journaled(ces), cc) == Custom(ces, cc)
  {
    if ces != [] {
      var front, ce := ces[..|ces| - 1], ces[|ces| - 1];
      CustomJournaled(front, cc);
      JournaledLast(ces);
      if ce.Wire? {
        CustomAppend(Journaled(front), ce, cc);
      } else {
        NoClaim(ce, cc);
      }
    }
  }

  lemma JournaledLast(ces: seq<CoreEvent>)
    requires ces != []
    ensures var front, ce := ces[..|ces| - 1], ces[|ces| - 1];
            Journaled(ces) == if ce.Wire? then Journaled(front) + [ce] else Journaled(front)
  {
    assert Journaled(ces[..|ces| - 1]) + [] == Journaled(ces[..|ces| - 1]);
  }

  lemma NoClaim(ce: CoreEvent, cc: CoreConfig)
    requires !ce.Wire?
    ensures ClaimOf(ce, cc) == None
  {
  }

  lemma {:induction false} JournaledUnflushed(ces: seq<CoreEvent>)
    ensures Journaled(Unflushed(ces)) == Journaled(ces) && Journaled(Journaled(ces)) == Journaled(ces)
  {
    if ces != [] {
      var front, ce := ces[..|ces| - 1], ces[|ces| - 1];
      JournaledUnflushed(front);
      if ce.FlushAll? {
        assert Unflushed(ces) == Unflushed(front) && Journaled(ces) == Journaled(front);
      } else {
        AppendCore(Unflushed(front), ce);
        AppendCore(Journaled(front), ce);
        assert !ce.Wire? ==> Journaled(ces) == Journaled(front);
      }
    }
  }

  /** Admission goes by the wire alone. */
  lemma SameAdmission(a: seq<CoreEvent>, b: seq<CoreEvent>, cc: CoreConfig, t: string)
    requires Journaled(a) == Journaled(b)
    ensures Admitted(a, cc, t) <==> Admitted(b, cc, t)
  {
    CustomJournaled(a, cc);
    CustomJournaled(b, cc);
  }

  lemma RecordingJournals(a: seq<CoreEvent>, run: seq<CoreEvent>)
    requires Recording(a, run)
    ensures Journaled(a) == Journaled(run)
  {
    JournaledUnflushed(a);
    JournaledUnflushed(run);
  }

  lemma SameTickers(ces: seq<CoreEvent>, run: seq<CoreEvent>, cc: CoreConfig, t: string)
    requires Recording(ces, run)
    ensures Placement(Project(ces, t), Project(run, t))
    ensures Working(Get(CoreRun(ces, cc), t)) == Working(Get(CoreRun(run, cc), t))
    ensures Admitted(ces, cc, t) <==> Admitted(run, cc, t)
  {
    UnflushedSeen(ces, t);
    UnflushedSeen(run, t);
    SameSession(Project(ces, t), Project(run, t), ConfigOf(cc, t));
    TickersIndependent(ces, cc, t);
    TickersIndependent(run, cc, t);
    RecordingJournals(ces, run);
    SameAdmission(ces, run, cc, t);
  }

  // ---------------------------------------------------------------- recordings of one run

  /** Tickers that were discovered and have a book. */
  ghost predicate Booked(ces: seq<CoreEvent>, cc: CoreConfig, t: string) { t in CoreRun(ces, cc) && Admitted(ces, cc, t) }

  /** Every book is its ticker's working chain. */
  ghost predicate AllFollow(ces: seq<CoreEvent>, cc: CoreConfig) {
    forall t :: Booked(ces, cc, t) ==> Follows(Project(ces, t), ConfigOf(cc, t))
  }

  ghost predicate AllReplayable(run: seq<CoreEvent>, cc: CoreConfig) {
    forall t :: Booked(run, cc, t) ==> Replayable(Project(run, t), ConfigOf(cc, t))
  }

  /** That is what `AllFollow` says of the books. */
  lemma FollowsMeans(ces: seq<CoreEvent>, cc: CoreConfig, t: string)
    requires Booked(ces, cc, t)
    ensures Follows(Project(ces, t), ConfigOf(cc, t)) <==>
            BookAt(ces, cc, t) == Some(Book(CoreRun(ces, cc)[t].rows, CoreRun(ces, cc)[t].spot))
  {
    TickersIndependent(ces, cc, t);
    CoreStepAt(CoreRun(ces, cc), FlushAll, cc, t);
  }

  /** Any placement of one ticker's flushes is what it sees of some recording. */
  lemma {:induction false} Lift(run: seq<CoreEvent>, t: string, es: seq<Event>) returns (ces: seq<CoreEvent>)
    requires Placement(es, Project(run, t))
    ensures Recording(ces, run) && Project(ces, t) == es
    decreases |run| + |es|, 1
  {
    if es != [] && es[|es| - 1].Flushed? {
      FlushErased(es);
      var front := Lift(run, t, es[..|es| - 1]);
      ces := LiftLast(front, run, FlushAll, t);
    } else if run == [] {
      NotErased(es);
      ces := [];
    } else {
      ces := LiftEvent(run, t, es);
    }
  }

  lemma FlushErased(es: seq<Event>)
    requires es != [] && es[|es| - 1].Flushed?
    ensures Erase(es) == Erase(es[..|es| - 1]) && es == es[..|es| - 1] + [Flushed]
  {
  }

  lemma NotErased(es: seq<Event>)
    requires Erase(es) == [] && (es != [] ==> !es[|es| - 1].Flushed?)
    ensures es == []
  {
  }

  /** One more event on both sides, or a flush on one. */
  lemma LiftLast(front: seq<CoreEvent>, run: seq<CoreEvent>, ce: CoreEvent, t: string) returns (ces: seq<CoreEvent>)
    requires Recording(front, run)
    ensures Recording(ces, if ce.FlushAll? then run else run + [ce]) && Project(ces, t) == Project(front, t) + Seen(ce, t)
  {
    ces := front + [ce];
    AppendCore(front, ce);
    AppendCore(run, ce);
    AppendSeen(front, ce, t);
  }

  lemma {:induction false} LiftEvent(run: seq<CoreEvent>, t: string, es: seq<Event>) returns (ces: seq<CoreEvent>)
    requires Placement(es, Project(run, t)) && run != [] && (es != [] ==> !es[|es| - 1].Flushed?)
    ensures Recording(ces, run) && Project(ces, t) == es
    decreases |run| + |es|, 0
  {
    var front, last := run[..|run| - 1], run[|run| - 1];
    assert run == front + [last];
    EraseSeen(Project(front, t), last, t);
    AppendSeen(front, last, t);
    if last.FlushAll? {
      ces := Lift(front, t, es);
      AppendCore(front, last);
    } else {
      var rest := BeforeSeen(es, Project(front, t), last, t);
      var c := Lift(front, t, rest);
      ces := LiftLast(c, front, last, t);
    }
  }

  /** The placement without what its last event shows of ce. */
  lemma BeforeSeen(es: seq<Event>, front: seq<Event>, ce: CoreEvent, t: string) returns (rest: seq<Event>)
    requires !ce.FlushAll? && Erase(es) == Erase(front) + Seen(ce, t) && (es != [] ==> !es[|es| - 1].Flushed?)
    ensures es == rest + Seen(ce, t) && Placement(rest, front)
  {
    if Seen(ce, t) == [] {
      rest := es;
    } else {
      var e := Seen(ce, t)[0];
      assert Seen(ce, t) == [e];
      LastErased(es, front, e);
      rest := es[..|es| - 1];
      assert es == rest + [e];
    }
  }

  lemma LastErased(es: seq<Event>, front: seq<Event>, e: Event)
    requires Erase(es) == Erase(front) + [e] && !e.Flushed? && (es != [] ==> !es[|es| - 1].Flushed?)
    ensures es != [] && es[|es| - 1] == e && Erase(es[..|es| - 1]) == Erase(front)
  {
    var a, b := Erase(es[..|es| - 1]), Erase(front);
    assert a + [es[|es| - 1]] == b + [e];
    assert a == (a + [es[|es| - 1]])[..|a|] && b == (b + [e])[..|b|];
    assert (b + [e])[|b|] == e;
  }

  lemma RecordingsFollow(ces: seq<CoreEvent>, run: seq<CoreEvent>, cc: CoreConfig)
    requires Recording(ces, run) && AllReplayable(run, cc)
    ensures AllFollow(ces, cc)
  {
    forall t | Booked(ces, cc, t) ensures Follows(Project(ces, t), ConfigOf(cc, t)) {
      SameTickers(ces, run, cc, t);
      assert Booked(run, cc, t);
      ReplayHolds(Project(ces, t), Project(run, t), ConfigOf(cc, t));
    }
  }

  lemma RecordingsNeed(run: seq<CoreEvent>, cc: CoreConfig, t: string)
    requires Booked(run, cc, t) && forall ces :: Recording(ces, run) ==> AllFollow(ces, cc)
    ensures Replayable(Project(run, t), ConfigOf(cc, t))
  {
    forall es | Placement(es, Project(run, t)) ensures Follows(es, ConfigOf(cc, t)) {
      var ces := Lift(run, t, es);
      SameTickers(ces, run, cc, t);
      assert AllFollow(ces, cc) && Booked(ces, cc, t);
    }
    ReplayNeeds(Project(run, t), ConfigOf(cc, t));
  }

  /** In every recording of a run all books end as their tickers' working chains if and only if
      every ticker's session is replayable. */
  lemma RecordingsExact(run: seq<CoreEvent>, cc: CoreConfig)
    ensures (forall ces :: Recording(ces, run) ==> AllFollow(ces, cc)) <==> AllReplayable(run, cc)
  {
    if AllReplayable(run, cc) {
      forall ces | Recording(ces, run) ensures AllFollow(ces, cc) {
        RecordingsFollow(ces, run, cc);
      }
    }
    if forall ces :: Recording(ces, run) ==> AllFollow(ces, cc) {
      forall t | Booked(run, cc, t) ensures Replayable(Project(run, t), ConfigOf(cc, t)) {
        RecordingsNeed(run, cc, t);
      }
    }
  }

  // ---------------------------------------------------------------- replaying a journal

  /** However the live run and its replay were flushed: all books are up to date in both, and the
      replay's are those of the live run. */
  ghost predicate Reproduces(live: seq<CoreEvent>, cc: CoreConfig) {
    forall a, b :: Recording(a, live) && Recording(b, Journaled(live)) ==> Agrees(a, b, cc)
  }
  ghost predicate Agrees(a: seq<CoreEvent>, b: seq<CoreEvent>, cc: CoreConfig) {
    AllFollow(a, cc) && AllFollow(b, cc) && SameBooks(a, b, cc)
  }

  ghost predicate AllHarmless(live: seq<CoreEvent>, cc: CoreConfig) {
    forall t :: Booked(live, cc, t) ==> Harmless(Project(live, t), ConfigOf(cc, t))
  }

  lemma ReplayAdmission(live: seq<CoreEvent>, a: seq<CoreEvent>, b: seq<CoreEvent>, cc: CoreConfig, t: string)
    requires Recording(a, live) && Recording(b, Journaled(live))
    ensures (Admitted(a, cc, t) <==> Admitted(live, cc, t)) && (Admitted(b, cc, t) <==> Admitted(live, cc, t))
  {
    RecordingJournals(a, live);
    RecordingJournals(b, Journaled(live));
    JournaledUnflushed(live);
    SameAdmission(a, live, cc, t);
    SameAdmission(b, live, cc, t);
  }

  /** The chains of a live run and of its replay. */
  lemma ReplayChains(live: seq<CoreEvent>, a: seq<CoreEvent>, b: seq<CoreEvent>, cc: CoreConfig, t: string)
    requires Recording(a, live) && Recording(b, Journaled(live))
    ensures t in CoreRun(a, cc) <==> t in CoreRun(live, cc)
    ensures t in CoreRun(b, cc) <==> t in CoreRun(live, cc)
    ensures t in CoreRun(live, cc) ==>
              && CoreRun(a, cc)[t].spot == CoreRun(b, cc)[t].spot
              && (CoreRun(a, cc)[t].rows == CoreRun(b, cc)[t].rows <==> Harmless(Project(live, t), ConfigOf(cc, t)))
  {
    var es, cfg := Project(live, t), ConfigOf(cc, t);
    SameTickers(a, live, cc, t);
    SameTickers(b, Journaled(live), cc, t);
    TickersIndependent(live, cc, t);
    TickersIndependent(Journaled(live), cc, t);
    JournaledSeen(live, t);
    SameSession(Project(Journaled(live), t), DropVendor(es), cfg);
    RefreshesTouchInterestOnly(es, cfg);
    RefreshExact(es, cfg);
  }

  lemma BooksAgree(live: seq<CoreEvent>, a: seq<CoreEvent>, b: seq<CoreEvent>, cc: CoreConfig, t: string)
    requires Recording(a, live) && Recording(b, Journaled(live)) && AllFollow(a, cc) && AllFollow(b, cc)
    ensures BookAt(a, cc, t) == BookAt(b, cc, t) <==> (Booked(live, cc, t) ==> Harmless(Project(live, t), ConfigOf(cc, t)))
  {
    ReplayAdmission(live, a, b, cc, t);
    ReplayChains(live, a, b, cc, t);
    if Booked(live, cc, t) {
      assert Booked(a, cc, t) && Booked(b, cc, t);
      FollowsMeans(a, cc, t);
      FollowsMeans(b, cc, t);
    } else {
      NotBooked(a, cc, t);
      NotBooked(b, cc, t);
    }
  }

  /** A ticker that was never discovered keeps its seed; one that is not admitted has no book. */
  lemma NotBooked(ces: seq<CoreEvent>, cc: CoreConfig, t: string)
    requires !Booked(ces, cc, t)
    ensures BookAt(ces, cc, t) == if Admitted(ces, cc, t) then ConfigOf(cc, t).seed else None
  {
  }

  /** Replay of a journal, exactly.  Books are up to date and the replay ends with the books of the
      live run, wherever flushes fell in either, if and only if every ticker's session is
      replayable, with its refreshes and without, and no refresh left a trace. */
  lemma JournalExact(live: seq<CoreEvent>, cc: CoreConfig)
    ensures Reproduces(live, cc) <==> AllReplayable(live, cc) && AllReplayable(Journaled(live), cc) && AllHarmless(live, cc)
  {
    if AllReplayable(live, cc) && AllReplayable(Journaled(live), cc) && AllHarmless(live, cc) {
      forall a, b | Recording(a, live) && Recording(b, Journaled(live)) ensures Agrees(a, b, cc) {
        JournalHolds(live, a, b, cc);
      }
    }
    if Reproduces(live, cc) {
      JournalNeeds(live, cc);
    }
  }

  lemma JournalHolds(live: seq<CoreEvent>, a: seq<CoreEvent>, b: seq<CoreEvent>, cc: CoreConfig)
    requires AllReplayable(live, cc) && AllReplayable(Journaled(live), cc) && AllHarmless(live, cc)
    requires Recording(a, live) && Recording(b, Journaled(live))
    ensures Agrees(a, b, cc)
  {
    RecordingsFollow(a, live, cc);
    RecordingsFollow(b, Journaled(live), cc);
    forall t ensures BookAt(a, cc, t) == BookAt(b, cc, t) {
      BooksAgree(live, a, b, cc, t);
    }
  }

  lemma JournalNeeds(live: seq<CoreEvent>, cc: CoreConfig)
    requires Reproduces(live, cc)
    ensures AllReplayable(live, cc) && AllReplayable(Journaled(live), cc) && AllHarmless(live, cc)
  {
    forall a | Recording(a, live) ensures AllFollow(a, cc) {
      AgreeNow(live, a, Journaled(live), cc);
    }
    forall b | Recording(b, Journaled(live)) ensures AllFollow(b, cc) {
      AgreeNow(live, live, b, cc);
    }
    RecordingsExact(live, cc);
    RecordingsExact(Journaled(live), cc);
    AgreeNow(live, live, Journaled(live), cc);
    HarmlessNeeded(live, cc);
  }

  lemma AgreeNow(live: seq<CoreEvent>, a: seq<CoreEvent>, b: seq<CoreEvent>, cc: CoreConfig)
    requires Reproduces(live, cc) && Recording(a, live) && Recording(b, Journaled(live))
    ensures AllFollow(a, cc) && AllFollow(b, cc) && SameBooks(a, b, cc)
  {
    assert Agrees(a, b, cc);
  }

  lemma HarmlessNeeded(live: seq<CoreEvent>, cc: CoreConfig)
    requires AllFollow(live, cc) && AllFollow(Journaled(live), cc) && SameBooks(live, Journaled(live), cc)
    ensures AllHarmless(live, cc)
  {
    forall t | Booked(live, cc, t) ensures Harmless(Project(live, t), ConfigOf(cc, t)) {
      BooksAgree(live, live, Journaled(live), cc, t);
      assert BookAt(live, cc, t) == BookAt(Journaled(live), cc, t);
    }
  }

  // ---------------------------------------------------------------- a condition on single events

  ghost predicate CoreClean(ces: seq<CoreEvent>) {
    forall i :: 0 <= i < |ces| && ces[i].Wire? ==> Clean(ces[i].e)
  }

  lemma {:induction false} ProjectClean(ces: seq<CoreEvent>, t: string)
    requires CoreClean(ces)
    ensures AllClean(Project(ces, t))
  {
    if ces != [] {
      ProjectClean(ces[..|ces| - 1], t);
    }
  }

  lemma {:induction false} JournaledClean(ces: seq<CoreEvent>)
    requires CoreClean(ces)
    ensures CoreClean(Journaled(ces))
  {
    if ces != [] {
      JournaledClean(ces[..|ces| - 1]);
    }
  }

  lemma CleanReplayable(ces: seq<CoreEvent>, cc: CoreConfig)
    requires CoreClean(ces)
    ensures AllReplayable(ces, cc)
  {
    forall t | Booked(ces, cc, t) ensures Replayable(Project(ces, t), ConfigOf(cc, t)) {
      TickersIndependent(ces, cc, t);
      ProjectClean(ces, t);
      CleanSession(Project(ces, t), ConfigOf(cc, t));
    }
  }

  /** Of a run whose wire events are clean one by one, replay reproduces the books if and only if no
      refresh left a trace. */
  lemma CleanJournal(live: seq<CoreEvent>, cc: CoreConfig)
    requires CoreClean(live)
    ensures Reproduces(live, cc) <==> AllHarmless(live, cc)
  {
    CleanReplayable(live, cc);
    JournaledClean(live);
    CleanReplayable(Journaled(live), cc);
    JournalExact(live, cc);
  }
}
