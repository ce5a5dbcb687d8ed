/** Sessions from the very start at which the ingest core (core/internal/edge/ingest.go,
    vendoroi.go) does not do what is said of it.  Each is a list of events, for any ticker slot,
    calendar and flush threshold above two, and for any strike k in the range stated, without a book
    to start with. */
module IngestCases {
  import opened Common
  import opened Market
  import opened Selection
  import opened Skeleton
  import opened Ingest
  import opened IngestRuns
  import opened Sessions
  import opened Replay
  import opened Journal

  const PM := Listing(Ymd(365), "XSP", "PM")

  /** A universe of one listing a year out, at 100% volatility. */
  function Found(spot: real, strikes: seq<real>): Event {
    Discovered(ChainEvent(spot, 1.0, "CBOE", strikes, [PM]), 0)
  }

  /** A flush threshold above two, and no book to start with. */
  predicate Plain(cfg: Config) { cfg.flushAt > 2 && cfg.seed.None? }

  /** An optcomp for the call at a strike that says nothing but its id. */
  function Call(conId: int, strike: real): OptComp {
    OptComp(conId, strike, CALL, Ymd(365), "XSP", "", "", 0.0, 0.0, 0.0, 0.0, 0.0, 0.0)
  }

  // ---------------------------------------------------------------- what these discoveries keep

  lemma UniverseShape(ev: ChainEvent, l: Listing)
    requires ev.listings == [l] && ev.strikes != []
    ensures Universe(ev) != []
    ensures forall c :: c in Universe(ev) ==> c.cls == l.cls && c.expiry == l.expiry && c.strike in ev.strikes
  {
    UniverseIsProduct(ev);
    var rows := Universe(ev);
    forall c | c in rows ensures c.cls == l.cls && c.expiry == l.expiry && c.strike in ev.strikes {
      assert Id(c) in Ids(rows);
    }
    assert Pairs(ev.listings) == [Pair(l.cls, l.expiry)];
    assert InProduct(ev, 1, Identity(l.cls, l.expiry, CALL, ev.strikes[0]));
    assert Identity(l.cls, l.expiry, CALL, ev.strikes[0]) in Ids(rows);
  }

  lemma OneDay(rows: seq<Contract>, day: int, today: int, cal: Calendar)
    requires rows != [] && day >= today && forall c :: c in rows ==> c.expiry == Ymd(day)
    ensures Selected(rows, today, cal) == Some(rows)
  {
    assert rows[0] in rows;
    assert DatesIn(rows) == {Ymd(day)};
    assert Live(DatesIn(rows), today) == {day};
    PickFacts({day}, cal);
    FilterAll(rows, PickTest(rows, today, cal));
  }

  lemma OneName(rows: seq<Contract>, cls: string)
    requires forall c :: c in rows ==> c.cls == cls
    ensures |Classes(rows)| <= 1
  {
    SubsetSize(Classes(rows), {cls});
  }

  /** Nothing is filtered out when every strike is within two standard deviations. */
  lemma AllKept(spot: real, strikes: seq<real>, cal: Calendar)
    requires strikes != [] && forall k :: k in strikes ==> TwoSd(k, spot, 1.0, 365)
    ensures Yield(Found(spot, strikes), cal) == Some(Universe(Found(spot, strikes).ev))
  {
    var ev := Found(spot, strikes).ev;
    var rows := Universe(ev);
    UniverseShape(ev, PM);
    OneDay(rows, 365, 0, cal);
    OneName(rows, "XSP");
    FilterAll(rows, WindowTest(spot, 1.0, 0));
    assert AllParse(DatesIn(rows));
  }

  /** Discoveries around a strike k that keep everything: at spot k, at up to twice that, and with
      a second strike m. */
  lemma SelfKept(k: real, cal: Calendar)
    requires k > 0.0
    ensures Yield(Found(k, [k]), cal) == Some(Universe(Found(k, [k]).ev))
  {
    NearTwice(k, k);
    AllKept(k, [k], cal);
  }

  lemma HugeKept(k: real, huge: real, cal: Calendar)
    requires 0.0 < k <= huge <= 2.0 * k
    ensures Yield(Found(huge, [k]), cal) == Some(Universe(Found(huge, [k]).ev))
  {
    NearTwice(k, huge);
    AllKept(huge, [k], cal);
  }

  lemma TwoKept(k: real, m: real, cal: Calendar)
    requires 0.0 < k < m <= 2.0 * k
    ensures Yield(Found(k, [k, m]), cal) == Some(Universe(Found(k, [k, m]).ev))
  {
    NearTwice(k, k);
    TwiceKept(k, m);
    AllKept(k, [k, m], cal);
  }

  lemma NearTwice(k: real, huge: real)
    requires k > 0.0 && k <= huge <= 2.0 * k
    ensures TwoSd(k, huge, 1.0, 365)
  {
    SquareOrder(huge - k, huge);
    assert Square(k - huge) == Square(huge - k) && huge * 1.0 == huge;
    MulSign(huge, huge);
    assert Square(huge) == Mul(huge, huge);
  }

  lemma TwiceKept(k: real, m: real)
    requires 0.0 < k < m <= 2.0 * k
    ensures TwoSd(m, k, 1.0, 365)
  {
    SquareOrder(m - k, k);
    MulSign(k, k);
    assert Square(k) == Mul(k, k) && k * 1.0 == k;
  }

  lemma OneStrike(ev: ChainEvent, l: Listing, k: real)
    requires ev.listings == [l] && ev.strikes == [k]
    ensures Universe(ev) == [Row(ev, l, k, CALL), Row(ev, l, k, PUT)]
  {
    var c, p := Row(ev, l, k, CALL), Row(ev, l, k, PUT);
    assert Ids([c]) == {Id(c)} && Id(c).right != Id(p).right;
    assert AddBoth([], ev, l, k) == [c, p];
    assert [k][..0] == [] && [l][..0] == [];
    assert AddStrikes([], ev, l, [k]) == [c, p];
    assert AddListings(ev, []) == [];
  }

  /** The state after a first discovery of two rows. */
  lemma FirstAdopted(a: Contract, b: Contract, spot: real, base: int)
    requires a.conId == 0 && b.conId == 0
    ensures Adopt(EMPTY, [a, b], spot, base) == First(a.(conId := base - 1), b.(conId := base - 2), spot)
  {
    var rows, stamped := [a, b], [a.(conId := base - 1), b.(conId := base - 2)];
    assert Carry(rows, []) == rows;
    assert rows[..1] == [a] && [a][..0] == [] && rows[..2] == rows;
    assert BareCount([a]) == 1 && BareCount(rows) == 2;
    assert Stamp(rows, base, 0) == stamped;
    assert stamped[..1] == [stamped[0]] && [stamped[0]][..0] == [];
    assert IndexRows([stamped[0]]) == map[base - 1 := 0];
  }

  ghost function First(a: Contract, b: Contract, spot: real): IngestState {
    IngestState([a, b], spot, map[a.conId := 0][b.conId := 1], 2, false, 0, Publish(None, [a, b], spot))
  }

  /** The row a discovery leaves in the chain. */
  function Held(k: real, right: string, id: int): Contract {
    Contract(id, k, right, Ymd(365), "XSP", "PM", "CBOE", DEFAULT_MULTIPLIER, 0.0, 0.0, 0.0, 0.0)
  }
  function Rows(k: real, callId: int, cfg: Config): seq<Contract> {
    [Held(k, CALL, callId), Held(k, PUT, cfg.base - 2)]
  }

  lemma Start(k: real, cfg: Config)
    requires k > 0.0 && cfg.seed.None?
    ensures Run(None, [Found(k, [k])], cfg) == Some(After1(k, cfg))
  {
    var d := Found(k, [k]);
    SelfKept(k, cfg.cal);
    OneStrike(d.ev, PM, k);
    FirstAdopted(Row(d.ev, PM, k, CALL), Row(d.ev, PM, k, PUT), k, cfg.base);
    RunExtend(None, [], d, cfg);
    assert [] + [d] == [d];
  }

  lemma CallIsFirst(a: Contract, b: Contract)
    requires Id(a) != Id(b)
    ensures IndexOf([a, b], Id(a)) == 0 && IndexOf([a, b], Id(b)) == 1
  {
    var rows := [a, b];
    assert rows[..1] == [a];
    assert [a][..0] == [];
  }

  /** An optcomp with a new id for the call. */
  lemma Resolves(s: IngestState, a: Contract, b: Contract, o: OptComp)
    requires s.rows == [a, b] && s.byCon == map[a.conId := 0][b.conId := 1] && Id(a) != Id(b) && IdOf(o) == Id(a)
    requires o.conId !in {0, a.conId, b.conId} && a.conId != b.conId
    ensures Target(s, o) == 0
    ensures var p := Patched(s, o);
            p.rows == [Quote(a.(conId := o.conId), o), b] && p.byCon == map[b.conId := 1][o.conId := 0] && p.book == s.book
  {
    CallIsFirst(a, b);
  }

  lemma FirstPatch(a: Contract, b: Contract, spot: real, o: OptComp, cfg: Config)
    requires Id(a) != Id(b) && IdOf(o) == Id(a) && o.conId !in {0, a.conId, b.conId} && a.conId != b.conId
    requires o.undPrice == 0.0 && cfg.flushAt > 2
    ensures Step(Some(First(a, b, spot)), Computed(o), cfg) == Some(Second(a, b, spot, o))
  {
    Resolves(First(a, b, spot), a, b, o);
  }

  ghost function Second(a: Contract, b: Contract, spot: real, o: OptComp): IngestState {
    IngestState([Quote(a.(conId := o.conId), o), b], spot, map[b.conId := 1][o.conId := 0], 2, true, 1, Publish(None, [a, b], spot))
  }

  /** The state of a one-strike chain before and after an optcomp for its call. */
  ghost function After1(k: real, cfg: Config): IngestState {
    First(Held(k, CALL, cfg.base - 1), Held(k, PUT, cfg.base - 2), k)
  }
  ghost function After2(k: real, o: OptComp, cfg: Config): IngestState {
    Second(Held(k, CALL, cfg.base - 1), Held(k, PUT, cfg.base - 2), k, o)
  }

  /** The state after such a discovery and an optcomp that gives the call its real id. */
  lemma Resolved(k: real, o: OptComp, cfg: Config)
    requires k > 0.0 && Plain(cfg) && IdOf(o) == IdOf(Call(o.conId, k)) && o.undPrice == 0.0
    requires o.conId !in {0, cfg.base - 1, cfg.base - 2}
    ensures Run(None, [Found(k, [k]), Computed(o)], cfg) == Some(After2(k, o, cfg))
  {
    var d := Found(k, [k]);
    Start(k, cfg);
    CallPatched(k, o, cfg);
    RunExtend(None, [d], Computed(o), cfg);
    assert [d] + [Computed(o)] == [d, Computed(o)];
  }

  lemma CallPatched(k: real, o: OptComp, cfg: Config)
    requires cfg.flushAt > 2 && IdOf(o) == IdOf(Call(o.conId, k)) && o.undPrice == 0.0
    requires o.conId !in {0, cfg.base - 1, cfg.base - 2}
    ensures Step(Some(After1(k, cfg)), Computed(o), cfg) == Some(After2(k, o, cfg))
  {
    var a, b := Held(k, CALL, cfg.base - 1), Held(k, PUT, cfg.base - 2);
    assert Id(a).right != Id(b).right;
    FirstPatch(a, b, k, o, cfg);
  }

  /** The same session with and without a flush before its last event. */
  lemma TwoPlacements(d: Event, id: Event, x: Event, cfg: Config)
    requires !d.Flushed? && !id.Flushed? && !x.Flushed?
    ensures Placement([d, id, Flushed, x], [d, id, x])
    ensures Run(None, [d, id, Flushed, x], cfg) == Step(Step(Run(None, [d, id], cfg), Flushed, cfg), x, cfg)
    ensures Run(None, [d, id, x], cfg) == Step(Run(None, [d, id], cfg), x, cfg)
  {
    var two := [d, id];
    assert [d, id, Flushed, x] == two + [Flushed] + [x] && [d, id, x] == two + [x];
    EraseAppend(two, Flushed);
    EraseAppend(two + [Flushed], x);
    EraseAppend(two, x);
    RunExtend(None, two, Flushed, cfg);
    RunExtend(None, two + [Flushed], x, cfg);
    RunExtend(None, two, x, cfg);
  }

  // ---------------------------------------------------------------- replay

  /** The book after the run and a final flush. */
  ghost function FinalBook(es: seq<Event>, cfg: Config): Option<Book> { BookOf(Step(Run(None, es, cfg), Flushed, cfg), cfg) }

  lemma NegativeAskStuck(s: IngestState, o: OptComp, cfg: Config)
    requires |s.rows| == 2 && o.conId in s.byCon && s.byCon[o.conId] == 0 && Id(s.rows[0]) == IdOf(o) && o.conId != 0
    requires o.bid > 0.0 && o.ask < 0.0 && s.patchCount < 2 < cfg.flushAt
    ensures BookOf(Step(Step(Some(s), Computed(o), cfg), Flushed, cfg), cfg) == s.book
  {
    var p := Patched(s, o);
    assert !RowAccepted(p.rows[0]);
  }

  /** A negative ask after the first optcomp, with and without a flush before it. */
  lemma StuckEitherWay(a: Contract, b: Contract, spot: real, o: OptComp, bad: OptComp, cfg: Config)
    requires Id(a) != Id(b) && IdOf(o) == Id(a) == IdOf(bad) && o.conId == bad.conId != 0 && cfg.flushAt > 2
    requires bad.bid > 0.0 && bad.ask < 0.0
    requires Accepted([a, b], spot) && Accepted([Quote(a.(conId := o.conId), o), b], spot)
    ensures var s := Some(Second(a, b, spot, o));
            && BookOf(Step(Step(Step(s, Flushed, cfg), Computed(bad), cfg), Flushed, cfg), cfg) == Some(Book([Quote(a.(conId := o.conId), o), b], spot))
            && BookOf(Step(Step(s, Computed(bad), cfg), Flushed, cfg), cfg) == Some(Book([a, b], spot))
  {
    var s := Second(a, b, spot, o);
    NegativeAskStuck(s, bad, cfg);
    NegativeAskStuck(Flush(s), bad, cfg);
  }

  /** A quote with a positive bid and a negative ask: the book is stuck from then on, and what
      it holds depends on whether a flush fell before. */
  lemma NegativeAskBreaksReplay(k: real, cfg: Config)
    requires SaneSpot(k) && Plain(cfg)
    ensures var d, id, bad := Found(k, [k]), Computed(Call(7, k)), Computed(Call(7, k).(bid := 1.0, ask := -1.0));
            && Placement([d, id, Flushed, bad], [d, id, bad])
            && FinalBook([d, id, Flushed, bad], cfg) == Some(Book(Rows(k, 7, cfg), k))
            && FinalBook([d, id, bad], cfg) == Some(Book(Rows(k, cfg.base - 1, cfg), k))
  {
    var o := Call(7, k);
    Resolved(k, o, cfg);
    TwoPlacements(Found(k, [k]), Computed(o), Computed(o.(bid := 1.0, ask := -1.0)), cfg);
    NegativeAskSteps(k, o, o.(bid := 1.0, ask := -1.0), cfg);
  }

  lemma NegativeAskSteps(k: real, o: OptComp, bad: OptComp, cfg: Config)
    requires SaneSpot(k) && cfg.flushAt > 2 && o == Call(7, k) && bad == o.(bid := 1.0, ask := -1.0)
    ensures var s := Some(After2(k, o, cfg));
            && BookOf(Step(Step(Step(s, Flushed, cfg), Computed(bad), cfg), Flushed, cfg), cfg) == Some(Book(Rows(k, 7, cfg), k))
            && BookOf(Step(Step(s, Computed(bad), cfg), Flushed, cfg), cfg) == Some(Book(Rows(k, cfg.base - 1, cfg), k))
  {
    var a, b := Held(k, CALL, cfg.base - 1), Held(k, PUT, cfg.base - 2);
    assert Id(a).right != Id(b).right && Quote(a.(conId := 7), o) == Held(k, CALL, 7);
    StuckEitherWay(a, b, k, o, bad, cfg);
  }

  /** A tick after the first optcomp, with and without a flush before it. */
  lemma TickEitherWay(a: Contract, b: Contract, spot: real, o: OptComp, price: real, cfg: Config)
    requires !SaneSpot(spot) && Accepted([Quote(a.(conId := o.conId), o), b], price)
    ensures var s := Some(Second(a, b, spot, o));
            && BookOf(Step(Step(Step(s, Flushed, cfg), Ticked(price), cfg), Flushed, cfg), cfg) == None
            && BookOf(Step(Step(s, Ticked(price), cfg), Flushed, cfg), cfg) == Some(Book([Quote(a.(conId := o.conId), o), b], price))
  {
  }

  /** A discovery at a spot the book refuses, then an optcomp, then a sane tick: every row of the
      chain is acceptable and so is its spot, but with a flush before the tick the book never
      gets it. */
  lemma HugeSpotBreaksReplay(k: real, price: real, cfg: Config)
    requires k >= 1_000_000_000.0 && SaneSpot(price) && Plain(cfg)
    ensures var d, id, tick, rows := Found(k, [k]), Computed(Call(7, k)), Ticked(price), Rows(k, 7, cfg);
            && Placement([d, id, Flushed, tick], [d, id, tick])
            && Accepted(rows, price)
            && FinalBook([d, id, Flushed, tick], cfg) == None
            && FinalBook([d, id, tick], cfg) == Some(Book(rows, price))
  {
    var o := Call(7, k);
    Resolved(k, o, cfg);
    TwoPlacements(Found(k, [k]), Computed(o), Ticked(price), cfg);
    HugeSpotSteps(k, o, price, cfg);
  }

  lemma HugeSpotSteps(k: real, o: OptComp, price: real, cfg: Config)
    requires k >= 1_000_000_000.0 && SaneSpot(price) && o == Call(7, k)
    ensures var s := Some(After2(k, o, cfg));
            && Accepted(Rows(k, 7, cfg), price)
            && BookOf(Step(Step(Step(s, Flushed, cfg), Ticked(price), cfg), Flushed, cfg), cfg) == None
            && BookOf(Step(Step(s, Ticked(price), cfg), Flushed, cfg), cfg) == Some(Book(Rows(k, 7, cfg), price))
  {
    var a, b := Held(k, CALL, cfg.base - 1), Held(k, PUT, cfg.base - 2);
    assert Quote(a.(conId := 7), o) == Held(k, CALL, 7);
    TickEitherWay(a, b, k, o, price, cfg);
  }

  lemma AdoptAgain(rows: seq<Contract>, found: seq<Contract>, s: IngestState, spot: real, base: int)
    requires s.rows == rows && |found| == |rows| == 2 && Id(rows[0]) != Id(rows[1])
    requires forall i :: 0 <= i < 2 ==> rows[i].conId != 0 && rows[i] == found[i].(conId := rows[i].conId)
    requires forall i :: 0 <= i < 2 ==> found[i].openInterest == 0.0 && found[i].iv == 0.0 && found[i].bid == 0.0 && found[i].ask == 0.0
    ensures Adopt(s, found, spot, base).rows == rows && !Adopt(s, found, spot, base).pending
  {
    assert rows == [rows[0], rows[1]];
    CallIsFirst(rows[0], rows[1]);
    assert Carry(found, rows) == rows;
    assert Stamp(rows, base, s.nextSyn) == rows;
  }

  /** The chain after the second of two discoveries that find the same, and a tick. */
  lemma FoundTwice(d: Event, again: Event, price: real, s: IngestState, found: seq<Contract>, cfg: Config)
    requires Run(None, [d], cfg) == Some(s) && again.Discovered? && Yield(again, cfg.cal) == Some(found) && SaneSpot(price)
    requires Adopt(s, found, again.ev.spot, cfg.base).rows == s.rows
    ensures var r := Run(None, [d, again, Ticked(price)], cfg);
            r.Some? && r.value.rows == s.rows && r.value.spot == price
  {
    RunExtend(None, [d], again, cfg);
    RunExtend(None, [d, again], Ticked(price), cfg);
    assert [d] + [again] == [d, again] && [d, again] + [Ticked(price)] == [d, again, Ticked(price)];
  }

  lemma SameAgain(k: real, ev: ChainEvent, s: IngestState, spot: real, cfg: Config)
    requires ev == Found(spot, [k]).ev && s.rows == Rows(k, cfg.base - 1, cfg)
    ensures Adopt(s, Universe(ev), spot, cfg.base).rows == s.rows
  {
    OneStrike(ev, PM, k);
    assert Id(s.rows[0]).right != Id(s.rows[1]).right;
    AdoptAgain(s.rows, Universe(ev), s, spot, cfg.base);
  }

  /** A second discovery at such a spot that finds the very chain the book already has: the
      session is not settled, but it is replayable. */
  lemma SameChainReplays(k: real, huge: real, price: real, cfg: Config)
    requires SaneSpot(k) && SaneSpot(price) && huge >= 1_000_000_000.0 && huge <= 2.0 * k && cfg.seed.None?
    ensures var session := [Found(k, [k]), Found(huge, [k]), Ticked(price)];
            !Settled(session, cfg) && Replayable(session, cfg)
  {
    var d, again := Found(k, [k]), Found(huge, [k]);
    Start(k, cfg);
    SelfKept(k, cfg.cal);
    StartBook(k, cfg);
    HugeKept(k, huge, cfg.cal);
    SameAgain(k, again.ev, After1(k, cfg), huge, cfg);
    SameReplays(d, again, price, After1(k, cfg), Universe(again.ev), cfg);
  }

  lemma SameReplays(d: Event, again: Event, price: real, s: IngestState, found: seq<Contract>, cfg: Config)
    requires Run(None, [d], cfg) == Some(s) && Kept(d, cfg) && Kept(again, cfg) && Yield(again, cfg.cal) == Some(found)
    requires Adopt(s, found, again.ev.spot, cfg.base).rows == s.rows && !SaneSpot(again.ev.spot) && SaneSpot(price)
    requires RowsAccepted(s.rows) && s.book.Some? && s.book.value.rows == s.rows
    ensures !Settled([d, again, Ticked(price)], cfg) && Replayable([d, again, Ticked(price)], cfg)
  {
    FoundTwice(d, again, price, s, found, cfg);
    UnsettledBy([d, again], price, cfg);
    assert [d, again] + [Ticked(price)] == [d, again, Ticked(price)] && [d, again][..1] == [d];
    forall p | Placement(p, [d]) ensures HoldsRows(p, s.rows, cfg) {
      OnlyFlushes(p, d, cfg);
    }
    HeldExact([d], s.rows, cfg);
  }

  lemma StartBook(k: real, cfg: Config)
    requires SaneSpot(k)
    ensures var s := After1(k, cfg); RowsAccepted(s.rows) && s.book.Some? && s.book.value.rows == s.rows
  {
  }

  lemma UnsettledBy(es: seq<Event>, price: real, cfg: Config)
    requires es != [] && Kept(es[|es| - 1], cfg) && !SaneSpot(es[|es| - 1].ev.spot)
    ensures !Settled(es + [Ticked(price)], cfg) && BeforeLast(es + [Ticked(price)], cfg) == es[..|es| - 1]
  {
    assert (es + [Ticked(price)])[..|es|] == es;
    LastKept(es, cfg);
  }

  lemma LastKept(es: seq<Event>, cfg: Config)
    requires es != [] && Kept(es[|es| - 1], cfg)
    ensures Settled(es, cfg) <==> SaneSpot(es[|es| - 1].ev.spot)
    ensures BeforeLast(es, cfg) == es[..|es| - 1]
  {
  }

  /** Flushes around a single discovery do nothing. */
  lemma {:induction false} OnlyFlushes(p: seq<Event>, d: Event, cfg: Config)
    requires Placement(p, [d]) && Kept(d, cfg)
    ensures Run(None, p, cfg) == Run(None, [d], cfg)
  {
    Alone(d, cfg);
    var front, e := p[..|p| - 1], p[|p| - 1];
    if e.Flushed? {
      OnlyFlushes(front, d, cfg);
      NothingPending(d, cfg);
    } else {
      assert Erase(p) == Erase(front) + [e];
      assert |Erase(front)| == 0 && e == (Erase(front) + [e])[0];
      NothingErased(front, cfg);
    }
  }

  lemma Alone(d: Event, cfg: Config)
    requires Kept(d, cfg)
    ensures Erase([d]) == [d] && Run(None, [d], cfg) == Step(None, d, cfg)
  {
    EraseAppend([], d);
    RunExtend(None, [], d, cfg);
    assert [] + [d] == [d];
  }

  lemma NothingPending(d: Event, cfg: Config)
    requires Kept(d, cfg)
    ensures Step(Step(None, d, cfg), Flushed, cfg) == Step(None, d, cfg)
  {
  }

  lemma {:induction false} NothingErased(p: seq<Event>, cfg: Config)
    requires Erase(p) == []
    ensures Run(None, p, cfg) == None
  {
    if p != [] {
      NothingErased(p[..|p| - 1], cfg);
    }
  }

  // ---------------------------------------------------------------- ids from the wire

  lemma TwoStrikes(ev: ChainEvent, l: Listing, k: real, m: real)
    requires ev.listings == [l] && ev.strikes == [k, m] && k != m
    ensures Universe(ev) == [Row(ev, l, k, CALL), Row(ev, l, k, PUT), Row(ev, l, m, CALL), Row(ev, l, m, PUT)]
  {
    var a, b, c, d := Row(ev, l, k, CALL), Row(ev, l, k, PUT), Row(ev, l, m, CALL), Row(ev, l, m, PUT);
    assert Id(a).right != Id(b).right && Id(c).right != Id(d).right && Id(a).strike != Id(c).strike;
    assert Ids([a]) == {Id(a)} && Ids([a, b]) == {Id(a), Id(b)} && Ids([a, b, c]) == {Id(a), Id(b), Id(c)};
    assert [k][..0] == [] && [k, m][..1] == [k] && [l][..0] == [];
    assert AddBoth([], ev, l, k) == [a, b];
    assert AddStrikes([], ev, l, [k]) == [a, b];
    assert AddRow([a, b], c) == [a, b, c] && AddRow([a, b, c], d) == [a, b, c, d];
    assert AddListings(ev, []) == [];
  }

  /** Two rows carried over, the first with the id next in line, and then a new one. */
  lemma NextInLine(s: IngestState, rows: seq<Contract>, spot: real, base: int)
    requires |rows| == 4 && IndexOf(s.rows, Id(rows[0])) == 0 && IndexOf(s.rows, Id(rows[1])) == 1
    requires IndexOf(s.rows, Id(rows[2])) < 0 && rows[2].conId == 0
    requires s.rows[0].conId == base - s.nextSyn - 1 != 0 && s.rows[1].conId != 0
    ensures var a := Adopt(s, rows, spot, base);
            |a.rows| == 4 && a.rows[0].conId == a.rows[2].conId == base - s.nextSyn - 1 && !IndexExact(a.rows, a.byCon)
  {
    var carried := Carry(rows, s.rows);
    var c := carried[..3];
    assert c[..2] == carried[..2] && carried[..2][..1] == carried[..1] && carried[..1][..0] == [];
    assert BareCount(carried[..1]) == 0 && BareCount(carried[..2]) == 0;
    assert BareCount(c) == 1;
    var a := Adopt(s, rows, spot, base);
    assert a.rows[0].conId == a.rows[2].conId;
  }

  /** A negative id from the wire that the allocator has yet to reach: the next discovery issues
      it again, and two rows share it. */
  lemma NegativeWireIdCollides(k: real, m: real, cfg: Config)
    requires 0.0 < k < m <= 2.0 * k && Plain(cfg)
    ensures var es := [Found(k, [k]), Computed(Call(cfg.base - 3, k)), Found(k, [k, m])];
            var s := Run(None, es, cfg);
            s.Some? && |s.value.rows| == 4 && s.value.rows[0].conId == s.value.rows[2].conId == cfg.base - 3 && !Exact(s)
  {
    var d, o, more := Found(k, [k]), Call(cfg.base - 3, k), Found(k, [k, m]);
    Resolved(k, o, cfg);
    TwoKept(k, m, cfg.cal);
    CarriedRows(k, m, o, more.ev, cfg);
    IssuedAgain(d, Computed(o), After2(k, o, cfg), more, PM, k, m, cfg);
  }

  lemma IssuedAgain(x: Event, y: Event, s: IngestState, more: Event, l: Listing, k: real, m: real, cfg: Config)
    requires Run(None, [x, y], cfg) == Some(s) && more.Discovered? && more.ev.listings == [l] && more.ev.strikes == [k, m] && k != m
    requires Yield(more, cfg.cal) == Some(Universe(more.ev))
    requires |s.rows| == 2 && s.rows[0].conId == cfg.base - s.nextSyn - 1 && s.rows[1].conId != 0
    requires IndexOf(s.rows, Id(Row(more.ev, l, k, CALL))) == 0 && IndexOf(s.rows, Id(Row(more.ev, l, k, PUT))) == 1
    requires IndexOf(s.rows, Id(Row(more.ev, l, m, CALL))) < 0
    ensures var r := Run(None, [x, y, more], cfg);
            r.Some? && |r.value.rows| == 4 && r.value.rows[0].conId == r.value.rows[2].conId == cfg.base - s.nextSyn - 1 && !Exact(r)
  {
    RunExtend(None, [x, y], more, cfg);
    assert [x, y] + [more] == [x, y, more];
    TwoStrikes(more.ev, l, k, m);
    NextInLine(s, Universe(more.ev), more.ev.spot, cfg.base);
  }

  lemma CarriedRows(k: real, m: real, o: OptComp, ev: ChainEvent, cfg: Config)
    requires k != m && o == Call(cfg.base - 3, k)
    ensures var rows := After2(k, o, cfg).rows;
            && |rows| == 2 && rows[0].conId == cfg.base - 3 && rows[1].conId == cfg.base - 2
            && IndexOf(rows, Id(Row(ev, PM, k, CALL))) == 0 && IndexOf(rows, Id(Row(ev, PM, k, PUT))) == 1
            && IndexOf(rows, Id(Row(ev, PM, m, CALL))) < 0
  {
    var a, b := Held(k, CALL, cfg.base - 3), Held(k, PUT, cfg.base - 2);
    assert Quote(a, o) == a && Id(a).right != Id(b).right;
    CallIsFirst(a, b);
  }

  // ---------------------------------------------------------------- vendor open interest

  /** Open interest that TWS delivered is overwritten by a vendor's. */
  lemma VendorOverridesTws(k: real, tws: real, vendor: real, cfg: Config)
    requires SaneSpot(k) && tws > 0.0 && vendor > 0.0 && Plain(cfg)
    ensures var d, id := Found(k, [k]), Computed(Call(7, k).(openInterest := tws));
            var es := [d, id, Vendor([VendorEntry("XSP", CALL, k, Ymd(365), vendor)])];
            var before, after := Run(None, [d, id], cfg), Run(None, es, cfg);
            && before.Some? && |before.value.rows| == 2 && before.value.rows[0].openInterest == tws
            && after.Some? && |after.value.rows| == 2 && after.value.rows[0].openInterest == vendor
  {
    var o, e := Call(7, k).(openInterest := tws), VendorEntry("XSP", CALL, k, Ymd(365), vendor);
    var d, id := Found(k, [k]), Computed(o);
    Resolved(k, o, cfg);
    HeldInterest(k, o, tws, cfg);
    OneEntry(d, id, After2(k, o, cfg), e, cfg);
  }

  /** A live run and the replay of its journal, both of clean events and replayable: the refresh is
      not in the journal, and the two books differ. */
  lemma RefreshLostInReplay(k: real, tws: real, vendor: real, t: string, cc: CoreConfig)
    requires SaneSpot(k) && tws > 0.0 && vendor > 0.0 && tws != vendor
    requires cc.flushAt > 2 && t in cc.watchlist && t !in cc.seeds
    ensures var d, id := Found(k, [k]), Computed(Call(7, k).(openInterest := tws));
            var journal := [Wire(t, d), Wire(t, id)];
            var live := journal + [Refresh(t, [VendorEntry("XSP", CALL, k, Ymd(365), vendor)])];
            && Journaled(live) == journal && AllReplayable(live, cc) && AllReplayable(journal, cc)
            && BookAt(live, cc, t) != BookAt(journal, cc, t)
  {
    var d, id := Found(k, [k]), Computed(Call(7, k).(openInterest := tws));
    var entries := [VendorEntry("XSP", CALL, k, Ymd(365), vendor)];
    var journal := [Wire(t, d), Wire(t, id)];
    var live := journal + [Refresh(t, entries)];
    FirstTwo(t, d, id, entries);
    CleanTwo(k, tws, t, entries);
    CleanReplayable(live, cc);
    CleanReplayable(journal, cc);
    VendorOverridesTws(k, tws, vendor, ConfigOf(cc, t));
    TickersIndependent(live, cc, t);
    TickersIndependent(journal, cc, t);
    UpToDate(live, cc, t);
    UpToDate(journal, cc, t);
  }

  lemma FirstTwo(t: string, d: WireEvent, id: WireEvent, entries: seq<VendorEntry>)
    ensures var journal := [Wire(t, d), Wire(t, id)];
            var live := journal + [Refresh(t, entries)];
            && Journaled(live) == journal && Project(journal, t) == [d, id] && Project(live, t) == [d, id, Vendor(entries)]
  {
    var one, two := [Wire(t, d)], [Wire(t, d), Wire(t, id)];
    assert one == [] + [Wire(t, d)] && two == one + [Wire(t, id)];
    AppendCore([], Wire(t, d));
    AppendCore(one, Wire(t, id));
    AppendCore(two, Refresh(t, entries));
    AppendSeen([], Wire(t, d), t);
    AppendSeen(one, Wire(t, id), t);
    AppendSeen(two, Refresh(t, entries), t);
  }

  lemma CleanTwo(k: real, tws: real, t: string, entries: seq<VendorEntry>)
    requires SaneSpot(k)
    ensures var journal := [Wire(t, Found(k, [k])), Wire(t, Computed(Call(7, k).(openInterest := tws)))];
            CoreClean(journal) && CoreClean(journal + [Refresh(t, entries)])
  {
  }

  lemma UpToDate(ces: seq<CoreEvent>, cc: CoreConfig, t: string)
    requires AllReplayable(ces, cc) && t in cc.watchlist && t in CoreRun(ces, cc)
    ensures BookAt(ces, cc, t) == Some(Book(CoreRun(ces, cc)[t].rows, CoreRun(ces, cc)[t].spot))
  {
    RecordingsFollow(ces, ces, cc);
    assert Booked(ces, cc, t);
    FollowsMeans(ces, cc, t);
  }

  lemma HeldInterest(k: real, o: OptComp, tws: real, cfg: Config)
    requires o == Call(7, k).(openInterest := tws) && tws > 0.0
    ensures var rows := After2(k, o, cfg).rows;
            |rows| == 2 && rows[0].openInterest == tws && rows[0] == Held(k, CALL, 7).(openInterest := tws)
  {
  }

  lemma OneEntry(x: Event, y: Event, s: IngestState, e: VendorEntry, cfg: Config)
    requires Run(None, [x, y], cfg) == Some(s) && s.rows != [] && Matches(e, s.rows[0], s.rows[0].expiry) && e.oi > 0.0
    ensures var r := Run(None, [x, y, Vendor([e])], cfg);
            r.Some? && |r.value.rows| == |s.rows| && r.value.rows[0].openInterest == e.oi
  {
    RunExtend(None, [x, y], Vendor([e]), cfg);
    assert [x, y] + [Vendor([e])] == [x, y, Vendor([e])];
    assert PickVendor([e], s.rows[0]) == Some(e.oi);
    assert AnyMatch([e], s.rows);
  }
}
