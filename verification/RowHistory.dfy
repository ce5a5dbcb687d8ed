/** What a row of the working chain has come to hold (core/internal/edge/ingest.go): over every
    session each attribute is the last one an accepted optcomp gave, or what the row began with. */
module RowHistory {
  import opened Common
  import opened Market
  import opened Skeleton
  import opened Ingest
  import opened IngestRuns
  import opened Sessions
  import opened Refreshes

  // ---------------------------------------------------------------- what one event does to a row

  /** What an accepted optcomp makes of a row. */
  lemma PatchedRow(s: IngestState, o: OptComp, id: Identity)
    requires Sound(s) && Target(s, o) >= 0 && Has(Some(s), id)
    ensures Has(Some(Patched(s, o)), id)
    ensures var c, c' := RowOf(Some(s), id), RowOf(Some(Patched(s, o)), id);
            if IdOf(o) != id then c' == c else
            && c'.conId == o.conId
            && c'.iv == (if o.iv > 0.0 then o.iv else c.iv)
            && c'.bid == (if o.bid > 0.0 || o.ask > 0.0 then o.bid else c.bid)
            && c'.ask == (if o.bid > 0.0 || o.ask > 0.0 then o.ask else c.ask)
            && c'.settlement == (if o.conId in s.byCon && o.settlement != "" then o.settlement else c.settlement)
            && c'.exchange == (if o.conId in s.byCon && o.exchange != "" then o.exchange else c.exchange)
            && c'.multiplier == (if o.conId in s.byCon && o.multiplier > 0.0 && c.multiplier > 0.0 then o.multiplier else c.multiplier)
  {
    PatchKeepsIds(s, o);
    SameIndex(s.rows, Patched(s, o).rows, id);
    IndexIsOnly(s.rows, Target(s, o));
  }

  /** An event that is neither a kept discovery nor an accepted optcomp. */
  ghost predicate Quiet(s: Option<IngestState>, e: Event, cfg: Config) {
    !Kept(e, cfg) && !(e.Computed? && s.Some? && Target(s.value, e.o) >= 0)
  }

  lemma QuietRow(s: Option<IngestState>, e: Event, id: Identity, cfg: Config)
    requires Quiet(s, e, cfg)
    ensures Has(Step(s, e, cfg), id) <==> Has(s, id)
    ensures Has(s, id) ==> Muted(RowOf(Step(s, e, cfg), id)) == Muted(RowOf(s, id))
  {
    if e.Vendor? && s.Some? {
      VendorHas(s.value, e.entries, id);
      SameIndex(s.value.rows, VendorRows(e.entries, s.value.rows), id);
    }
  }

  lemma PatchKeepsHas(s: Option<IngestState>, e: Event, id: Identity, cfg: Config)
    requires !Kept(e, cfg)
    ensures Has(Step(s, e, cfg), id) <==> Has(s, id)
  {
    if Quiet(s, e, cfg) {
      QuietRow(s, e, id, cfg);
    } else {
      PatchedHas(s.value, e.o, id);
    }
  }

  /** What a kept discovery makes of a row: what it carries over, and what comes from the event. */
  lemma AdoptedRow(s: Option<IngestState>, e: Event, id: Identity, cfg: Config)
    requires Sound(Current(s)) && Kept(e, cfg) && Has(Step(s, e, cfg), id)
    ensures var c := RowOf(Step(s, e, cfg), id);
            && c.settlement == Listed(e.ev, c) && c.exchange == e.ev.exchange && c.multiplier == DEFAULT_MULTIPLIER
            && (Has(s, id) ==> var p := RowOf(s, id); c.bid == p.bid && c.ask == p.ask && c.iv == p.iv && c.conId == p.conId)
            && (!Has(s, id) ==> c.bid == c.ask == c.iv == 0.0)
  {
    var rows := Yield(e, cfg.cal).value;
    var a := Adopt(Opening(s, cfg), rows, e.ev.spot, cfg.base);
    var i := IndexOf(a.rows, id);
    YieldShape(e, cfg.cal);
    AdoptCarries(Opening(s, cfg), rows, e.ev.spot, cfg.base, i);
    RestIsFound(Opening(s, cfg), rows, e.ev.spot, cfg.base, i);
    assert rows[i] in rows && FromEvent(e.ev, rows[i]);
  }

  lemma RestIsFound(s: IngestState, rows: seq<Contract>, spot: real, base: int, i: nat)
    requires i < |rows|
    ensures var c := Adopt(s, rows, spot, base).rows[i];
            && c.settlement == rows[i].settlement && c.exchange == rows[i].exchange && c.multiplier == rows[i].multiplier
            && (IndexOf(s.rows, Id(rows[i])) < 0 ==> c.bid == rows[i].bid && c.ask == rows[i].ask && c.iv == rows[i].iv)
  {
  }

  /** The settlement of the first listing of a contract's class and expiry. */
  function Listed(ev: ChainEvent, c: Contract): string {
    var k := First(Pairs(ev.listings), PairOf(c));
    if k < |ev.listings| then ev.listings[k].settlement else ""
  }

  // ---------------------------------------------------------------- sessions as one row sees them

  /** What an event is to a row: a discovery that is kept, or an optcomp for its identity that is
      accepted, and then whether its id was known. */
  datatype Glance = Found(ev: ChainEvent) | Patch(o: OptComp, known: bool) | Nothing

  ghost function GlanceOf(s: Option<IngestState>, e: Event, id: Identity, cfg: Config): Glance {
    if Kept(e, cfg) then Found(e.ev)
    else if e.Computed? && IdOf(e.o) == id && s.Some? && Target(s.value, e.o) >= 0 then Patch(e.o, e.o.conId in s.value.byCon)
    else Nothing
  }
  ghost function RowAt(s: Option<IngestState>, id: Identity): Option<Contract> { if Has(s, id) then Some(RowOf(s, id)) else None }

  /** Each event of a session as the state it finds has it, and the row before each and at the end. */
  ghost function Glances(es: seq<Event>, id: Identity, cfg: Config): (r: seq<Glance>)
    ensures |r| == |es|
  {
    if es == [] then [] else
    var front, e := es[..|es| - 1], es[|es| - 1];
    Glances(front, id, cfg) + [GlanceOf(Run(None, front, cfg), e, id, cfg)]
  }
  ghost function RowsOf(es: seq<Event>, id: Identity, cfg: Config): (r: seq<Option<Contract>>)
    ensures |r| == |es| + 1
  {
    (if es == [] then [] else RowsOf(es[..|es| - 1], id, cfg)) + [RowAt(Run(None, es, cfg), id)]
  }

  /** What a row becomes. */
  ghost predicate Becomes(g: Glance, r: Option<Contract>, r': Option<Contract>) {
    match g
    case Found(ev) => r'.Some? ==> Rediscovered(ev, r, r'.value)
    case Patch(o, known) => r'.Some? == r.Some? && (r.Some? ==> Updates(r.value, o, known, r'.value))
    case Nothing => r'.Some? == r.Some? && (r.Some? ==> Muted(r'.value) == Muted(r.value))
  }
  ghost predicate Rediscovered(ev: ChainEvent, r: Option<Contract>, c: Contract) {
    && c.settlement == Listed(ev, c) && c.exchange == ev.exchange && c.multiplier == DEFAULT_MULTIPLIER
    && (r.Some? ==> c.bid == r.value.bid && c.ask == r.value.ask && c.iv == r.value.iv && c.conId == r.value.conId)
    && (r.None? ==> c.bid == c.ask == c.iv == 0.0)
  }
  ghost predicate Updates(c: Contract, o: OptComp, known: bool, c': Contract) {
    && Id(c') == Id(c) && c'.conId == o.conId
    && c'.iv == (if o.iv > 0.0 then o.iv else c.iv)
    && c'.bid == (if o.bid > 0.0 || o.ask > 0.0 then o.bid else c.bid)
    && c'.ask == (if o.bid > 0.0 || o.ask > 0.0 then o.ask else c.ask)
    && c'.settlement == (if known && o.settlement != "" then o.settlement else c.settlement)
    && c'.exchange == (if known && o.exchange != "" then o.exchange else c.exchange)
    && c'.multiplier == (if known && o.multiplier > 0.0 && c.multiplier > 0.0 then o.multiplier else c.multiplier)
  }

  ghost predicate Chronicle(gs: seq<Glance>, rows: seq<Option<Contract>>) {
    |rows| == |gs| + 1 && rows[0] == None && forall i :: 0 <= i < |gs| ==> BecomesAt(gs, rows, i)
  }
  ghost predicate BecomesAt(gs: seq<Glance>, rows: seq<Option<Contract>>, i: int) {
    0 <= i < |gs| && i + 1 < |rows| && Becomes(gs[i], rows[i], rows[i + 1])
  }

  lemma EventBecomes(s: Option<IngestState>, e: Event, id: Identity, cfg: Config)
    requires Sound(Current(s))
    ensures Becomes(GlanceOf(s, e, id, cfg), RowAt(s, id), RowAt(Step(s, e, cfg), id))
  {
    if Kept(e, cfg) {
      if Has(Step(s, e, cfg), id) {
        AdoptedRow(s, e, id, cfg);
      }
    } else if Quiet(s, e, cfg) {
      QuietRow(s, e, id, cfg);
    } else {
      PatchedHas(s.value, e.o, id);
      if Has(s, id) {
        PatchedRow(s.value, e.o, id);
      }
    }
  }

  lemma ChronicleMore(gs: seq<Glance>, rows: seq<Option<Contract>>, g: Glance, r: Option<Contract>)
    requires Chronicle(gs, rows) && Becomes(g, rows[|gs|], r)
    ensures Chronicle(gs + [g], rows + [r])
  {
    forall i | 0 <= i < |gs + [g]| ensures BecomesAt(gs + [g], rows + [r], i) {
      assert i < |gs| ==> BecomesAt(gs, rows, i);
    }
  }

  lemma {:induction false} SessionChronicle(es: seq<Event>, id: Identity, cfg: Config)
    ensures Chronicle(Glances(es, id, cfg), RowsOf(es, id, cfg)) && RowsOf(es, id, cfg)[|es|] == RowAt(Run(None, es, cfg), id)
  {
    if es != [] {
      var front, e := es[..|es| - 1], es[|es| - 1];
      SessionChronicle(front, id, cfg);
      RunSound(None, front, cfg);
      EventBecomes(Run(None, front, cfg), e, id, cfg);
      ChronicleMore(Glances(front, id, cfg), RowsOf(front, id, cfg), GlanceOf(Run(None, front, cfg), e, id, cfg), RowAt(Run(None, es, cfg), id));
    }
  }

  // ---------------------------------------------------------------- what was said last

  /** What an optcomp says of one attribute, if anything. */
  type Voice<T> = OptComp -> Option<T>

  function Quotes(): Voice<(real, real)> {
    (o: OptComp) => if o.bid > 0.0 || o.ask > 0.0 then Some((o.bid, o.ask)) else None
  }
  function Vols(): Voice<real> { (o: OptComp) => if o.iv > 0.0 then Some(o.iv) else None }
  function ConIds(): Voice<int> { (o: OptComp) => Some(o.conId) }
  function Settlements(): Voice<string> { (o: OptComp) => if o.settlement != "" then Some(o.settlement) else None }
  function Exchanges(): Voice<string> { (o: OptComp) => if o.exchange != "" then Some(o.exchange) else None }
  function Multipliers(): Voice<real> { (o: OptComp) => if o.multiplier > 0.0 then Some(o.multiplier) else None }

  /** What is said of it by an event; an amendment counts only if its id was known. */
  function Said<T>(g: Glance, amend: bool, v: Voice<T>): Option<T> {
    if g.Patch? && (amend ==> g.known) then v(g.o) else None
  }

  /** Of the events from `from` up to `to`, the last that says something says x. */
  ghost predicate LastSaid<T>(gs: seq<Glance>, from: nat, to: nat, amend: bool, v: Voice<T>, x: T)
    requires to <= |gs|
  {
    exists i :: from <= i < to && Said(gs[i], amend, v) == Some(x) && NoneSaid(gs, i + 1, to, amend, v)
  }
  ghost predicate NoneSaid<T>(gs: seq<Glance>, from: nat, to: nat, amend: bool, v: Voice<T>)
    requires to <= |gs|
  {
    forall j :: from <= j < to ==> Said(gs[j], amend, v).None?
  }
  /** x is what was said last, or the first value if nothing was. */
  ghost predicate Reads<T>(gs: seq<Glance>, from: nat, to: nat, amend: bool, v: Voice<T>, first: T, x: T)
    requires to <= |gs|
  {
    LastSaid(gs, from, to, amend, v, x) || (NoneSaid(gs, from, to, amend, v) && x == first)
  }

  /** One event more: either it says something, or things stay as they are. */
  lemma ReadsMore<T>(gs: seq<Glance>, from: nat, k: nat, amend: bool, v: Voice<T>, first: T, x: T, y: T)
    requires from <= k < |gs| && Reads(gs, from, k, amend, v, first, x)
    requires match Said(gs[k], amend, v) case None => y == x case Some(z) => y == z
    ensures Reads(gs, from, k + 1, amend, v, first, y)
  {
    if Said(gs[k], amend, v).Some? {
      assert NoneSaid(gs, k + 1, k + 1, amend, v);
    } else if LastSaid(gs, from, k, amend, v, x) {
      var i :| from <= i < k && Said(gs[i], amend, v) == Some(x) && NoneSaid(gs, i + 1, k, amend, v);
      assert NoneSaid(gs, i + 1, k + 1, amend, v);
    }
  }

  // ---------------------------------------------------------------- quotes, volatility and ids

  /** The row was not there when event n came, and has been from then up to k. */
  ghost predicate Entered(rows: seq<Option<Contract>>, n: nat, k: nat) {
    n < k < |rows| && rows[n].None? && forall m :: n < m <= k ==> rows[m].Some?
  }

  ghost predicate QuotesRead(gs: seq<Glance>, n: nat, k: nat, first: int, c: Contract)
    requires k <= |gs|
  {
    && Reads(gs, n, k, false, Quotes(), (0.0, 0.0), (c.bid, c.ask))
    && Reads(gs, n, k, false, Vols(), 0.0, c.iv)
    && Reads(gs, n, k, false, ConIds(), first, c.conId)
  }

  lemma QuotesStep(gs: seq<Glance>, rows: seq<Option<Contract>>, n: nat, k: nat, first: int)
    requires Chronicle(gs, rows) && n <= k < |gs| && rows[k].Some? && rows[k + 1].Some?
    requires QuotesRead(gs, n, k, first, rows[k].value)
    ensures QuotesRead(gs, n, k + 1, first, rows[k + 1].value)
  {
    var c, c' := rows[k].value, rows[k + 1].value;
    assert BecomesAt(gs, rows, k);
    assert gs[k].Nothing? ==> Muted(c') == Muted(c);
    ReadsMore(gs, n, k, false, Quotes(), (0.0, 0.0), (c.bid, c.ask), (c'.bid, c'.ask));
    ReadsMore(gs, n, k, false, Vols(), 0.0, c.iv, c'.iv);
    ReadsMore(gs, n, k, false, ConIds(), first, c.conId, c'.conId);
  }

  /** Since a row entered the chain, through every re-discovery it survived: its quote is that of the
      last accepted optcomp that had one, its volatility the last positive one, its id the last one
      delivered; before that nothing, and the placeholder it was stamped with. */
  lemma {:induction false} QuotesAre(gs: seq<Glance>, rows: seq<Option<Contract>>, n: nat, k: nat)
    requires Chronicle(gs, rows) && Entered(rows, n, k)
    ensures QuotesRead(gs, n, k, rows[n + 1].value.conId, rows[k].value)
  {
    if n == k - 1 {
      assert BecomesAt(gs, rows, n);
    } else {
      QuotesAre(gs, rows, n, k - 1);
      QuotesStep(gs, rows, n, k - 1, rows[n + 1].value.conId);
    }
  }

  // ---------------------------------------------------------------- settlement, exchange, multiplier

  /** Event d is the last discovery before k that was kept. */
  ghost predicate LastFound(gs: seq<Glance>, d: nat, k: nat) {
    d < k <= |gs| && gs[d].Found? && forall j :: d < j < k ==> !gs[j].Found?
  }

  ghost predicate TermsRead(gs: seq<Glance>, d: nat, k: nat, ev: ChainEvent, c: Contract)
    requires k <= |gs|
  {
    && c.multiplier > 0.0
    && Reads(gs, d, k, true, Settlements(), Listed(ev, c), c.settlement)
    && Reads(gs, d, k, true, Exchanges(), ev.exchange, c.exchange)
    && Reads(gs, d, k, true, Multipliers(), 100.0, c.multiplier)
  }

  lemma TermsStep(gs: seq<Glance>, rows: seq<Option<Contract>>, d: nat, k: nat, ev: ChainEvent)
    requires Chronicle(gs, rows) && d <= k < |gs| && !gs[k].Found? && rows[k].Some?
    requires TermsRead(gs, d, k, ev, rows[k].value)
    ensures rows[k + 1].Some? && TermsRead(gs, d, k + 1, ev, rows[k + 1].value)
  {
    assert BecomesAt(gs, rows, k);
    var c, c' := rows[k].value, rows[k + 1].value;
    assert gs[k].Nothing? ==> Muted(c') == Muted(c);
    ReadsMore(gs, d, k, true, Settlements(), Listed(ev, c), c.settlement, c'.settlement);
    ReadsMore(gs, d, k, true, Exchanges(), ev.exchange, c.exchange, c'.exchange);
    ReadsMore(gs, d, k, true, Multipliers(), 100.0, c.multiplier, c'.multiplier);
  }

  lemma TermsStart(gs: seq<Glance>, rows: seq<Option<Contract>>, d: nat)
    requires Chronicle(gs, rows) && d < |gs| && gs[d].Found? && rows[d + 1].Some?
    ensures TermsRead(gs, d, d + 1, gs[d].ev, rows[d + 1].value)
  {
    assert BecomesAt(gs, rows, d);
  }

  /** Since the last discovery alone, for it carries no terms over: a row's settlement, exchange and
      multiplier are the last ones an accepted optcomp with a known id had, or else the event's. */
  lemma {:induction false} TermsAre(gs: seq<Glance>, rows: seq<Option<Contract>>, d: nat, k: nat)
    requires Chronicle(gs, rows) && LastFound(gs, d, k) && rows[k].Some?
    ensures TermsRead(gs, d, k, gs[d].ev, rows[k].value)
  {
    if d == k - 1 {
      TermsStart(gs, rows, d);
    } else {
      assert BecomesAt(gs, rows, k - 1);
      TermsAre(gs, rows, d, k - 1);
      TermsStep(gs, rows, d, k - 1, gs[d].ev);
    }
  }

  // ---------------------------------------------------------------- every row of every session

  lemma {:induction false} EntryOf(gs: seq<Glance>, rows: seq<Option<Contract>>, k: nat) returns (n: nat, d: nat)
    requires Chronicle(gs, rows) && k <= |gs| && rows[k].Some?
    ensures Entered(rows, n, k) && LastFound(gs, d, k)
  {
    assert BecomesAt(gs, rows, k - 1);
    n, d := k - 1, k - 1;
    if rows[k - 1].Some? {
      n, d := EntryOf(gs, rows, k - 1);
      d := if gs[k - 1].Found? then k - 1 else d;
    }
  }

  /** At the end of every session, for every row of the chain: it entered with some event n and was
      last discovered with some event d, and since then it is what was last said of it. */
  lemma RowIs(es: seq<Event>, id: Identity, cfg: Config) returns (n: nat, d: nat)
    requires Has(Run(None, es, cfg), id)
    ensures var gs, rows, c := Glances(es, id, cfg), RowsOf(es, id, cfg), RowOf(Run(None, es, cfg), id);
            && Entered(rows, n, |es|) && QuotesRead(gs, n, |es|, rows[n + 1].value.conId, c)
            && LastFound(gs, d, |es|) && TermsRead(gs, d, |es|, gs[d].ev, c)
  {
    SessionChronicle(es, id, cfg);
    n, d := EntryOf(Glances(es, id, cfg), RowsOf(es, id, cfg), |es|);
    QuotesAre(Glances(es, id, cfg), RowsOf(es, id, cfg), n, |es|);
    TermsAre(Glances(es, id, cfg), RowsOf(es, id, cfg), d, |es|);
  }

  // ---------------------------------------------------------------- the spot

  /** What an event says of the spot of the working chain. */
  ghost function SpotSaid(s: Option<IngestState>, e: Event, cfg: Config): Option<real> {
    match e
    case Discovered(ev, _) => if Kept(e, cfg) then Some(ev.spot) else None
    case Computed(o) => if s.Some? && Target(s.value, o) >= 0 && 0.0 < o.undPrice < 1_000_000_000.0 then Some(o.undPrice) else None
    case Ticked(price) => if s.Some? && 0.0 < price < 1_000_000_000.0 then Some(price) else None
    case _ => None
  }
  ghost function SpotsSaid(es: seq<Event>, cfg: Config): seq<Option<real>> {
    if es == [] then [] else
    SpotsSaid(es[..|es| - 1], cfg) + [SpotSaid(Run(None, es[..|es| - 1], cfg), es[|es| - 1], cfg)]
  }

  ghost predicate Last(said: seq<Option<real>>, x: real) {
    exists i :: 0 <= i < |said| && said[i] == Some(x) && forall j :: i < j < |said| ==> said[j].None?
  }

  lemma LastMore(said: seq<Option<real>>, next: Option<real>, x: real, y: real)
    requires if next.Some? then next == Some(y) else Last(said, x) && y == x
    ensures Last(said + [next], y)
  {
    if next.Some? {
      assert (said + [next])[|said|] == next;
    } else {
      var i :| 0 <= i < |said| && said[i] == Some(x) && forall j :: i < j < |said| ==> said[j].None?;
      assert (said + [next])[i] == Some(y);
    }
  }

  lemma SpotStep(s: Option<IngestState>, e: Event, cfg: Config)
    requires Step(s, e, cfg).Some?
    ensures match SpotSaid(s, e, cfg)
            case Some(x) => Step(s, e, cfg).value.spot == x
            case None => s.Some? && Step(s, e, cfg).value.spot == s.value.spot
  {
  }

  /** The spot of the working chain is the last one a kept discovery, an accepted optcomp or a tick
      gave, the last two only within bounds. */
  lemma {:induction false} SpotIs(es: seq<Event>, cfg: Config)
    requires Run(None, es, cfg).Some?
    ensures Last(SpotsSaid(es, cfg), Run(None, es, cfg).value.spot)
  {
    var front, e := es[..|es| - 1], es[|es| - 1];
    SpotStep(Run(None, front, cfg), e, cfg);
    if SpotSaid(Run(None, front, cfg), e, cfg).None? {
      SpotIs(front, cfg);
    }
    LastMore(SpotsSaid(front, cfg), SpotSaid(Run(None, front, cfg), e, cfg), Current(Run(None, front, cfg)).spot, Run(None, es, cfg).value.spot);
  }
}
