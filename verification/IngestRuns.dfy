/** Whole runs of the ingest core for one ticker: what holds in every reachable state, when the
    index is exact, what re-discovery keeps, and that placeholders are never issued twice. */
module IngestRuns {
  import opened Common
  import opened Market
  import opened Selection
  import opened Skeleton
  import opened Ingest
  import SubSet

  /** Everything one ticker's ingest sees.  A discovery carries the day it is handled on. */
  datatype Event =
    | Discovered(ev: ChainEvent, today: int)
    | Computed(o: OptComp)
    | Ticked(price: real)
    | Vendor(entries: seq<VendorEntry>)
    | Flushed

  /** A threshold that is not positive is replaced by the default. */
  type Positive = n: nat | n >= 1 witness 1

  /** seed is the book the ticker starts with, if any. */
  datatype Config = Config(slot: nat, flushAt: Positive, cal: Calendar, seed: HeldBook) {
    const base: int := SyntheticBase(slot)
  }

  /** The chain a discovery yields, if it is not refused. */
  ghost function Yield(e: Event, cal: Calendar): Option<seq<Contract>>
    requires e.Discovered?
  {
    SubSet.Kept(Universe(e.ev), e.ev.spot, e.ev.baselineIv, e.today, cal)
  }

  lemma YieldShape(e: Event, cal: Calendar)
    requires e.Discovered? && Yield(e, cal).Some?
    ensures var rows := Yield(e, cal).value;
            && DistinctIds(rows) && rows != [] && (forall c :: c in rows ==> FromEvent(e.ev, c))
            && (forall i :: 0 <= i < |rows| ==> rows[i].conId == 0)
  {
    var universe := Universe(e.ev);
    UniverseIsProduct(e.ev);
    var selected := SelectedByClass(universe, e.today, cal).value;
    SelectedShape(universe, e.today, cal);
    FilterMember(selected, WindowTest(e.ev.spot, e.ev.baselineIv, e.today));
    FilterDistinct(selected, WindowTest(e.ev.spot, e.ev.baselineIv, e.today));
    var rows := Yield(e, cal).value;
    forall i | 0 <= i < |rows| ensures rows[i].conId == 0 {
      assert rows[i] in rows;
    }
  }

  lemma SelectedShape(rows: seq<Contract>, today: int, cal: Calendar)
    requires DistinctIds(rows) && SelectedByClass(rows, today, cal).Some?
    ensures DistinctIds(SelectedByClass(rows, today, cal).value)
    ensures forall c :: c in SelectedByClass(rows, today, cal).value ==> c in rows
  {
    if |Classes(rows)| <= 1 {
      FilterMember(rows, PickTest(rows, today, cal));
      FilterDistinct(rows, PickTest(rows, today, cal));
    } else {
      FilterMember(rows, ClassPickTest(rows, today, cal));
      FilterDistinct(rows, ClassPickTest(rows, today, cal));
    }
  }

  // ---------------------------------------------------------------- one ticker

  function Current(s: Option<IngestState>): IngestState { if s.Some? then s.value else EMPTY }

  function BookOf(s: Option<IngestState>, cfg: Config): Option<Book> { if s.Some? then s.value.book else cfg.seed }

  /** The state a discovery starts from. */
  function Opening(s: Option<IngestState>, cfg: Config): IngestState { Current(s).(book := BookOf(s, cfg)) }

  /** One event; before the first discovery there is nothing to update. */
  ghost function Step(s: Option<IngestState>, e: Event, cfg: Config): Option<IngestState> {
    match e
    case Discovered(ev, today) =>
      (match Yield(e, cfg.cal)
       case None => s
       case Some(rows) => Some(Adopt(Opening(s, cfg), rows, ev.spot, cfg.base)))
    case Computed(o) => if s.None? then None else Some(OnOptComp(s.value, cfg.flushAt, o))
    case Ticked(price) => if s.None? then None else Some(OnSpot(s.value, price))
    case Vendor(entries) => if s.None? then None else Some(OnVendor(s.value, entries))
    case Flushed => if s.None? then None else Some(Flush(s.value))
  }

  ghost function Run(s: Option<IngestState>, es: seq<Event>, cfg: Config): Option<IngestState> {
    if es == [] then s else Step(Run(s, es[..|es| - 1], cfg), es[|es| - 1], cfg)
  }

  lemma RunExtend(s: Option<IngestState>, es: seq<Event>, e: Event, cfg: Config)
    ensures Run(s, es + [e], cfg) == Step(Run(s, es, cfg), e, cfg)
  {
    assert (es + [e])[..|es|] == es;
  }

  // ---------------------------------------------------------------- every reachable state

  lemma StepSound(s: Option<IngestState>, e: Event, cfg: Config)
    requires Sound(Current(s))
    ensures Sound(Current(Step(s, e, cfg)))
  {
    match e
    case Discovered(ev, _) =>
      if Yield(e, cfg.cal).Some? {
        YieldShape(e, cfg.cal);
        AdoptSound(Opening(s, cfg), Yield(e, cfg.cal).value, ev.spot, cfg.base);
      }
    case Computed(o) => OptCompSound(Current(s), cfg.flushAt, o);
    case Vendor(entries) => VendorSound(Current(s), entries);
    case _ =>
  }

  /** In every reachable state identities are distinct, no id is zero and every entry of the
      index points to a row with that id. */
  lemma {:induction false} RunSound(s: Option<IngestState>, es: seq<Event>, cfg: Config)
    requires Sound(Current(s))
    ensures Sound(Current(Run(s, es, cfg)))
  {
    if es != [] {
      RunSound(s, es[..|es| - 1], cfg);
      StepSound(Run(s, es[..|es| - 1], cfg), es[|es| - 1], cfg);
    }
  }

  // ---------------------------------------------------------------- exactly when the index is exact

  ghost predicate Exact(s: Option<IngestState>) { IndexExact(Current(s).rows, Current(s).byCon) }

  /** A discovery that carries over an id which it is about to issue. */
  ghost predicate Collides(s: Option<IngestState>, e: Event, cfg: Config) {
    e.Discovered? && Yield(e, cfg.cal).Some? &&
    exists i :: Clash(Carry(Yield(e, cfg.cal).value, Current(s).rows), cfg.base, Current(s).nextSyn, i)
  }

  /** From an exact index, a step loses exactness if and only if it is such a discovery. */
  lemma StepExactIff(s: Option<IngestState>, e: Event, cfg: Config)
    requires Sound(Current(s)) && Exact(s)
    ensures Exact(Step(s, e, cfg)) <==> !Collides(s, e, cfg)
  {
    match e
    case Discovered(ev, _) =>
      if Yield(e, cfg.cal).Some? {
        YieldShape(e, cfg.cal);
        ExactDistinct(Current(s).rows, Current(s).byCon);
        AdoptExactIff(Opening(s, cfg), Yield(e, cfg.cal).value, ev.spot, cfg.base);
      }
    case Computed(o) => OptCompSound(Current(s), cfg.flushAt, o);
    case Vendor(entries) => VendorSound(Current(s), entries);
    case _ =>
  }

  ghost predicate ExactThroughout(es: seq<Event>, cfg: Config) {
    Exact(Run(None, es, cfg)) && (es != [] ==> ExactThroughout(es[..|es| - 1], cfg))
  }
  ghost predicate NeverCollides(es: seq<Event>, cfg: Config) {
    es != [] ==> !Collides(Run(None, es[..|es| - 1], cfg), es[|es| - 1], cfg) && NeverCollides(es[..|es| - 1], cfg)
  }

  /** The index is the exact inverse of the id column all through a session if and only if no
      discovery of it carries over an id which it is about to issue. */
  lemma {:induction false} IndexExactIff(es: seq<Event>, cfg: Config)
    ensures ExactThroughout(es, cfg) <==> NeverCollides(es, cfg)
  {
    if es != [] {
      var n := |es| - 1;
      IndexExactIff(es[..n], cfg);
      if ExactThroughout(es[..n], cfg) {
        RunSound(None, es[..n], cfg);
        ExactNow(es[..n], cfg);
        StepExactIff(Run(None, es[..n], cfg), es[n], cfg);
      }
    }
  }

  lemma ExactNow(es: seq<Event>, cfg: Config)
    requires ExactThroughout(es, cfg)
    ensures Exact(Run(None, es, cfg))
  {
  }

  /** IBKR contract ids are positive; an id of zero is dropped by the core. */
  predicate WireId(e: Event) { e.Computed? ==> e.o.conId >= 0 }
  ghost predicate WireIds(es: seq<Event>) { forall i :: 0 <= i < |es| ==> WireId(es[i]) }

  lemma StepValid(s: Option<IngestState>, e: Event, cfg: Config)
    requires Valid(Current(s), cfg.base) && WireId(e)
    ensures Valid(Current(Step(s, e, cfg)), cfg.base)
  {
    match e
    case Discovered(ev, _) =>
      if Yield(e, cfg.cal).Some? {
        YieldShape(e, cfg.cal);
        AdoptValid(Opening(s, cfg), Yield(e, cfg.cal).value, ev.spot, cfg.base);
      }
    case Computed(o) => OptCompValid(Current(s), cfg.base, cfg.flushAt, o);
    case Vendor(entries) => VendorValid(Current(s), cfg.base, entries);
    case _ =>
  }

  /** Without negative ids on the wire it always is, and every id in the chain has been issued
      by the allocator or come from the wire. */
  lemma {:induction false} RunValid(s: Option<IngestState>, es: seq<Event>, cfg: Config)
    requires Valid(Current(s), cfg.base) && WireIds(es)
    ensures Valid(Current(Run(s, es, cfg)), cfg.base)
  {
    if es != [] {
      RunValid(s, es[..|es| - 1], cfg);
      StepValid(Run(s, es[..|es| - 1], cfg), es[|es| - 1], cfg);
    }
  }

  // ---------------------------------------------------------------- flushes leave no trace

  /** The part of the state that flushing never touches. */
  datatype Chain = Chain(rows: seq<Contract>, spot: real, byCon: map<int, int>, nextSyn: nat)

  function Working(s: Option<IngestState>): Option<Chain> {
    match s case None => None case Some(t) => Some(Chain(t.rows, t.spot, t.byCon, t.nextSyn))
  }

  lemma SameWorkingStep(s: Option<IngestState>, t: Option<IngestState>, e: Event, cfg: Config)
    requires Working(s) == Working(t)
    ensures Working(Step(s, e, cfg)) == Working(Step(t, e, cfg))
  {
    match e
    case Computed(o) => if s.Some? { assert Target(s.value, o) == Target(t.value, o); }
    case _ =>
  }

  function Erase(es: seq<Event>): seq<Event> {
    if es == [] then [] else
    Erase(es[..|es| - 1]) + (if es[|es| - 1].Flushed? then [] else [es[|es| - 1]])
  }

  /** The working chain after a run is the one after the run without its flushes. */
  lemma {:induction false} FlushesInvisible(s: Option<IngestState>, es: seq<Event>, cfg: Config)
    ensures Working(Run(s, es, cfg)) == Working(Run(s, Erase(es), cfg))
  {
    if es != [] {
      var n := |es| - 1;
      FlushesInvisible(s, es[..n], cfg);
      if es[n].Flushed? {
        assert Erase(es) == Erase(es[..n]);
      } else {
        assert Erase(es) == Erase(es[..n]) + [es[n]];
        RunExtend(s, Erase(es[..n]), es[n], cfg);
        SameWorkingStep(Run(s, es[..n], cfg), Run(s, Erase(es[..n]), cfg), es[n], cfg);
      }
    }
  }

  // ---------------------------------------------------------------- what re-discovery keeps

  /** A re-discovery keeps id, open interest, volatility and quotes of every identity that
      survives it, and stamps every other row with an id never issued before. */
  lemma AdoptCarries(s: IngestState, rows: seq<Contract>, spot: real, base: int, i: nat)
    requires Sound(s) && i < |rows| && rows[i].conId == 0
    ensures var a := Adopt(s, rows, spot, base);
            var k := IndexOf(s.rows, Id(rows[i]));
            && |a.rows| == |rows| && Id(a.rows[i]) == Id(rows[i])
            && (k >= 0 ==> && a.rows[i].conId == s.rows[k].conId && a.rows[i].openInterest == s.rows[k].openInterest
                           && a.rows[i].iv == s.rows[k].iv && a.rows[i].bid == s.rows[k].bid && a.rows[i].ask == s.rows[k].ask)
            && (k < 0 ==> base - a.nextSyn <= a.rows[i].conId < base - s.nextSyn)
  {
    var carried := Carry(rows, s.rows);
    if carried[i].conId == 0 {
      StampFresh(carried, base, s.nextSyn, i);
    }
  }

  /** The row of an identity. */
  ghost predicate Has(s: Option<IngestState>, id: Identity) { s.Some? && IndexOf(s.value.rows, id) >= 0 }
  ghost function RowOf(s: Option<IngestState>, id: Identity): Contract
    requires Has(s, id)
  {
    s.value.rows[IndexOf(s.value.rows, id)]
  }

  /** Open interest and volatility, once known, are not forgotten. */
  ghost predicate StillKnown(was: Contract, now: Contract) {
    (was.openInterest > 0.0 ==> now.openInterest > 0.0) && (was.iv > 0.0 ==> now.iv > 0.0)
  }

  lemma {:induction false} SameIndex(rows: seq<Contract>, rows': seq<Contract>, id: Identity)
    requires |rows| == |rows'| && forall i :: 0 <= i < |rows| ==> Id(rows[i]) == Id(rows'[i])
    ensures IndexOf(rows, id) == IndexOf(rows', id)
  {
    if rows != [] {
      SameIndex(rows[..|rows| - 1], rows'[..|rows| - 1], id);
    }
  }

  lemma PatchKnown(s: IngestState, o: OptComp, id: Identity)
    requires Target(s, o) >= 0 && Has(Some(s), id)
    ensures Has(Some(Patched(s, o)), id)
    ensures StillKnown(RowOf(Some(s), id), RowOf(Some(Patched(s, o)), id))
  {
    PatchKeepsIds(s, o);
    SameIndex(s.rows, Patched(s, o).rows, id);
  }

  lemma VendorKnown(s: IngestState, entries: seq<VendorEntry>, id: Identity)
    requires Has(Some(s), id)
    ensures Has(Some(OnVendor(s, entries)), id) && StillKnown(RowOf(Some(s), id), RowOf(Some(OnVendor(s, entries)), id))
  {
    SameIndex(s.rows, VendorRows(entries, s.rows), id);
  }

  lemma AdoptKnown(s: IngestState, rows: seq<Contract>, spot: real, base: int, id: Identity)
    requires Sound(s) && forall j :: 0 <= j < |rows| ==> rows[j].conId == 0
    requires Has(Some(s), id) && Has(Some(Adopt(s, rows, spot, base)), id)
    ensures StillKnown(RowOf(Some(s), id), RowOf(Some(Adopt(s, rows, spot, base)), id))
  {
    var i := IndexOf(Adopt(s, rows, spot, base).rows, id);
    AdoptCarries(s, rows, spot, base, i);
  }

  lemma StepKnown(s: Option<IngestState>, e: Event, cfg: Config, id: Identity)
    requires Sound(Current(s)) && Has(s, id) && Has(Step(s, e, cfg), id)
    ensures StillKnown(RowOf(s, id), RowOf(Step(s, e, cfg), id))
  {
    match e
    case Discovered(ev, today) =>
      if Yield(e, cfg.cal).Some? {
        YieldShape(e, cfg.cal);
        AdoptKnown(s.value, Yield(e, cfg.cal).value, ev.spot, cfg.base, id);
      }
    case Computed(o) =>
      if Target(s.value, o) >= 0 {
        PatchKnown(s.value, o, id);
      }
    case Vendor(entries) => VendorKnown(s.value, entries, id);
    case _ =>
  }

  ghost predicate StaysSelected(s: Option<IngestState>, es: seq<Event>, cfg: Config, id: Identity) {
    Has(Run(s, es, cfg), id) && (es != [] ==> StaysSelected(s, es[..|es| - 1], cfg, id))
  }

  /** Over every run in which an identity stays selected: open interest and volatility that
      were positive stay positive. */
  lemma {:induction false} KnownForever(s: Option<IngestState>, es: seq<Event>, cfg: Config, id: Identity)
    requires Sound(Current(s)) && StaysSelected(s, es, cfg, id)
    ensures Has(s, id) && Has(Run(s, es, cfg), id) && StillKnown(RowOf(s, id), RowOf(Run(s, es, cfg), id))
  {
    if es != [] {
      var n := |es| - 1;
      KnownForever(s, es[..n], cfg, id);
      RunSound(s, es[..n], cfg);
      StepKnown(Run(s, es[..n], cfg), es[n], cfg, id);
    }
  }

  /** Whether vendor data leaves a row's open interest alone: exactly when it has none for the
      row, or the same.  A value TWS delivered is not protected. */
  lemma VendorKeepsInterestIff(s: IngestState, entries: seq<VendorEntry>, i: nat)
    requires i < |s.rows|
    ensures OnVendor(s, entries).rows[i].openInterest == s.rows[i].openInterest <==>
            (forall oi :: Offers(entries, s.rows[i], oi) ==> oi == s.rows[i].openInterest)
  {
    OffersIs(entries, s.rows[i]);
    if PickVendor(entries, s.rows[i]).Some? {
      assert AnyMatch(entries, s.rows);
    }
  }

  // ---------------------------------------------------------------- placeholder ids

  /** Over every run the allocator only moves on, so an id issued later is new. */
  lemma {:induction false} AllocatorMonotone(s: Option<IngestState>, es: seq<Event>, cfg: Config)
    ensures Current(s).nextSyn <= Current(Run(s, es, cfg)).nextSyn
  {
    if es != [] {
      AllocatorMonotone(s, es[..|es| - 1], cfg);
    }
  }

  /** Handled in state s, e is a discovery that stamps an identity not there before with
      placeholder x. */
  ghost predicate Stamps(s: Option<IngestState>, e: Event, cfg: Config, x: int) {
    e.Discovered? && Yield(e, cfg.cal).Some? && exists k :: NewRow(Opening(s, cfg), Yield(e, cfg.cal).value, e.ev.spot, cfg.base, k, x)
  }
  ghost predicate NewRow(s: IngestState, rows: seq<Contract>, spot: real, base: int, k: int, x: int) {
    && 0 <= k < |rows| && IndexOf(s.rows, Id(rows[k])) < 0
    && k < |Adopt(s, rows, spot, base).rows| && Adopt(s, rows, spot, base).rows[k].conId == x
  }

  /** A placeholder counts on from the allocator before its discovery, up to the one after. */
  lemma StampedBetween(s: Option<IngestState>, e: Event, cfg: Config, x: int)
    requires Sound(Current(s)) && Stamps(s, e, cfg, x)
    ensures cfg.base - Current(Step(s, e, cfg)).nextSyn <= x < cfg.base - Current(s).nextSyn
  {
    var rows := Yield(e, cfg.cal).value;
    var k :| NewRow(Opening(s, cfg), rows, e.ev.spot, cfg.base, k, x);
    YieldShape(e, cfg.cal);
    AdoptCarries(Opening(s, cfg), rows, e.ev.spot, cfg.base, k);
  }

  /** No placeholder is ever issued twice: whatever happens between two discoveries, the
      later one stamps below everything the earlier one stamped. */
  lemma PlaceholdersNeverReused(s: Option<IngestState>, e: Event, es: seq<Event>, e': Event, cfg: Config, x: int, y: int)
    requires Sound(Current(s)) && Stamps(s, e, cfg, x) && Stamps(Run(Step(s, e, cfg), es, cfg), e', cfg, y)
    ensures y < x
  {
    StampedBetween(s, e, cfg, x);
    StepSound(s, e, cfg);
    RunSound(Step(s, e, cfg), es, cfg);
    StampedBetween(Run(Step(s, e, cfg), es, cfg), e', cfg, y);
    AllocatorMonotone(Step(s, e, cfg), es, cfg);
  }

  /** A placeholder passes the boot check of its ticker exactly while it is one of the first
      that a slot holds. */
  lemma PlaceholderBootCheck(s: Option<IngestState>, e: Event, cfg: Config, x: int)
    requires Sound(Current(s)) && Stamps(s, e, cfg, x)
    ensures ConIdMatches(x, cfg.slot) <==> cfg.base - x <= SLOT_WIDTH
    ensures Current(Step(s, e, cfg)).nextSyn <= SLOT_WIDTH ==> ConIdMatches(x, cfg.slot)
  {
    StampedBetween(s, e, cfg, x);
    PlaceholderInSlot(cfg.slot, cfg.base - x);
  }
}
