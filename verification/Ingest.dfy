/** The edge ingest core (core/internal/edge/ingest.go, vendoroi.go) on values: one ticker's
    working chain, its conId index, its placeholder allocator, and the copy last accepted by
    the book.  `IngestState` below is what the class in TickerIngests.dfy implements. */
module Ingest {
  import opened Common
  import opened Market

  // ---------------------------------------------------------------- namespaces of placeholder ids

  const SLOT_WIDTH := 200_000

  /** The base of a ticker's slot; `slot` is the ticker's hash modulo a million. */
  function SyntheticBase(slot: nat): int { -(slot * SLOT_WIDTH) }

  /** Whether boot restore accepts the id for a ticker of this slot. */
  predicate ConIdMatches(conId: int, slot: nat) {
    conId >= 0 || (-conId - 1) / SLOT_WIDTH == slot
  }

  /** The k-th placeholder of a slot is accepted at boot exactly for the first SLOT_WIDTH. */
  lemma PlaceholderInSlot(slot: nat, k: nat)
    requires k >= 1
    ensures ConIdMatches(SyntheticBase(slot) - k, slot) <==> k <= SLOT_WIDTH
  {
  }

  /** Placeholders of different slots never collide while each stays in its slot. */
  lemma SlotsDisjoint(slot: nat, k: nat, slot': nat, k': nat)
    requires slot != slot' && 1 <= k <= SLOT_WIDTH && 1 <= k' <= SLOT_WIDTH
    ensures SyntheticBase(slot) - k != SyntheticBase(slot') - k'
  {
    PlaceholderInSlot(slot, k);
    PlaceholderInSlot(slot', k');
  }

  // ---------------------------------------------------------------- state

  datatype Book = Book(rows: seq<Contract>, spot: real)

  datatype IngestState = IngestState(
    rows: seq<Contract>, spot: real, byCon: map<int, int>, nextSyn: nat,
    pending: bool, patchCount: nat, book: Option<Book>)

  const EMPTY := IngestState([], 0.0, map[], 0, false, 0, None)

  datatype OptComp = OptComp(
    conId: int, strike: real, right: string, expiry: Expiry, cls: string,
    settlement: string, exchange: string, multiplier: real,
    iv: real, bid: real, ask: real, openInterest: real, undPrice: real)

  function IdOf(o: OptComp): Identity { Identity(o.cls, o.expiry, o.right, o.strike) }

  datatype VendorEntry = VendorEntry(cls: string, right: string, strike: real, expiry: Expiry, oi: real)

  /** Every entry of byCon points to a row with that id. */
  ghost predicate IndexPoints(rows: seq<Contract>, byCon: map<int, int>) {
    forall k :: k in byCon ==> 0 <= byCon[k] < |rows| && rows[byCon[k]].conId == k
  }

  /** byCon is exactly the inverse of the conId column. */
  ghost predicate IndexExact(rows: seq<Contract>, byCon: map<int, int>) {
    IndexPoints(rows, byCon) && forall i :: 0 <= i < |rows| ==> rows[i].conId in byCon && byCon[rows[i].conId] == i
  }

  /** What holds in every reachable state, whatever ids the wire carries. */
  ghost predicate Sound(s: IngestState) {
    DistinctIds(s.rows) && IndexPoints(s.rows, s.byCon) && forall i :: 0 <= i < |s.rows| ==> s.rows[i].conId != 0
  }

  /** No id is one the allocator has yet to issue. */
  ghost predicate IdsIssued(rows: seq<Contract>, base: int, nextSyn: nat) {
    forall i :: 0 <= i < |rows| ==> rows[i].conId >= base - nextSyn
  }

  /** What holds as long as the wire carries no negative id. */
  ghost predicate Valid(s: IngestState, base: int) {
    Sound(s) && IndexExact(s.rows, s.byCon) && IdsIssued(s.rows, base, s.nextSyn)
  }

  // ---------------------------------------------------------------- the book

  predicate SaneSpot(v: real) { 0.0 < v < 1_000_000_000.0 }
  predicate KnownSettlement(s: string) { s == "" || s == "AM" || s == "PM" }

  /** What the book checks of one row. */
  predicate RowAccepted(c: Contract) {
    && c.conId != 0 && c.strike > 0.0 && (c.right == CALL || c.right == PUT)
    && c.openInterest >= 0.0 && c.bid >= 0.0 && c.ask >= 0.0 && KnownSettlement(c.settlement)
  }
  ghost predicate Accepted(rows: seq<Contract>, spot: real) {
    SaneSpot(spot) && forall i :: 0 <= i < |rows| ==> RowAccepted(rows[i])
  }

  /** The book never holds a chain it would refuse. */
  ghost predicate BookSane(b: Option<Book>) { b.Some? ==> Accepted(b.value.rows, b.value.spot) }
  type HeldBook = b: Option<Book> | BookSane(b) witness None

  /** Hand a chain to the book, which keeps its old one when it refuses. */
  ghost function Publish(book: Option<Book>, rows: seq<Contract>, spot: real): Option<Book> {
    if Accepted(rows, spot) then Some(Book(rows, spot)) else book
  }

  ghost function Flush(s: IngestState): IngestState {
    if s.pending then s.(pending := false, patchCount := 0, book := Publish(s.book, s.rows, s.spot)) else s
  }

  // ---------------------------------------------------------------- re-discovery

  /** First row with an identity, or -1. */
  function IndexOf(rows: seq<Contract>, id: Identity): (r: int)
    ensures -1 <= r < |rows|
    ensures r >= 0 ==> Id(rows[r]) == id
    ensures r < 0 ==> forall i :: 0 <= i < |rows| ==> Id(rows[i]) != id
  {
    if rows == [] then -1 else
    var r := IndexOf(rows[..|rows| - 1], id);
    if r >= 0 then r else if Id(rows[|rows| - 1]) == id then |rows| - 1 else -1
  }

  /** A surviving identity keeps its id, open interest, volatility and quotes. */
  function CarryRow(c: Contract, prev: seq<Contract>): Contract {
    var k := IndexOf(prev, Id(c));
    if k < 0 then c else
    c.(conId := prev[k].conId, openInterest := prev[k].openInterest, iv := prev[k].iv, bid := prev[k].bid, ask := prev[k].ask)
  }
  function Carry(rows: seq<Contract>, prev: seq<Contract>): (r: seq<Contract>)
    ensures |r| == |rows|
  {
    seq(|rows|, i requires 0 <= i < |rows| => CarryRow(rows[i], prev))
  }

  /** Rows without an id. */
  function BareCount(rows: seq<Contract>): nat {
    if rows == [] then 0 else BareCount(rows[..|rows| - 1]) + (if rows[|rows| - 1].conId == 0 then 1 else 0)
  }

  /** Placeholders count down from base - nextSyn over the rows without an id. */
  function StampRow(rows: seq<Contract>, i: nat, base: int, nextSyn: nat): Contract
    requires i < |rows|
  {
    if rows[i].conId != 0 then rows[i] else rows[i].(conId := base - (nextSyn + BareCount(rows[..i + 1])))
  }
  function Stamp(rows: seq<Contract>, base: int, nextSyn: nat): (r: seq<Contract>)
    ensures |r| == |rows|
  {
    seq(|rows|, i requires 0 <= i < |rows| => StampRow(rows, i, base, nextSyn))
  }

  function IndexRows(rows: seq<Contract>): map<int, int> {
    if rows == [] then map[] else IndexRows(rows[..|rows| - 1])[rows[|rows| - 1].conId := |rows| - 1]
  }

  /** Install a filtered chain as the working state and publish it. */
  ghost function Adopt(s: IngestState, rows: seq<Contract>, spot: real, base: int): IngestState {
    var carried := Carry(rows, s.rows);
    var stamped := Stamp(carried, base, s.nextSyn);
    IngestState(stamped, spot, IndexRows(stamped), s.nextSyn + BareCount(carried), false, 0,
                Publish(s.book, stamped, spot))
  }

  // ---------------------------------------------------------------- updates

  /** The quote of an event, each part only where it says something. */
  function Quote(c: Contract, o: OptComp): Contract {
    var c := if o.iv > 0.0 then c.(iv := o.iv) else c;
    var c := if o.bid > 0.0 || o.ask > 0.0 then c.(bid := o.bid, ask := o.ask) else c;
    if o.openInterest > 0.0 then c.(openInterest := o.openInterest) else c
  }
  /** Parameters a known contract may change. */
  function Amend(c: Contract, o: OptComp): Contract {
    var c := if o.multiplier > 0.0 && c.multiplier > 0.0 then c.(multiplier := o.multiplier) else c;
    var c := if o.settlement != "" then c.(settlement := o.settlement) else c;
    if o.exchange != "" then c.(exchange := o.exchange) else c
  }

  /** The row an event updates, or -1 when it is dropped.  (`Sound` puts every entry of the
      index inside the chain.) */
  function Target(s: IngestState, o: OptComp): (idx: int)
    ensures -1 <= idx < |s.rows|
    ensures idx >= 0 ==> Id(s.rows[idx]) == IdOf(o)
  {
    if o.conId == 0 then -1
    else if o.conId in s.byCon then
      var i := s.byCon[o.conId];
      if 0 <= i < |s.rows| && Id(s.rows[i]) == IdOf(o) then i else -1
    else IndexOf(s.rows, IdOf(o))
  }

  /** The row after the event: a known id is amended, an unknown one replaces the row's id. */
  function Updated(c: Contract, o: OptComp, known: bool): Contract {
    Quote(if known then Amend(c, o) else c.(conId := o.conId), o)
  }

  function Reindexed(byCon: map<int, int>, was: int, now: int, idx: int): map<int, int> {
    if now in byCon then byCon else (byCon - {was})[now := idx]
  }

  function Patched(s: IngestState, o: OptComp): IngestState
    requires Target(s, o) >= 0
  {
    var idx := Target(s, o);
    var c := s.rows[idx];
    s.(rows := s.rows[idx := Updated(c, o, o.conId in s.byCon)],
       byCon := Reindexed(s.byCon, c.conId, o.conId, idx),
       spot := if SaneSpot(o.undPrice) then o.undPrice else s.spot,
       pending := true, patchCount := s.patchCount + 1)
  }

  ghost function OnOptComp(s: IngestState, flushAt: nat, o: OptComp): IngestState {
    if Target(s, o) < 0 then s else
    var p := Patched(s, o);
    if p.patchCount >= flushAt then Flush(p) else p
  }

  /** A spot tick goes to the working chain and straight to the book. */
  ghost function OnSpot(s: IngestState, price: real): IngestState {
    if !SaneSpot(price) then s else
    s.(spot := price, book := match s.book case None => None case Some(b) => Some(b.(spot := price)))
  }

  // ---------------------------------------------------------------- vendor open interest

  /** Strikes compare as whole ten-thousandths, rounded half away from zero. */
  function Scaled(strike: real): int {
    if strike >= 0.0 then (strike * 10000.0 + 0.5).Floor else -((-strike * 10000.0 + 0.5).Floor)
  }

  /** The last entry of a listing on an expiry. */
  function Lookup(entries: seq<VendorEntry>, c: Contract, expiry: Expiry): Option<real> {
    if entries == [] then None else
    var e := entries[|entries| - 1];
    if Matches(e, c, expiry) then Some(e.oi) else Lookup(entries[..|entries| - 1], c, expiry)
  }

  /** The contract's own expiry, else the day before, else the day after; never a zero. */
  function PickVendor(entries: seq<VendorEntry>, c: Contract): (r: Option<real>)
    ensures r.Some? ==> r.value > 0.0
  {
    match Lookup(entries, c, c.expiry)
    case Some(oi) => if oi <= 0.0 then None else Some(oi)
    case None =>
      if c.expiry.BadDate? then None else
      var before, after := Lookup(entries, c, Ymd(c.expiry.day - 1)), Lookup(entries, c, Ymd(c.expiry.day + 1));
      if before.Some? && before.value > 0.0 then before
      else if after.Some? && after.value > 0.0 then after else None
  }

  /** entries name a value for c on this expiry, and the last one they name is oi. */
  ghost predicate Names(entries: seq<VendorEntry>, c: Contract, expiry: Expiry, oi: real) {
    exists i :: 0 <= i < |entries| && Matches(entries[i], c, expiry) && entries[i].oi == oi &&
                forall j :: i < j < |entries| ==> !Matches(entries[j], c, expiry)
  }
  predicate Matches(e: VendorEntry, c: Contract, expiry: Expiry) {
    e.cls == c.cls && e.right == c.right && Scaled(e.strike) == Scaled(c.strike) && e.expiry == expiry
  }
  ghost predicate Silent(entries: seq<VendorEntry>, c: Contract, expiry: Expiry) {
    forall i :: 0 <= i < |entries| ==> !Matches(entries[i], c, expiry)
  }

  /** The value vendor data has for a contract: a positive one on its own expiry; if it names
      none there at all, a positive one a day earlier, else a day later. */
  ghost predicate Offers(entries: seq<VendorEntry>, c: Contract, oi: real) {
    oi > 0.0 &&
    (Names(entries, c, c.expiry, oi) ||
     (Silent(entries, c, c.expiry) && c.expiry.Ymd? &&
      (Names(entries, c, Ymd(c.expiry.day - 1), oi) ||
       (Names(entries, c, Ymd(c.expiry.day + 1), oi) && !NamesPositive(entries, c, Ymd(c.expiry.day - 1))))))
  }
  ghost predicate NamesPositive(entries: seq<VendorEntry>, c: Contract, expiry: Expiry) {
    exists oi :: oi > 0.0 && Names(entries, c, expiry, oi)
  }

  lemma {:induction false} LookupIs(entries: seq<VendorEntry>, c: Contract, expiry: Expiry)
    ensures Lookup(entries, c, expiry).None? <==> Silent(entries, c, expiry)
    ensures forall oi :: Lookup(entries, c, expiry) == Some(oi) <==> Names(entries, c, expiry, oi)
  {
    if entries != [] {
      var n := |entries| - 1;
      LookupIs(entries[..n], c, expiry);
      forall oi ensures Lookup(entries, c, expiry) == Some(oi) <==> Names(entries, c, expiry, oi) {
        NamesAppend(entries, c, expiry, oi);
      }
    }
  }

  lemma NamesAppend(entries: seq<VendorEntry>, c: Contract, expiry: Expiry, oi: real)
    requires entries != []
    ensures var n := |entries| - 1;
            Names(entries, c, expiry, oi) <==>
            if Matches(entries[n], c, expiry) then entries[n].oi == oi else Names(entries[..n], c, expiry, oi)
  {
    var n := |entries| - 1;
    if !Matches(entries[n], c, expiry) && Names(entries[..n], c, expiry, oi) {
      var i :| 0 <= i < n && Matches(entries[..n][i], c, expiry) && entries[..n][i].oi == oi &&
               forall j :: i < j < n ==> !Matches(entries[..n][j], c, expiry);
      forall j | i < j < |entries| ensures !Matches(entries[j], c, expiry) {
        if j < n {
          assert entries[..n][j] == entries[j];
        }
      }
      assert Matches(entries[i], c, expiry);
    }
    if !Matches(entries[n], c, expiry) && Names(entries, c, expiry, oi) {
      var i :| 0 <= i < |entries| && Matches(entries[i], c, expiry) && entries[i].oi == oi &&
               forall j :: i < j < |entries| ==> !Matches(entries[j], c, expiry);
      assert entries[..n][i] == entries[i];
    }
  }

  lemma OffersIs(entries: seq<VendorEntry>, c: Contract)
    ensures forall oi :: PickVendor(entries, c) == Some(oi) <==> Offers(entries, c, oi)
  {
    LookupIs(entries, c, c.expiry);
    if c.expiry.Ymd? {
      LookupIs(entries, c, Ymd(c.expiry.day - 1));
      LookupIs(entries, c, Ymd(c.expiry.day + 1));
    }
  }

  /** An entry and a row that agree in class, right, strike and date match; if one of the first two or
      the date differs, or the strikes are a ten-thousandth apart or more, they do not. */
  lemma MatchIs(e: VendorEntry, c: Contract, expiry: Expiry)
    ensures e.cls == c.cls && e.right == c.right && e.expiry == expiry && e.strike == c.strike ==> Matches(e, c, expiry)
    ensures Matches(e, c, expiry) ==> e.cls == c.cls && e.right == c.right && e.expiry == expiry && Abs(e.strike - c.strike) < 0.0001
    ensures Scaled(e.strike) as real - 0.5 <= e.strike * 10000.0 <= Scaled(e.strike) as real + 0.5
    ensures Scaled(-e.strike) == -Scaled(e.strike) && Scaled(0.00005) == 1
  {
    Rounded(e.strike);
    Rounded(c.strike);
    assert 0.00005 * 10000.0 + 0.5 == 1.0;
  }

  lemma Rounded(strike: real)
    ensures Scaled(strike) as real - 0.5 <= strike * 10000.0 <= Scaled(strike) as real + 0.5
    ensures strike >= 0.0 ==> strike * 10000.0 < Scaled(strike) as real + 0.5
    ensures strike < 0.0 ==> strike * 10000.0 > Scaled(strike) as real - 0.5
  {
  }

  function VendorRow(entries: seq<VendorEntry>, c: Contract): Contract {
    match PickVendor(entries, c) case None => c case Some(oi) => c.(openInterest := oi)
  }
  function VendorRows(entries: seq<VendorEntry>, rows: seq<Contract>): (r: seq<Contract>)
    ensures |r| == |rows|
  {
    seq(|rows|, i requires 0 <= i < |rows| => VendorRow(entries, rows[i]))
  }
  ghost predicate AnyMatch(entries: seq<VendorEntry>, rows: seq<Contract>) {
    exists i :: 0 <= i < |rows| && PickVendor(entries, rows[i]).Some?
  }

  ghost function OnVendor(s: IngestState, entries: seq<VendorEntry>): IngestState {
    if !AnyMatch(entries, s.rows) then s else
    Flush(s.(rows := VendorRows(entries, s.rows), pending := true))
  }

  // ---------------------------------------------------------------- every step is sound

  lemma {:induction false} IndexRowsPoints(rows: seq<Contract>)
    ensures IndexPoints(rows, IndexRows(rows))
    ensures forall i :: 0 <= i < |rows| ==> rows[i].conId in IndexRows(rows)
  {
    if rows != [] {
      var n := |rows| - 1;
      IndexRowsPoints(rows[..n]);
      assert forall i :: 0 <= i < n ==> rows[..n][i] == rows[i];
    }
  }

  lemma {:induction false} BareCountMonotone(rows: seq<Contract>, i: nat, j: nat)
    requires i <= j <= |rows|
    ensures BareCount(rows[..i]) <= BareCount(rows[..j])
    ensures i < j && rows[j - 1].conId == 0 ==> BareCount(rows[..i]) < BareCount(rows[..j])
    decreases j
  {
    if i < j {
      assert rows[..j][..j - 1] == rows[..j - 1];
      BareCountMonotone(rows, i, j - 1);
    }
  }

  /** Every id stamped is below every id issued before. */
  lemma StampFresh(rows: seq<Contract>, base: int, nextSyn: nat, i: nat)
    requires i < |rows| && rows[i].conId == 0
    ensures var k := base - Stamp(rows, base, nextSyn)[i].conId;
            nextSyn < k <= nextSyn + BareCount(rows)
  {
    BareCountMonotone(rows, 0, i + 1);
    BareCountMonotone(rows, i + 1, |rows|);
    assert rows[..|rows|] == rows && rows[..0] == [];
  }

  /** Stamping goes down the rows one id at a time from the last one issued, and touches no other. */
  lemma StampsInOrder(rows: seq<Contract>, base: int, nextSyn: nat, m: nat) returns (i: nat)
    requires 1 <= m <= BareCount(rows)
    ensures i < |rows| && rows[i].conId == 0 && Stamp(rows, base, nextSyn)[i] == rows[i].(conId := base - nextSyn - m)
    ensures forall j :: 0 <= j < |rows| && rows[j].conId == 0 && j != i ==>
              (j < i <==> Stamp(rows, base, nextSyn)[j].conId > Stamp(rows, base, nextSyn)[i].conId)
    ensures forall j :: 0 <= j < |rows| && rows[j].conId != 0 ==> Stamp(rows, base, nextSyn)[j] == rows[j]
  {
    i := BareAt(rows, m);
    forall j | 0 <= j < |rows| && rows[j].conId == 0 && j != i
      ensures j < i <==> Stamp(rows, base, nextSyn)[j].conId > Stamp(rows, base, nextSyn)[i].conId
    {
      if j < i {
        BareCountMonotone(rows, j + 1, i + 1);
      } else {
        BareCountMonotone(rows, i + 1, j + 1);
      }
    }
  }

  /** A re-discovery issues no id in vain: the last one it counts is on a row. */
  lemma AllocatorTight(s: IngestState, rows: seq<Contract>, spot: real, base: int)
    requires Adopt(s, rows, spot, base).nextSyn != s.nextSyn
    ensures exists i :: 0 <= i < |rows| && Adopt(s, rows, spot, base).rows[i].conId == base - Adopt(s, rows, spot, base).nextSyn
  {
    var carried := Carry(rows, s.rows);
    var i := StampsInOrder(carried, base, s.nextSyn, BareCount(carried));
  }

  lemma AdoptSound(s: IngestState, rows: seq<Contract>, spot: real, base: int)
    requires Sound(s) && DistinctIds(rows) && base <= 0
    ensures Sound(Adopt(s, rows, spot, base))
  {
    var carried := Carry(rows, s.rows);
    var stamped := Stamp(carried, base, s.nextSyn);
    IndexRowsPoints(stamped);
    forall i | 0 <= i < |stamped| ensures Id(stamped[i]) == Id(rows[i]) && stamped[i].conId != 0 {
      if carried[i].conId == 0 {
        StampFresh(carried, base, s.nextSyn, i);
      }
    }
  }

  /** An accepted optcomp never changes which contract a row is. */
  lemma PatchKeepsIds(s: IngestState, o: OptComp)
    requires Target(s, o) >= 0
    ensures var p := Patched(s, o);
            |p.rows| == |s.rows| && forall i :: 0 <= i < |s.rows| ==> Id(p.rows[i]) == Id(s.rows[i])
  {
    var p, idx := Patched(s, o), Target(s, o);
    assert Id(p.rows[idx]) == Id(s.rows[idx]);
  }

  /** ... and keeps the index sound; it stays exact if it was. */
  lemma PatchSound(s: IngestState, o: OptComp)
    requires Sound(s) && Target(s, o) >= 0
    ensures Sound(Patched(s, o))
    ensures IndexExact(s.rows, s.byCon) ==> IndexExact(Patched(s, o).rows, Patched(s, o).byCon)
  {
    var p, idx := Patched(s, o), Target(s, o);
    PatchKeepsIds(s, o);
    assert p.rows[idx].conId == o.conId;
    forall i | 0 <= i < |p.rows| && i != idx ensures p.rows[i] == s.rows[i] {
    }
  }

  lemma OptCompSound(s: IngestState, flushAt: nat, o: OptComp)
    requires Sound(s)
    ensures Sound(OnOptComp(s, flushAt, o))
    ensures IndexExact(s.rows, s.byCon) ==> IndexExact(OnOptComp(s, flushAt, o).rows, OnOptComp(s, flushAt, o).byCon)
  {
    if Target(s, o) >= 0 {
      PatchSound(s, o);
    }
  }

  lemma VendorSound(s: IngestState, entries: seq<VendorEntry>)
    requires Sound(s)
    ensures Sound(OnVendor(s, entries))
    ensures IndexExact(s.rows, s.byCon) ==> IndexExact(OnVendor(s, entries).rows, OnVendor(s, entries).byCon)
  {
    var rows := VendorRows(entries, s.rows);
    assert forall i :: 0 <= i < |rows| ==> Id(rows[i]) == Id(s.rows[i]) && rows[i].conId == s.rows[i].conId;
  }

  // ---------------------------------------------------------------- exactly when the index is exact

  ghost predicate DistinctConIds(rows: seq<Contract>) {
    forall i, j :: 0 <= i < j < |rows| ==> rows[i].conId != rows[j].conId
  }

  /** Indexing a chain gives its exact inverse if and only if no id occurs twice. */
  lemma IndexRowsExact(rows: seq<Contract>)
    ensures IndexExact(rows, IndexRows(rows)) <==> DistinctConIds(rows)
  {
    IndexRowsPoints(rows);
  }

  /** A carried id the allocator is about to issue. */
  ghost predicate Clash(carried: seq<Contract>, base: int, nextSyn: nat, i: int) {
    0 <= i < |carried| && carried[i].conId != 0 && base - (nextSyn + BareCount(carried)) <= carried[i].conId < base - nextSyn
  }

  /** Each count from 1 to BareCount is reached at a row without an id. */
  lemma {:induction false} BareAt(rows: seq<Contract>, m: nat) returns (j: nat)
    requires 1 <= m <= BareCount(rows)
    ensures j < |rows| && rows[j].conId == 0 && BareCount(rows[..j + 1]) == m
  {
    var n := |rows| - 1;
    if m <= BareCount(rows[..n]) {
      j := BareAt(rows[..n], m);
      assert rows[..n][..j + 1] == rows[..j + 1];
    } else {
      j := n;
      assert rows[..n + 1] == rows;
    }
  }

  lemma StampClashes(carried: seq<Contract>, base: int, nextSyn: nat, i: int)
    requires Clash(carried, base, nextSyn, i)
    ensures !DistinctConIds(Stamp(carried, base, nextSyn))
  {
    var j := BareAt(carried, base - nextSyn - carried[i].conId);
    var r := Stamp(carried, base, nextSyn);
    assert r[i].conId == r[j].conId && i != j;
  }

  lemma StampDistinct(carried: seq<Contract>, base: int, nextSyn: nat, i: int, j: int)
    requires 0 <= i < j < |carried| && !Clash(carried, base, nextSyn, i) && !Clash(carried, base, nextSyn, j)
    requires carried[i].conId != 0 ==> carried[i].conId != carried[j].conId
    ensures Stamp(carried, base, nextSyn)[i].conId != Stamp(carried, base, nextSyn)[j].conId
  {
    if carried[i].conId == 0 {
      StampFresh(carried, base, nextSyn, i);
    }
    if carried[j].conId == 0 {
      StampFresh(carried, base, nextSyn, j);
      BareCountMonotone(carried, i + 1, j + 1);
    }
  }

  lemma CarryDistinct(rows: seq<Contract>, prev: seq<Contract>, i: int, j: int)
    requires DistinctIds(rows) && DistinctConIds(prev) && 0 <= i < j < |rows|
    requires forall i :: 0 <= i < |rows| ==> rows[i].conId == 0
    requires forall i :: 0 <= i < |prev| ==> prev[i].conId != 0
    ensures Carry(rows, prev)[i].conId != 0 ==> Carry(rows, prev)[i].conId != Carry(rows, prev)[j].conId
  {
    var a, b := IndexOf(prev, Id(rows[i])), IndexOf(prev, Id(rows[j]));
    assert a >= 0 ==> a != b;
  }

  /** Exactly when a re-discovery keeps the index exact: if no id it carries over is one of
      those it is about to issue. */
  lemma AdoptExactIff(s: IngestState, rows: seq<Contract>, spot: real, base: int)
    requires Sound(s) && DistinctConIds(s.rows)
    requires DistinctIds(rows) && forall i :: 0 <= i < |rows| ==> rows[i].conId == 0
    ensures var a := Adopt(s, rows, spot, base);
            IndexExact(a.rows, a.byCon) <==> forall i :: !Clash(Carry(rows, s.rows), base, s.nextSyn, i)
  {
    var carried := Carry(rows, s.rows);
    var stamped := Stamp(carried, base, s.nextSyn);
    IndexRowsExact(stamped);
    forall i | Clash(carried, base, s.nextSyn, i) ensures !DistinctConIds(stamped) {
      StampClashes(carried, base, s.nextSyn, i);
    }
    if forall i :: !Clash(carried, base, s.nextSyn, i) {
      forall i, j | 0 <= i < j < |stamped| ensures stamped[i].conId != stamped[j].conId {
        CarryDistinct(rows, s.rows, i, j);
        StampDistinct(carried, base, s.nextSyn, i, j);
      }
    }
  }

  /** An exact index means that no id occurs twice. */
  lemma ExactDistinct(rows: seq<Contract>, byCon: map<int, int>)
    requires IndexExact(rows, byCon)
    ensures DistinctConIds(rows)
  {
  }

  // ---------------------------------------------------------------- ids that are not negative

  lemma AdoptValid(s: IngestState, rows: seq<Contract>, spot: real, base: int)
    requires Valid(s, base) && DistinctIds(rows) && base <= 0 && forall i :: 0 <= i < |rows| ==> rows[i].conId == 0
    ensures Valid(Adopt(s, rows, spot, base), base)
  {
    var carried := Carry(rows, s.rows);
    AdoptSound(s, rows, spot, base);
    ExactDistinct(s.rows, s.byCon);
    AdoptExactIff(s, rows, spot, base);
    forall i | 0 <= i < |carried| ensures Stamp(carried, base, s.nextSyn)[i].conId >= base - (s.nextSyn + BareCount(carried)) {
      if carried[i].conId == 0 {
        StampFresh(carried, base, s.nextSyn, i);
      }
    }
  }

  lemma OptCompValid(s: IngestState, base: int, flushAt: nat, o: OptComp)
    requires Valid(s, base) && o.conId >= base - s.nextSyn
    ensures Valid(OnOptComp(s, flushAt, o), base)
  {
    OptCompSound(s, flushAt, o);
    if Target(s, o) >= 0 {
      var p, idx := Patched(s, o), Target(s, o);
      assert forall i :: 0 <= i < |p.rows| && i != idx ==> p.rows[i] == s.rows[i];
    }
  }

  lemma VendorValid(s: IngestState, base: int, entries: seq<VendorEntry>)
    requires Valid(s, base)
    ensures Valid(OnVendor(s, entries), base)
  {
    VendorSound(s, entries);
  }
}
