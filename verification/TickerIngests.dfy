/** One underlying's working chain as the source keeps it (tickerIngest in
    core/internal/edge/ingest.go): an array of rows patched in place, and frozen copies of it
    handed to the book.  Every method is proved against the functions of module Ingest;
    `published` holds every array the book was ever given. */
module TickerIngests {
  import opened Common
  import opened Market
  import opened Selection
  import opened Skeleton
  import opened Ingest
  import IngestRuns
  import SubSet

  class TickerIngest {
    const slot: nat
    const base: int := SyntheticBase(slot)
    const flushAt: nat
    var contracts: array<Contract>
    var spot: real
    var byCon: map<int, int>
    var nextSyn: nat
    var pending: bool
    var patchCount: nat
    var book: array?<Contract>
    var bookSpot: real
    ghost var published: set<array<Contract>>

    ghost function State(): IngestState
      reads this, contracts, book
    {
      IngestState(contracts[..], spot, byCon, nextSyn, pending, patchCount,
                  if book == null then None else Some(Book(book[..], bookSpot)))
    }

    /** The working array is never one the book holds. */
    ghost predicate Owned()
      reads this
    {
      contracts !in published && (book != null ==> book in published)
    }

    ghost predicate Inv()
      reads this, contracts, book
    {
      Owned() && Sound(State())
    }

    constructor (slot: nat, flushAt: nat)
      ensures Inv() && State() == EMPTY && this.slot == slot && this.flushAt == flushAt
      ensures fresh(contracts) && published == {}
    {
      this.slot, this.flushAt := slot, flushAt;
      contracts := new Contract[0];
      spot, byCon, nextSyn, pending, patchCount := 0.0, map[], 0, false, 0;
      book, bookSpot, published := null, 0.0, {};
    }

    // -------------------------------------------------------------- the book

    /** What `ApplyChainSnapshot` checks before it stores a chain. */
    method BookAccepts(rows: array<Contract>, price: real) returns (ok: bool)
      ensures ok <==> Accepted(rows[..], price)
    {
      if !SaneSpot(price) {
        return false;
      }
      for i := 0 to rows.Length
        invariant forall k :: 0 <= k < i ==> RowAccepted(rows[k])
      {
        if !RowAccepted(rows[i]) {
          assert rows[..][i] == rows[i];
          return false;
        }
      }
      return true;
    }

    /** `publishLocked`: the book gets a copy, never the working array. */
    method PublishCopy() returns (ok: bool)
      requires Owned()
      modifies `book, `bookSpot, `published
      ensures Owned() && published >= old(published) && (ok <==> Accepted(contracts[..], spot))
      ensures State() == old(State()).(book := Publish(old(State()).book, contracts[..], spot))
      ensures forall a :: a in published - old(published) ==> fresh(a)
    {
      var frozen := new Contract[contracts.Length](i requires 0 <= i < contracts.Length reads this, contracts => contracts[i]);
      assert frozen[..] == contracts[..];
      published := published + {frozen};
      ok := BookAccepts(frozen, spot);
      if ok {
        book, bookSpot := frozen, spot;
      }
    }

    /** `flushTickerLocked` */
    method FlushTicker()
      requires Owned()
      modifies `book, `bookSpot, `published, `pending, `patchCount
      ensures Owned() && published >= old(published)
      ensures State() == Flush(old(State()))
      ensures forall a :: a in published - old(published) ==> fresh(a)
    {
      if !pending {
        return;
      }
      pending := false;
      patchCount := 0;
      var _ := PublishCopy();
    }

    // -------------------------------------------------------------- re-discovery

    method CollectPrev() returns (prev: map<Identity, Contract>)
      requires DistinctIds(contracts[..])
      ensures forall id :: id in prev <==> IndexOf(contracts[..], id) >= 0
      ensures forall id :: id in prev ==> prev[id] == contracts[..][IndexOf(contracts[..], id)]
    {
      prev := map[];
      for i := 0 to contracts.Length
        invariant forall id :: id in prev <==> IndexOf(contracts[..i], id) >= 0
        invariant forall id :: id in prev ==> prev[id] == contracts[IndexOf(contracts[..i], id)]
      {
        assert contracts[..i + 1][..i] == contracts[..i];
        prev := prev[Id(contracts[i]) := contracts[i]];
        assert IndexOf(contracts[..i], Id(contracts[i])) < 0 by {
          NotBefore(contracts[..], i);
          assert contracts[..][..i] == contracts[..i];
        }
      }
      assert contracts[..contracts.Length] == contracts[..];
    }

    method CarryInto(filtered: array<Contract>, prev: map<Identity, Contract>)
      requires filtered != contracts
      requires forall id :: id in prev <==> IndexOf(contracts[..], id) >= 0
      requires forall id :: id in prev ==> prev[id] == contracts[..][IndexOf(contracts[..], id)]
      modifies filtered
      ensures filtered[..] == Carry(old(filtered[..]), contracts[..])
    {
      ghost var was, rows := filtered[..], contracts[..];
      for i := 0 to filtered.Length
        invariant forall k :: 0 <= k < i ==> filtered[k] == CarryRow(was[k], rows)
        invariant forall k :: i <= k < filtered.Length ==> filtered[k] == was[k]
      {
        var fc := filtered[i];
        if Id(fc) in prev {
          var oc := prev[Id(fc)];
          filtered[i] := fc.(conId := oc.conId, openInterest := oc.openInterest, iv := oc.iv, bid := oc.bid, ask := oc.ask);
        }
      }
    }

    method StampInto(filtered: array<Contract>)
      modifies filtered, `nextSyn
      ensures filtered[..] == Stamp(old(filtered[..]), base, old(nextSyn))
      ensures nextSyn == old(nextSyn) + BareCount(old(filtered[..]))
    {
      ghost var was := filtered[..];
      for i := 0 to filtered.Length
        invariant nextSyn == old(nextSyn) + BareCount(was[..i])
        invariant forall k :: 0 <= k < i ==> filtered[k] == StampRow(was, k, base, old(nextSyn))
        invariant forall k :: i <= k < filtered.Length ==> filtered[k] == was[k]
      {
        assert was[..i + 1][..i] == was[..i];
        if filtered[i].conId == 0 {
          nextSyn := nextSyn + 1;
          filtered[i] := filtered[i].(conId := base - nextSyn);
        }
      }
      assert was[..filtered.Length] == was;
    }

    method BuildIndex(rows: array<Contract>) returns (index: map<int, int>)
      ensures index == IndexRows(rows[..])
    {
      index := map[];
      for i := 0 to rows.Length
        invariant index == IndexRows(rows[..i])
      {
        assert rows[..i + 1][..i] == rows[..i];
        index := index[rows[i].conId := i];
      }
      assert rows[..rows.Length] == rows[..];
    }

    /** `adoptChainLocked` and the publish that follows it in `onChain`. */
    method AdoptChain(filtered: array<Contract>, newSpot: real) returns (applied: bool)
      requires Inv() && filtered != contracts && filtered !in published
      requires DistinctIds(filtered[..]) && forall i :: 0 <= i < filtered.Length ==> filtered[i].conId == 0
      modifies this, filtered
      ensures Inv() && State() == Adopt(old(State()), old(filtered[..]), newSpot, base)
      ensures contracts == filtered && published >= old(published)
      ensures applied <==> Accepted(contracts[..], newSpot)
      ensures forall a :: a in old(published) ==> a[..] == old(a[..])
    {
      ghost var adopted := Adopt(State(), filtered[..], newSpot, base);
      AdoptSound(State(), filtered[..], newSpot, base);
      InstallChain(filtered, newSpot);
      applied := PublishCopy();
      assert State() == adopted;
    }

    method InstallChain(filtered: array<Contract>, newSpot: real)
      requires filtered != contracts && filtered !in published && DistinctIds(contracts[..]) && Owned()
      modifies filtered, `contracts, `spot, `byCon, `nextSyn, `pending, `patchCount
      ensures Owned() && contracts == filtered
      ensures State() == Adopt(old(State()), old(filtered[..]), newSpot, base).(book := old(State()).book)
    {
      var index := PrepareChain(filtered);
      contracts, spot, byCon := filtered, newSpot, index;
      pending, patchCount := false, 0;
    }

    /** Carry over, stamp and index a filtered chain. */
    method PrepareChain(filtered: array<Contract>) returns (index: map<int, int>)
      requires filtered != contracts && DistinctIds(contracts[..])
      modifies filtered, `nextSyn
      ensures var carried := Carry(old(filtered[..]), contracts[..]);
              && filtered[..] == Stamp(carried, base, old(nextSyn))
              && nextSyn == old(nextSyn) + BareCount(carried)
      ensures index == IndexRows(filtered[..])
    {
      var prev := CollectPrev();
      CarryInto(filtered, prev);
      StampInto(filtered);
      index := BuildIndex(filtered);
    }

    /** The pipeline of `onChain` before the state is touched. */
    method SelectRows(ev: ChainEvent, today: int, cal: Calendar) returns (r: Option<seq<Contract>>)
      ensures r == SubSet.Kept(Universe(ev), ev.spot, ev.baselineIv, today, cal)
    {
      var skeleton := BuildSkeleton(ev);
      var selected := SelectedExpiriesByClass(skeleton, today, cal);
      if selected.None? {
        return None;
      }
      r := FilterChain(selected.value, ev.spot, ev.baselineIv, today);
    }

    /** `onChain`: a refused discovery changes nothing; an accepted one is adopted and published,
        and what the edge's filter leaves of the universe under the reply is the chain kept, row for row. */
    method OnChain(ev: ChainEvent, today: int, cal: Calendar) returns (reply: Option<SubSet.SubSet>)
      requires Inv()
      modifies this
      ensures Inv() && published >= old(published)
      ensures forall a :: a in old(published) ==> a[..] == old(a[..])
      ensures var kept := SubSet.Kept(Universe(ev), ev.spot, ev.baselineIv, today, cal);
              match kept
              case None => reply == None && State() == old(State())
              case Some(rows) =>
                && State() == Adopt(old(State()), rows, ev.spot, base)
                && (reply.Some? <==> Accepted(State().rows, ev.spot))
                && (reply.Some? ==> Filter(Universe(ev), SubSet.Admits(reply.value)) == rows)
    {
      var r := SelectRows(ev, today, cal);
      if r.None? {
        return None;
      }
      IngestRuns.YieldShape(IngestRuns.Discovered(ev, today), cal);
      var applied := AdoptRows(r.value, ev.spot);
      if !applied {
        return None;
      }
      var sub := Summarise(ev, r.value, today, cal);
      return Some(sub);
    }

    method AdoptRows(rows: seq<Contract>, newSpot: real) returns (applied: bool)
      requires Inv() && DistinctIds(rows) && forall i :: 0 <= i < |rows| ==> rows[i].conId == 0
      modifies this
      ensures Inv() && State() == Adopt(old(State()), rows, newSpot, base) && published >= old(published)
      ensures applied <==> Accepted(State().rows, newSpot)
      ensures forall a :: a in old(published) ==> a[..] == old(a[..])
    {
      var filtered := new Contract[|rows|](i requires 0 <= i < |rows| => rows[i]);
      assert filtered[..] == rows;
      applied := AdoptChain(filtered, newSpot);
    }

    /** The reply to a discovery that was kept. */
    method Summarise(ev: ChainEvent, rows: seq<Contract>, today: int, cal: Calendar) returns (sub: SubSet.SubSet)
      requires SubSet.Kept(Universe(ev), ev.spot, ev.baselineIv, today, cal) == Some(rows)
      ensures Filter(Universe(ev), SubSet.Admits(sub)) == rows
    {
      sub := SubSet.BuildSubSet(rows);
      SubSet.LosslessRows(Universe(ev), sub, ev.spot, ev.baselineIv, today, cal);
    }

    // -------------------------------------------------------------- updates

    /** `findSkeletonRow` */
    method FindRow(id: Identity) returns (r: int)
      ensures r == IndexOf(contracts[..], id)
    {
      for i := 0 to contracts.Length
        invariant IndexOf(contracts[..i], id) < 0
      {
        assert contracts[..i + 1][..i] == contracts[..i];
        if Id(contracts[i]) == id {
          FoundStays(contracts[..], id, i);
          assert contracts[..][..i + 1] == contracts[..i + 1];
          return i;
        }
      }
      assert contracts[..contracts.Length] == contracts[..];
      return -1;
    }

    /** Which row an event is for: by id with the identity audited, else by identity. */
    method Resolve(o: OptComp) returns (idx: int)
      requires Inv()
      ensures idx == Target(State(), o)
      // dropped exactly when it has no id, when its id belongs to another contract, or when it
      // has a new id for a contract that is not in the chain
      ensures idx < 0 <==> o.conId == 0 || (o.conId in byCon && Id(contracts[byCon[o.conId]]) != IdOf(o)) ||
                           (o.conId !in byCon && forall i :: 0 <= i < contracts.Length ==> Id(contracts[i]) != IdOf(o))
      ensures idx >= 0 ==> idx < contracts.Length && Id(contracts[idx]) == IdOf(o) && (o.conId in byCon ==> contracts[idx].conId == o.conId)
    {
      if o.conId == 0 {
        return -1;
      }
      if o.conId in byCon {
        idx := byCon[o.conId];
        if Id(contracts[idx]) != IdOf(o) {
          return -1;
        }
      } else {
        idx := FindRow(IdOf(o));
      }
    }

    /** Patch the row in place. */
    method PatchRow(o: OptComp, idx: int)
      requires Inv() && idx == Target(State(), o) >= 0
      modifies contracts, `byCon, `spot, `pending, `patchCount
      ensures State() == Patched(old(State()), o)
    {
      ghost var s := State();
      ghost var c := contracts[idx];
      if o.conId in byCon {
        contracts[idx] := Amend(contracts[idx], o);
      } else {
        byCon := byCon - {contracts[idx].conId};
        contracts[idx] := contracts[idx].(conId := o.conId);
        byCon := byCon[o.conId := idx];
      }
      contracts[idx] := Quote(contracts[idx], o);
      if o.undPrice > 0.0 && o.undPrice < 1_000_000_000.0 && o.undPrice != spot {
        spot := o.undPrice;
      }
      pending := true;
      patchCount := patchCount + 1;
      assert contracts[..] == s.rows[idx := Updated(c, o, o.conId in s.byCon)];
    }

    /** `onOptComp` */
    method OptComputed(o: OptComp)
      requires Inv()
      modifies this, contracts
      ensures Inv() && State() == OnOptComp(old(State()), flushAt, o)
      ensures contracts == old(contracts) && published >= old(published)
      ensures forall a :: a in old(published) ==> a[..] == old(a[..])
    {
      OptCompSound(State(), flushAt, o);
      var idx := Resolve(o);
      if idx < 0 {
        return;
      }
      PatchRow(o, idx);
      if patchCount >= flushAt {
        FlushTicker();
      }
    }

    method SpotTicked(price: real)
      requires Inv()
      modifies `spot, `bookSpot
      ensures Inv() && State() == OnSpot(old(State()), price)
    {
      if !SaneSpot(price) {
        return;
      }
      spot := price;
      if book != null {
        bookSpot := price;
      }
    }

    /** `ApplyVendorOI`: patch in place, then publish at once. */
    method ApplyVendorOI(entries: seq<VendorEntry>) returns (matched: nat)
      requires Inv()
      modifies this, contracts
      ensures Inv() && State() == OnVendor(old(State()), entries)
      ensures matched > 0 <==> AnyMatch(entries, old(contracts[..]))
      ensures contracts == old(contracts) && published >= old(published)
      ensures forall a :: a in old(published) ==> a[..] == old(a[..])
    {
      VendorSound(State(), entries);
      matched := PatchVendor(entries);
      if matched > 0 {
        pending := true;
        FlushTicker();
      }
    }

    method PatchVendor(entries: seq<VendorEntry>) returns (matched: nat)
      modifies contracts
      ensures contracts[..] == VendorRows(entries, old(contracts[..]))
      ensures matched > 0 <==> AnyMatch(entries, old(contracts[..]))
      ensures matched == 0 ==> contracts[..] == old(contracts[..])
    {
      ghost var was := contracts[..];
      matched := 0;
      for i := 0 to contracts.Length
        invariant forall k :: 0 <= k < i ==> contracts[k] == VendorRow(entries, was[k])
        invariant forall k :: i <= k < contracts.Length ==> contracts[k] == was[k]
        invariant matched > 0 <==> exists k :: 0 <= k < i && PickVendor(entries, was[k]).Some?
      {
        var oi := PickVendor(entries, contracts[i]);
        if oi.Some? {
          contracts[i] := contracts[i].(openInterest := oi.value);
          matched := matched + 1;
        }
      }
    }
  }

  lemma NotBefore(rows: seq<Contract>, i: nat)
    requires DistinctIds(rows) && i < |rows|
    ensures IndexOf(rows[..i], Id(rows[i])) < 0
  {
    assert forall k :: 0 <= k < i ==> Id(rows[..i][k]) != Id(rows[i]);
  }

  lemma {:induction false} FoundStays(rows: seq<Contract>, id: Identity, i: nat)
    requires i < |rows| && IndexOf(rows[..i + 1], id) == i
    ensures IndexOf(rows, id) == i
    decreases |rows|
  {
    if i + 1 == |rows| {
      assert rows[..i + 1] == rows;
    } else {
      assert rows[..|rows| - 1][..i + 1] == rows[..i + 1];
      FoundStays(rows[..|rows| - 1], id, i);
    }
  }
}
