/** Expansion of a discovered universe into contract rows (buildSkeleton in
    core/internal/edge/ingest.go): every (listing, strike, right), one row per identity. */
module Skeleton {
  import opened Market

  datatype Listing = Listing(expiry: Expiry, cls: string, settlement: string)

  /** A chain event, with the baseline volatility already resolved against the host. */
  datatype ChainEvent = ChainEvent(spot: real, baselineIv: real, exchange: string,
                                   strikes: seq<real>, listings: seq<Listing>)

  function Row(ev: ChainEvent, l: Listing, strike: real, right: string): Contract {
    Contract(0, strike, right, l.expiry, l.cls, l.settlement, ev.exchange, DEFAULT_MULTIPLIER, 0.0, 0.0, 0.0, 0.0)
  }

  function Ids(rows: seq<Contract>): set<Identity> { set c | c in rows :: Id(c) }

  function AddRow(rows: seq<Contract>, c: Contract): seq<Contract> {
    if Id(c) in Ids(rows) then rows else rows + [c]
  }
  function AddBoth(rows: seq<Contract>, ev: ChainEvent, l: Listing, strike: real): seq<Contract> {
    AddRow(AddRow(rows, Row(ev, l, strike, CALL)), Row(ev, l, strike, PUT))
  }
  function AddStrikes(rows: seq<Contract>, ev: ChainEvent, l: Listing, strikes: seq<real>): seq<Contract> {
    if strikes == [] then rows else
    AddBoth(AddStrikes(rows, ev, l, strikes[..|strikes| - 1]), ev, l, strikes[|strikes| - 1])
  }
  function AddListings(ev: ChainEvent, listings: seq<Listing>): seq<Contract> {
    if listings == [] then [] else
    AddStrikes(AddListings(ev, listings[..|listings| - 1]), ev, listings[|listings| - 1], ev.strikes)
  }
  function Universe(ev: ChainEvent): seq<Contract> { AddListings(ev, ev.listings) }

  method BuildSkeleton(ev: ChainEvent) returns (rows: seq<Contract>)
    ensures rows == Universe(ev)
  {
    rows := [];
    var seen: set<Identity> := {};
    for i := 0 to |ev.listings|
      invariant rows == AddListings(ev, ev.listings[..i]) && seen == Ids(rows)
    {
      assert ev.listings[..i + 1][..i] == ev.listings[..i];
      rows, seen := ExpandListing(ev, ev.listings[i], rows, seen);
    }
    assert ev.listings[..|ev.listings|] == ev.listings;
  }

  method ExpandListing(ev: ChainEvent, l: Listing, before: seq<Contract>, seenBefore: set<Identity>)
    returns (rows: seq<Contract>, seen: set<Identity>)
    requires seenBefore == Ids(before)
    ensures rows == AddStrikes(before, ev, l, ev.strikes) && seen == Ids(rows)
  {
    rows, seen := before, seenBefore;
    for i := 0 to |ev.strikes|
      invariant rows == AddStrikes(before, ev, l, ev.strikes[..i]) && seen == Ids(rows)
    {
      assert ev.strikes[..i + 1][..i] == ev.strikes[..i];
      rows, seen := ExpandRight(Row(ev, l, ev.strikes[i], CALL), rows, seen);
      rows, seen := ExpandRight(Row(ev, l, ev.strikes[i], PUT), rows, seen);
    }
    assert ev.strikes[..|ev.strikes|] == ev.strikes;
  }

  method ExpandRight(c: Contract, before: seq<Contract>, seenBefore: set<Identity>)
    returns (rows: seq<Contract>, seen: set<Identity>)
    requires seenBefore == Ids(before)
    ensures rows == AddRow(before, c) && seen == Ids(rows)
  {
    rows, seen := before, seenBefore;
    if Id(c) !in seen {
      seen := seen + {Id(c)};
      rows := rows + [c];
    }
  }

  // ---------------------------------------------------------------- what the universe is

  /** A row as discovery leaves it: no id, no quotes, one of the two rights. */
  predicate Bare(c: Contract) {
    && c.conId == 0 && c.openInterest == 0.0 && c.iv == 0.0 && c.bid == 0.0 && c.ask == 0.0
    && c.multiplier == DEFAULT_MULTIPLIER && (c.right == CALL || c.right == PUT)
  }

  /** Where x first occurs. */
  function First<T(==)>(s: seq<T>, x: T): (r: nat)
    ensures if x in s then r < |s| && s[r] == x && x !in s[..r] else r == |s|
  {
    if s == [] then 0 else
    var n := |s| - 1;
    assert s == s[..n] + [s[n]];
    if x in s[..n] then First(s[..n], x) else if s[n] == x then n else |s|
  }

  function Pairs(listings: seq<Listing>): (r: seq<Pair>)
    ensures |r| == |listings|
  {
    seq(|listings|, i requires 0 <= i < |listings| => Pair(listings[i].cls, listings[i].expiry))
  }

  /** A row of the event: strike and exchange are the event's, the settlement is that of the first
      listing of its class and expiry. */
  ghost predicate FromEvent(ev: ChainEvent, c: Contract) {
    && Bare(c) && c.strike in ev.strikes && c.exchange == ev.exchange
    && PairOf(c) in Pairs(ev.listings) && c.settlement == ev.listings[First(Pairs(ev.listings), PairOf(c))].settlement
  }

  /** By listing, then by strike, each in order of first appearance, the call before the put. */
  ghost predicate Earlier(ev: ChainEvent, a: Contract, b: Contract) {
    var p, q := First(Pairs(ev.listings), PairOf(a)), First(Pairs(ev.listings), PairOf(b));
    var j, k := First(ev.strikes, a.strike), First(ev.strikes, b.strike);
    p < q || (p == q && (j < k || (j == k && a.right == CALL && b.right == PUT)))
  }

  ghost predicate Built(ev: ChainEvent, rows: seq<Contract>) {
    && DistinctIds(rows) && (forall c :: c in rows ==> FromEvent(ev, c))
    && (forall i, j :: 0 <= i < j < |rows| ==> Earlier(ev, rows[i], rows[j]))
  }

  /** A new row that comes after all the others. */
  lemma AddRowBuilt(ev: ChainEvent, rows: seq<Contract>, c: Contract)
    requires Built(ev, rows)
    requires Id(c) !in Ids(rows) ==> FromEvent(ev, c) && forall r :: r in rows ==> Earlier(ev, r, c)
    ensures Built(ev, AddRow(rows, c)) && Ids(AddRow(rows, c)) == Ids(rows) + {Id(c)}
    ensures forall r :: r in AddRow(rows, c) ==> r in rows || (r == c && Id(c) !in Ids(rows))
  {
    forall i | 0 <= i < |rows| && Id(c) !in Ids(rows) ensures Id(rows[i]) != Id(c) && Earlier(ev, rows[i], AddRow(rows, c)[|rows|]) {
      assert rows[i] in rows;
    }
  }

  /** Everything up to strike m of listing n is there, and nothing after it. */
  ghost predicate Covered(ev: ChainEvent, rows: seq<Contract>, n: nat, m: nat) {
    && n <= |ev.listings| && m <= |ev.strikes|
    && (forall id :: id in Ids(rows) <==> InProduct(ev, n, id) || InListing(ev, n, m, id))
    && (forall r :: r in rows ==> var p := First(Pairs(ev.listings), PairOf(r));
                                  p < n || (p == n && First(ev.strikes, r.strike) < m))
  }

  /** The product of the first n listings with strikes and rights. */
  ghost predicate InProduct(ev: ChainEvent, n: nat, id: Identity)
    requires n <= |ev.listings|
  {
    (id.right == CALL || id.right == PUT) && id.strike in ev.strikes && Pair(id.cls, id.expiry) in Pairs(ev.listings)[..n]
  }
  /** The first m strikes of listing n. */
  ghost predicate InListing(ev: ChainEvent, n: nat, m: nat, id: Identity)
    requires m <= |ev.strikes|
  {
    && n < |ev.listings| && (id.right == CALL || id.right == PUT) && id.strike in ev.strikes[..m]
    && Pair(id.cls, id.expiry) == Pairs(ev.listings)[n]
  }

  /** A strike of a listing that is new is the first of its kind. */
  lemma NewIsFirst(ev: ChainEvent, rows: seq<Contract>, n: nat, m: nat, right: string)
    requires Covered(ev, rows, n, m) && n < |ev.listings| && m < |ev.strikes| && (right == CALL || right == PUT)
    requires Id(Row(ev, ev.listings[n], ev.strikes[m], right)) !in Ids(rows)
    ensures var c := Row(ev, ev.listings[n], ev.strikes[m], right);
            First(Pairs(ev.listings), PairOf(c)) == n && First(ev.strikes, c.strike) == m && FromEvent(ev, c)
  {
    var c := Row(ev, ev.listings[n], ev.strikes[m], right);
    assert !InProduct(ev, n, Id(c)) && !InListing(ev, n, m, Id(c));
    assert Pairs(ev.listings)[n] == PairOf(c) && ev.strikes[m] == c.strike;
  }

  lemma StrikeAdded(ev: ChainEvent, rows: seq<Contract>, n: nat, m: nat)
    requires Built(ev, rows) && Covered(ev, rows, n, m) && n < |ev.listings| && m < |ev.strikes|
    ensures var r := AddBoth(rows, ev, ev.listings[n], ev.strikes[m]);
            Built(ev, r) && Covered(ev, r, n, m + 1)
  {
    var c, p := Row(ev, ev.listings[n], ev.strikes[m], CALL), Row(ev, ev.listings[n], ev.strikes[m], PUT);
    if Id(c) !in Ids(rows) {
      NewIsFirst(ev, rows, n, m, CALL);
    }
    if Id(p) !in Ids(rows) {
      NewIsFirst(ev, rows, n, m, PUT);
    }
    AddRowBuilt(ev, rows, c);
    AddRowBuilt(ev, AddRow(rows, c), p);
    var r := AddBoth(rows, ev, ev.listings[n], ev.strikes[m]);
    forall id ensures id in Ids(r) <==> InProduct(ev, n, id) || InListing(ev, n, m + 1, id) {
      OneStrikeMore(ev, n, m, id);
    }
  }

  lemma OneStrikeMore(ev: ChainEvent, n: nat, m: nat, id: Identity)
    requires n < |ev.listings| && m < |ev.strikes|
    ensures InListing(ev, n, m + 1, id) <==>
            InListing(ev, n, m, id) || id in {Id(Row(ev, ev.listings[n], ev.strikes[m], CALL)), Id(Row(ev, ev.listings[n], ev.strikes[m], PUT))}
  {
    assert ev.strikes[..m + 1] == ev.strikes[..m] + [ev.strikes[m]];
  }

  lemma {:induction false} ListingAdded(ev: ChainEvent, rows: seq<Contract>, n: nat, m: nat)
    requires Built(ev, rows) && Covered(ev, rows, n, 0) && n < |ev.listings| && m <= |ev.strikes|
    ensures var r := AddStrikes(rows, ev, ev.listings[n], ev.strikes[..m]);
            Built(ev, r) && Covered(ev, r, n, m)
  {
    if m > 0 {
      ListingAdded(ev, rows, n, m - 1);
      assert ev.strikes[..m][..m - 1] == ev.strikes[..m - 1];
      StrikeAdded(ev, AddStrikes(rows, ev, ev.listings[n], ev.strikes[..m - 1]), n, m - 1);
    }
  }

  /** A listing is done when all its strikes are. */
  lemma NextListing(ev: ChainEvent, rows: seq<Contract>, n: nat)
    requires n < |ev.listings| && Covered(ev, rows, n, |ev.strikes|)
    ensures Covered(ev, rows, n + 1, 0)
  {
    assert Pairs(ev.listings)[..n + 1] == Pairs(ev.listings)[..n] + [Pairs(ev.listings)[n]];
    assert ev.strikes[..|ev.strikes|] == ev.strikes;
    forall id ensures InProduct(ev, n + 1, id) <==> InProduct(ev, n, id) || InListing(ev, n, |ev.strikes|, id) {
    }
  }

  lemma {:induction false} ListingsAdded(ev: ChainEvent, n: nat)
    requires n <= |ev.listings|
    ensures Built(ev, AddListings(ev, ev.listings[..n])) && Covered(ev, AddListings(ev, ev.listings[..n]), n, 0)
  {
    if n > 0 {
      ListingsAdded(ev, n - 1);
      assert ev.listings[..n][..n - 1] == ev.listings[..n - 1];
      var front := AddListings(ev, ev.listings[..n - 1]);
      ListingAdded(ev, front, n - 1, |ev.strikes|);
      assert ev.strikes[..|ev.strikes|] == ev.strikes;
      NextListing(ev, AddStrikes(front, ev, ev.listings[n - 1], ev.strikes), n - 1);
    }
  }

  /** Exactly one row for every (class, expiry, right, strike) of the discovery, however often
      the listings repeat, in order, with the settlement of the listing that came first. */
  lemma UniverseIsProduct(ev: ChainEvent)
    ensures Built(ev, Universe(ev))
    ensures forall id :: id in Ids(Universe(ev)) <==> InProduct(ev, |ev.listings|, id)
  {
    ListingsAdded(ev, |ev.listings|);
    assert ev.listings[..|ev.listings|] == ev.listings;
  }
}
