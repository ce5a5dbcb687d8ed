/** The option contract and its calendar (core/internal/market/types.go). */
module Market {

  /** An expiry as the wire carries it: yyyyMMdd text of a day, or text that does not parse.
      Days count from 1 January 1970. */
  datatype Expiry = Ymd(day: int) | BadDate(text: string)

  datatype Contract = Contract(
    conId: int, strike: real, right: string, expiry: Expiry, cls: string,
    settlement: string, exchange: string, multiplier: real,
    openInterest: real, iv: real, bid: real, ask: real)

  const CALL := "C"
  const PUT := "P"
  const DEFAULT_MULTIPLIER := 100.0

  /** What makes a row of a chain the row it is. */
  datatype Identity = Identity(cls: string, expiry: Expiry, right: string, strike: real)
  function Id(c: Contract): Identity { Identity(c.cls, c.expiry, c.right, c.strike) }

  ghost predicate DistinctIds(rows: seq<Contract>) {
    forall i, j :: 0 <= i < j < |rows| ==> Id(rows[i]) != Id(rows[j])
  }

  /** The (class, expiry) pair a contract is listed under. */
  datatype Pair = Pair(cls: string, expiry: Expiry)
  function PairOf(c: Contract): Pair { Pair(c.cls, c.expiry) }

  // ---------------------------------------------------------------- rows that pass a test

  function Filter(rows: seq<Contract>, keep: Contract -> bool): seq<Contract> {
    if rows == [] then [] else
    Filter(rows[..|rows| - 1], keep) + (if keep(rows[|rows| - 1]) then [rows[|rows| - 1]] else [])
  }

  lemma {:induction false} FilterMember(rows: seq<Contract>, keep: Contract -> bool)
    ensures forall c :: c in Filter(rows, keep) <==> c in rows && keep(c)
  {
    if rows != [] {
      var n := |rows| - 1;
      FilterMember(rows[..n], keep);
      assert rows == rows[..n] + [rows[n]];
    }
  }

  lemma {:induction false} FilterDistinct(rows: seq<Contract>, keep: Contract -> bool)
    requires DistinctIds(rows)
    ensures DistinctIds(Filter(rows, keep))
  {
    if rows != [] {
      var n := |rows| - 1;
      FilterDistinct(rows[..n], keep);
      FilterMember(rows[..n], keep);
      forall i | 0 <= i < |Filter(rows[..n], keep)| ensures Id(Filter(rows[..n], keep)[i]) != Id(rows[n]) {
        assert Filter(rows[..n], keep)[i] in rows[..n];
      }
    }
  }

  lemma {:induction false} FilterTwice(rows: seq<Contract>, p: Contract -> bool, q: Contract -> bool, both: Contract -> bool)
    requires forall c :: both(c) == (p(c) && q(c))
    ensures Filter(Filter(rows, p), q) == Filter(rows, both)
  {
    if rows != [] {
      var n := |rows| - 1;
      FilterTwice(rows[..n], p, q, both);
      if p(rows[n]) {
        var f := Filter(rows[..n], p);
        assert Filter(rows, p) == f + [rows[n]];
        assert (f + [rows[n]])[..|f|] == f;
        assert Filter(f + [rows[n]], q) == Filter(f, q) + (if q(rows[n]) then [rows[n]] else []);
      } else {
        assert Filter(rows, p) == Filter(rows[..n], p);
      }
    }
  }

  /** Tests that agree on the rows keep the same rows. */
  lemma {:induction false} FilterAgree(rows: seq<Contract>, p: Contract -> bool, q: Contract -> bool)
    requires forall c :: c in rows ==> p(c) == q(c)
    ensures Filter(rows, p) == Filter(rows, q)
  {
    if rows != [] {
      var n := |rows| - 1;
      assert rows == rows[..n] + [rows[n]];
      FilterAgree(rows[..n], p, q);
    }
  }

  // ---------------------------------------------------------------- the calendar

  /** What Go's time package says of a day: whether it is a Friday, and its day of the month.  The
      standard monthly expiry is the third Friday. */
  datatype Calendar = Calendar(friday: int -> bool, dayOfMonth: int -> int) {
    predicate Monthly(day: int) { friday(day) && 15 <= dayOfMonth(day) <= 21 }
  }
}
