/** The sweep policy, kept twice in the repository: core/internal/edge/sweep_policy.go
    decides what the core lets through, edge/src/GexEdge/SweepPolicy.cs what the billing
    process accepts.  Tickers are ASCII; instants are local Eastern time. */
module SweepPolicy {
  import opened Common

  const MAX_TICKERS := 2

  // ---------------------------------------------------------------- canonical tickers

  predicate IsSpace(c: char) { c == ' ' || '\t' <= c <= '\r' }
  function UpperChar(c: char): char { if 'a' <= c <= 'z' then c - 'a' + 'A' else c }
  function Upper(s: string): (r: string)
    ensures |r| == |s|
  {
    seq(|s|, i requires 0 <= i < |s| => UpperChar(s[i]))
  }

  function TrimLeft(s: string): string { if s != [] && IsSpace(s[0]) then TrimLeft(s[1..]) else s }
  function TrimRight(s: string): string {
    if s != [] && IsSpace(s[|s| - 1]) then TrimRight(s[..|s| - 1]) else s
  }
  function Canon(s: string): string { Upper(TrimRight(TrimLeft(s))) }

  predicate Trimmed(s: string) { s == [] || (!IsSpace(s[0]) && !IsSpace(s[|s| - 1])) }

  lemma {:induction false} TrimLeftTrims(s: string)
    ensures TrimLeft(s) == [] || !IsSpace(TrimLeft(s)[0])
  {
    if s != [] && IsSpace(s[0]) {
      TrimLeftTrims(s[1..]);
    }
  }

  lemma {:induction false} TrimRightTrims(s: string)
    requires s == [] || !IsSpace(s[0])
    ensures Trimmed(TrimRight(s))
  {
    if s != [] && IsSpace(s[|s| - 1]) {
      assert |s| > 1;
      assert s[..|s| - 1][0] == s[0];
      TrimRightTrims(s[..|s| - 1]);
    }
  }

  lemma CanonIdempotent(s: string)
    ensures Canon(Canon(s)) == Canon(s)
  {
    TrimLeftTrims(s);
    TrimRightTrims(TrimLeft(s));
    var t := TrimRight(TrimLeft(s));
    var u := Upper(t);
    assert t != [] ==> u[0] == UpperChar(t[0]) && u[|u| - 1] == UpperChar(t[|t| - 1]);
    assert TrimRight(TrimLeft(u)) == u;
    assert Upper(u) == u;
  }

  predicate Blank(s: string) { forall i :: 0 <= i < |s| ==> s[i] == ' ' || '\t' <= s[i] <= '\r' }

  lemma {:induction false} TrimLeftCuts(s: string) returns (i: nat)
    ensures i <= |s| && Blank(s[..i]) && TrimLeft(s) == s[i..]
  {
    i := 0;
    if s != [] && IsSpace(s[0]) {
      var j := TrimLeftCuts(s[1..]);
      i := j + 1;
      forall k | 0 <= k < i ensures IsSpace(s[..i][k]) {
        assert k > 0 ==> s[..i][k] == s[1..][..j][k - 1];
      }
      assert s[1..][j..] == s[i..];
    }
  }

  lemma {:induction false} TrimRightCuts(s: string) returns (j: nat)
    ensures j <= |s| && Blank(s[j..]) && TrimRight(s) == s[..j]
  {
    j := |s|;
    if s != [] && IsSpace(s[|s| - 1]) {
      var front := s[..|s| - 1];
      j := TrimRightCuts(front);
      forall k | 0 <= k < |s| - j ensures IsSpace(s[j..][k]) {
        assert k < |front| - j ==> s[j..][k] == front[j..][k];
      }
      assert front[..j] == s[..j];
    }
  }

  /** The canonical ticker is what is left between the blanks, in capitals. */
  lemma CanonIs(s: string) returns (i: nat, j: nat)
    ensures i <= j <= |s| && Blank(s[..i]) && Blank(s[j..]) && Trimmed(s[i..j])
    ensures |Canon(s)| == j - i
    ensures forall k :: 0 <= k < j - i ==> Canon(s)[k] == if 'a' <= s[i + k] <= 'z' then s[i + k] - 'a' + 'A' else s[i + k]
  {
    i := TrimLeftCuts(s);
    var t := s[i..];
    var n := TrimRightCuts(t);
    j := i + n;
    assert t[..n] == s[i..j] && t[n..] == s[j..];
    TrimLeftTrims(s);
    TrimRightTrims(t);
  }

  // ---------------------------------------------------------------- rosters

  /** The distinct non-empty canonical tickers, in order of first appearance. */
  function Distinct(entries: seq<string>): seq<string> {
    if entries == [] then [] else
    var before := Distinct(entries[..|entries| - 1]);
    var t := Canon(entries[|entries| - 1]);
    if t == "" || t in before then before else before + [t]
  }

  lemma {:induction false} DistinctIs(entries: seq<string>)
    ensures forall t :: t in Distinct(entries) <==> t != "" && exists i :: 0 <= i < |entries| && Canon(entries[i]) == t
  {
    if entries != [] {
      var n := |entries| - 1;
      DistinctIs(entries[..n]);
      assert entries == entries[..n] + [entries[n]];
      forall t ensures t in Distinct(entries) <==> t != "" && exists i :: 0 <= i < |entries| && Canon(entries[i]) == t {
        OneEntryMore(entries[..n], entries[n], t);
      }
    }
  }

  lemma OneEntryMore(front: seq<string>, e: string, t: string)
    requires t in Distinct(front) <==> t != "" && exists i :: 0 <= i < |front| && Canon(front[i]) == t
    ensures t in Distinct(front + [e]) <==> t != "" && exists i :: 0 <= i < |front + [e]| && Canon((front + [e])[i]) == t
  {
    var all := front + [e];
    assert all[..|front|] == front && all[|front|] == e;
    if exists i :: 0 <= i < |front| && Canon(front[i]) == t {
      var i :| 0 <= i < |front| && Canon(front[i]) == t;
      assert Canon(all[i]) == t;
    }
    if exists i :: 0 <= i < |all| && Canon(all[i]) == t {
      var i :| 0 <= i < |all| && Canon(all[i]) == t;
      assert i < |front| ==> Canon(front[i]) == t;
    }
  }

  /** They come in the order in which they are first named. */
  lemma {:induction false} DistinctInOrder(entries: seq<string>, i: nat, j: nat) returns (p: nat)
    requires i < j < |Distinct(entries)|
    ensures p < |entries| && Canon(entries[p]) == Distinct(entries)[i] && forall q :: 0 <= q <= p ==> Canon(entries[q]) != Distinct(entries)[j]
  {
    var n := |entries| - 1;
    var front := entries[..n];
    if j < |Distinct(front)| {
      p := DistinctInOrder(front, i, j);
      forall q | 0 <= q <= p ensures Canon(entries[q]) != Distinct(entries)[j] {
        assert Canon(front[q]) != Distinct(front)[j];
      }
    } else {
      DistinctIs(front);
      assert Distinct(front)[i] in Distinct(front);
      p :| 0 <= p < n && Canon(front[p]) == Distinct(front)[i];
      forall q | 0 <= q <= p ensures Canon(entries[q]) != Distinct(entries)[j] {
        assert Canon(front[q]) == Canon(entries[q]);
      }
    }
  }

  /** Normalising, and the edge's clamp: the first MAX_TICKERS of them. */
  function Normalize(entries: seq<string>): seq<string> {
    var d := Distinct(entries);
    if |d| > MAX_TICKERS then d[..MAX_TICKERS] else d
  }

  lemma {:induction false} DistinctGrows(entries: seq<string>, n: nat)
    requires n <= |entries|
    ensures Distinct(entries[..n]) <= Distinct(entries)
    decreases |entries|
  {
    if n == |entries| {
      assert entries[..n] == entries;
    } else {
      assert entries[..|entries| - 1][..n] == entries[..n];
      DistinctGrows(entries[..|entries| - 1], n);
    }
  }

  /** core: `NormalizeRoster`.  The loop stops as soon as the roster is full. */
  method NormalizeRoster(entries: seq<string>) returns (out: seq<string>)
    ensures out == Normalize(entries)
  {
    out := [];
    var seen: set<string> := {};
    var i := 0;
    while i < |entries|
      invariant 0 <= i <= |entries| && |out| < MAX_TICKERS
      invariant out == Distinct(entries[..i]) && seen == set t | t in out
    {
      var t := Canon(entries[i]);
      assert entries[..i + 1][..i] == entries[..i];
      if t != "" && t !in seen {
        seen := seen + {t};
        out := out + [t];
        if |out| >= MAX_TICKERS {
          DistinctGrows(entries, i + 1);
          return;
        }
      }
      i := i + 1;
    }
    assert entries[..i] == entries;
  }

  /** edge: `Clamp`.  Adding to `seen` is itself the duplicate test. */
  method Clamp(tickers: seq<string>) returns (result: seq<string>)
    ensures result == Normalize(tickers)
  {
    result := [];
    var seen: set<string> := {};
    for i := 0 to |tickers|
      invariant |result| < MAX_TICKERS && result == Distinct(tickers[..i]) && seen == set t | t in result
    {
      assert tickers[..i + 1][..i] == tickers[..i];
      var t := Canon(tickers[i]);
      if |t| == 0 {
        continue;
      }
      var added := t !in seen;
      seen := seen + {t};
      if !added {
        continue;
      }
      result := result + [t];
      if |result| >= MAX_TICKERS {
        DistinctGrows(tickers, i + 1);
        return;
      }
    }
    assert tickers[..|tickers|] == tickers;
  }

  /** core: `ValidateRoster` counts the distinct tickers before normalising. */
  method ValidateRoster(entries: seq<string>) returns (r: Option<seq<string>>)
    ensures r == Validated(entries)
  {
    var seen: set<string> := {};
    var distinct := 0;
    var i := 0;
    while i < |entries|
      invariant 0 <= i <= |entries|
      invariant distinct == |Distinct(entries[..i])| && seen == set t | t in Distinct(entries[..i])
    {
      var t := Canon(entries[i]);
      assert entries[..i + 1][..i] == entries[..i];
      if t != "" && t !in seen {
        seen := seen + {t};
        distinct := distinct + 1;
      }
      i := i + 1;
    }
    assert entries[..i] == entries;
    if distinct > MAX_TICKERS {
      return None;
    }
    var out := NormalizeRoster(entries);
    return Some(out);
  }

  function Validated(entries: seq<string>): Option<seq<string>> {
    if |Distinct(entries)| > MAX_TICKERS then None else Some(Distinct(entries))
  }

  predicate IsCanon(t: string) { t != "" && Canon(t) == t }

  predicate CanonAndDistinct(r: seq<string>) {
    && (forall i :: 0 <= i < |r| ==> IsCanon(r[i]))
    && (forall i, j :: 0 <= i < j < |r| ==> r[i] != r[j])
  }

  predicate Normalized(r: seq<string>) { |r| <= MAX_TICKERS && CanonAndDistinct(r) }

  lemma {:induction false} DistinctShape(entries: seq<string>)
    ensures CanonAndDistinct(Distinct(entries))
  {
    if entries != [] {
      DistinctShape(entries[..|entries| - 1]);
      var t := Canon(entries[|entries| - 1]);
      CanonIdempotent(entries[|entries| - 1]);
      assert t != "" ==> IsCanon(t);
    }
  }

  /** t is named at p, and at most one other ticker is named before. */
  ghost predicate NamedEarly(entries: seq<string>, t: string, p: nat) {
    && p < |entries| && Canon(entries[p]) == t
    && forall q, r :: 0 <= q < p && 0 <= r < p && Canon(entries[q]) !in ["", t] && Canon(entries[r]) !in ["", t] ==>
                      Canon(entries[q]) == Canon(entries[r])
  }

  lemma Listed(entries: seq<string>, q: nat) returns (i: nat)
    requires q < |entries| && Canon(entries[q]) != ""
    ensures i < |Distinct(entries)| && Distinct(entries)[i] == Canon(entries[q])
  {
    DistinctIs(entries);
    assert Canon(entries[q]) in Distinct(entries);
    i :| 0 <= i < |Distinct(entries)| && Distinct(entries)[i] == Canon(entries[q]);
  }

  lemma FirstListed(entries: seq<string>, j: nat) returns (p: nat)
    requires j < |Distinct(entries)|
    ensures var t := Distinct(entries)[j];
            t != "" && p < |entries| && Canon(entries[p]) == t && forall q :: 0 <= q < p ==> Canon(entries[q]) != t
  {
    DistinctIs(entries);
    assert Distinct(entries)[j] in Distinct(entries);
    p := FirstNamed(entries, Distinct(entries)[j]);
  }

  /** Normalising keeps the first two tickers named, and drops the later ones. */
  lemma NormalizeKeepsFirst(entries: seq<string>, t: string)
    ensures t in Normalize(entries) <==> t != "" && exists p: nat :: NamedEarly(entries, t, p)
  {
    if t in Normalize(entries) {
      var j :| 0 <= j < |Normalize(entries)| && Normalize(entries)[j] == t;
      var p := FirstListed(entries, j);
      KeptNamedEarly(entries, t, j, p);
    }
    if t != "" && exists p: nat :: NamedEarly(entries, t, p) {
      var p: nat :| NamedEarly(entries, t, p);
      var j := Listed(entries, p);
      if j >= 2 {
        NamedLate(entries, j, p);
      }
      assert j < |Normalize(entries)| && Normalize(entries)[j] == t;
    }
  }

  lemma {:induction false} FirstNamed(entries: seq<string>, t: string) returns (p: nat)
    requires exists q :: 0 <= q < |entries| && Canon(entries[q]) == t
    ensures p < |entries| && Canon(entries[p]) == t && forall q :: 0 <= q < p ==> Canon(entries[q]) != t
  {
    p := 0;
    if Canon(entries[0]) != t {
      var q :| 0 <= q < |entries| && Canon(entries[q]) == t;
      assert entries[1..][q - 1] == entries[q];
      var r := FirstNamed(entries[1..], t);
      p := r + 1;
      assert forall q :: 0 < q < p ==> entries[q] == entries[1..][q - 1];
    }
  }

  lemma KeptNamedEarly(entries: seq<string>, t: string, j: nat, p: nat)
    requires j < 2 && j < |Distinct(entries)| && Distinct(entries)[j] == t
    requires p < |entries| && Canon(entries[p]) == t && forall q :: 0 <= q < p ==> Canon(entries[q]) != t
    ensures NamedEarly(entries, t, p)
  {
    forall q | 0 <= q < p && Canon(entries[q]) !in ["", t] ensures Canon(entries[q]) == Distinct(entries)[0] {
      var i := Listed(entries, q);
      if i > j {
        var p' := DistinctInOrder(entries, j, i);
      }
    }
  }

  lemma NamedLate(entries: seq<string>, j: nat, p: nat)
    requires 2 <= j < |Distinct(entries)|
    ensures !NamedEarly(entries, Distinct(entries)[j], p)
  {
    var d := Distinct(entries);
    DistinctShape(entries);
    assert d[0] != d[1] && d[0] != d[j] && d[1] != d[j];
    var a := FirstListed(entries, 0);
    var b := FirstListed(entries, 1);
    var q := DistinctInOrder(entries, 0, j);
    var r := DistinctInOrder(entries, 1, j);
  }

  lemma {:induction false} DistinctFixed(r: seq<string>)
    requires CanonAndDistinct(r)
    ensures Distinct(r) == r
  {
    if r != [] {
      var n := |r| - 1;
      DistinctFixed(r[..n]);
      assert r == r[..n] + [r[n]] && IsCanon(r[n]);
    }
  }

  /** The two clamps agree: a roster is left alone by the edge exactly when it is normalised,
      every roster the core accepts is, and so is the result of any normalisation. */
  lemma ClampFixedPoint(r: seq<string>)
    ensures Normalize(r) == r <==> Normalized(r)
    ensures Normalized(Normalize(r))
    ensures Validated(r).Some? ==> Validated(r).value == Normalize(r) && Normalized(Validated(r).value)
  {
    DistinctShape(r);
    if Normalized(r) {
      DistinctFixed(r);
    }
  }

  // ---------------------------------------------------------------- shutoff windows

  /** A local instant: a day (day 0 is a Monday) and nanoseconds into it. */
  const NANOS := 1_000_000_000
  const DAY_SECS := 86_400
  type Nanos = n: nat | n < DAY_SECS * NANOS
  datatype Instant = Instant(day: int, nanos: Nanos)

  predicate Before(x: Instant, y: Instant) { x.day < y.day || (x.day == y.day && x.nanos < y.nanos) }
  predicate Weekend(day: int) { day % 7 == 5 || day % 7 == 6 }
  function SecsOfDay(t: Instant): nat { t.nanos / NANOS }

  const ALL_OPEN := 8 * 3600 + 15 * 60
  const ALL_CLOSE := 18 * 3600 + 30 * 60
  const INDEX_OPEN := 9 * 3600 + 20 * 60
  const INDEX_LAST := 16 * 3600 + 9 * 60 + 59

  predicate IndexTicker(ticker: string) { Upper(ticker) == "SPX" || Upper(ticker) == "NDX" }

  /** core: `TickerAllowed` */
  predicate Allowed(ticker: string, now: Instant) {
    && !Weekend(now.day)
    && var s := SecsOfDay(now);
       if IndexTicker(ticker) then INDEX_OPEN <= s <= INDEX_LAST else ALL_OPEN <= s < ALL_CLOSE
  }

  /** edge: `BlockedReason`; empty when a pass may run. */
  function BlockedReason(ticker: string, now: Instant): string {
    if Weekend(now.day) then "weekend" else
    var s := SecsOfDay(now);
    if IndexTicker(ticker) then
      if s < INDEX_OPEN then Upper(ticker) + " opens 09:20 ET"
      else if s > INDEX_LAST then Upper(ticker) + " closed 16:10 ET" else ""
    else if s < ALL_OPEN || s >= ALL_CLOSE then "sweeps blocked until 08:15 ET" else ""
  }

  /** The two gates agree on every ticker at every instant. */
  lemma GatesAgree(ticker: string, now: Instant)
    ensures Allowed(ticker, now) <==> BlockedReason(ticker, now) == ""
  {
    assert (Upper(ticker) + " opens 09:20 ET")[|ticker|] == ' ';
    assert (Upper(ticker) + " closed 16:10 ET")[|ticker|] == ' ';
  }

  /** On weekdays, in nanoseconds of the day: from 09:20 up to 16:10 for the index tickers, from 08:15 up
      to 18:30 for the others. */
  lemma AllowedIs(ticker: string, now: Instant)
    ensures Allowed(ticker, now) <==>
            now.day % 7 < 5 &&
            if Upper(ticker) == "SPX" || Upper(ticker) == "NDX" then 33_600_000_000_000 <= now.nanos < 58_200_000_000_000
            else 29_700_000_000_000 <= now.nanos < 66_600_000_000_000
  {
  }

  function OpenSecs(ticker: string): nat { if IndexTicker(ticker) then INDEX_OPEN else ALL_OPEN }

  /** The instant the ticker's window opens on a day. */
  function Opening(ticker: string, day: int): Instant {
    Instant(day, OpenSecs(ticker) * NANOS)
  }

  lemma WeekHasWeekday(day: int)
    ensures exists d :: day <= d < day + 3 && !Weekend(d)
  {
    assert !Weekend(day) || !Weekend(day + 1) || !Weekend(day + 2);
  }

  method NextOpen(ticker: string, now: Instant) returns (r: Instant)
    ensures IsNextOpen(ticker, now, r)
  {
    var open := OpenSecs(ticker);
    var d := 0;
    while d < 8
      invariant 0 <= d <= 8
      invariant forall day :: now.day <= day < now.day + d ==> Weekend(day) || !Before(now, Opening(ticker, day))
    {
      var day := now.day + d;
      if !Weekend(day) {
        var cand := Instant(day, open * NANOS);
        if Before(now, cand) {
          assert cand == Opening(ticker, day);
          return cand;
        }
      }
      d := d + 1;
    }
    WeekHasWeekday(now.day + 1);
    return now;
  }

  /** What `NextOpen` answers. */
  ghost predicate IsNextOpen(ticker: string, now: Instant, r: Instant) {
    && Before(now, r) && !Weekend(r.day) && r == Opening(ticker, r.day)
    && forall day :: !Weekend(day) && Before(now, Opening(ticker, day)) ==> r.day <= day
  }

  /** r is the first instant from now on at which the ticker is allowed. */
  ghost predicate IsFirstAllowed(ticker: string, now: Instant, r: Instant) {
    Allowed(ticker, r) && !Before(r, now) && forall u :: !Before(u, now) && Before(u, r) ==> !Allowed(ticker, u)
  }

  /** The next opening is the first instant from now on at which the ticker is allowed if and
      only if it is blocked now. */
  lemma NextOpenIsFirstAllowed(ticker: string, now: Instant, r: Instant)
    requires IsNextOpen(ticker, now, r)
    ensures IsFirstAllowed(ticker, now, r) <==> !Allowed(ticker, now)
  {
    if !Allowed(ticker, now) {
      forall u | !Before(u, now) && Before(u, r) ensures !Allowed(ticker, u) {
        BlockedUntil(ticker, now, r, u);
      }
    }
  }

  lemma BlockedUntil(ticker: string, now: Instant, r: Instant, u: Instant)
    requires IsNextOpen(ticker, now, r) && !Allowed(ticker, now) && !Before(u, now) && Before(u, r)
    ensures !Allowed(ticker, u)
  {
    assert !Weekend(u.day) && Before(now, Opening(ticker, u.day)) ==> r.day <= u.day;
  }
}
