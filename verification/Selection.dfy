/** Expiry selection and the two-standard-deviation strike filter (core/internal/market/select.go). */
module Selection {
  import opened Common
  import opened Market
  import opened Ordering

  // ---------------------------------------------------------------- least elements

  ghost function Least(s: set<int>): (m: int)
    requires s != {}
    ensures m in s
    ensures forall x :: x in s ==> m <= x
  {
    var y := Any(s);
    if s == {y} then y else
    var rest := s - {y};
    assert s == rest + {y};
    assert rest != {};
    var m := Least(rest);
    if y <= m then y else m
  }

  ghost predicate Ascending(s: seq<int>) { forall i, j :: 0 <= i < j < |s| ==> s[i] < s[j] }
  function DaysOf(s: seq<int>): set<int> { set d | d in s }

  /** A strictly ascending sequence is determined by its elements. */
  lemma AscendingUnique(s: seq<int>, t: seq<int>)
    requires Ascending(s) && Ascending(t) && DaysOf(s) == DaysOf(t)
    ensures s == t
  {
    NumberOrder();
    forall k ensures k in s <==> k in t {
      assert k in DaysOf(s) <==> k in DaysOf(t);
    }
    SortedUnique(s, t, ByInt());
  }

  lemma FirstOf(s: seq<int>)
    ensures s != [] ==> s[0] in DaysOf(s)
    ensures s != [] && Ascending(s) ==> s[0] == Least(DaysOf(s))
  {
  }

  // ---------------------------------------------------------------- the four-rule pick

  function DatesOf(s: seq<Expiry>): set<Expiry> { set d | d in s }

  ghost predicate AllParse(dates: set<Expiry>) { forall d :: d in dates ==> d.Ymd? }

  /** The days on or after today. */
  ghost function Live(dates: set<Expiry>, today: int): set<int> {
    set d | d in dates && d.Ymd? && d.day >= today :: d.day
  }

  ghost function Fridays(live: set<int>, cal: Calendar): set<int> { set d | d in live && cal.friday(d) }

  ghost function Primary(live: set<int>, cal: Calendar): int
    requires live != {}
  {
    var closest := Least(live);
    if cal.friday(closest) || Fridays(live, cal) == {} then closest else Least(Fridays(live, cal))
  }

  ghost function LaterFridays(live: set<int>, cal: Calendar): set<int>
    requires live != {}
  {
    set d | d in live && cal.friday(d) && d > Primary(live, cal)
  }
  ghost function Monthlies(live: set<int>, cal: Calendar): set<int> { set d | d in live && cal.Monthly(d) }

  ghost function LeastIfAny(s: set<int>): set<int> { if s == {} then {} else {Least(s)} }

  /** The closest day, the primary Friday, the Friday after it, and the first monthly. */
  ghost function PickSet(live: set<int>, cal: Calendar): set<int>
    requires live != {}
  {
    {Least(live), Primary(live, cal)} + LeastIfAny(LaterFridays(live, cal)) + LeastIfAny(Monthlies(live, cal))
  }

  /** What `SelectExpiries` answers for a set of dates. */
  ghost predicate Selectable(dates: set<Expiry>, today: int) { AllParse(dates) && Live(dates, today) != {} }

  ghost function Picked(dates: set<Expiry>, today: int, cal: Calendar): set<int> {
    if Selectable(dates, today) then PickSet(Live(dates, today), cal) else {}
  }

  /** Every pick is a live day of the input, and they include the earliest day, the first
      monthly, and the first Friday. */
  lemma PickFacts(live: set<int>, cal: Calendar)
    requires live != {}
    ensures var p := PickSet(live, cal);
            && p <= live && Least(live) in p
            && (Monthlies(live, cal) != {} ==> Least(Monthlies(live, cal)) in p)
            && (Fridays(live, cal) != {} ==> Least(Fridays(live, cal)) in p)
  {
    assert cal.friday(Least(live)) ==> Least(live) in Fridays(live, cal);
  }

  /** A day that is listed and not over. */
  ghost predicate LiveDay(dates: set<Expiry>, today: int, d: int) { Ymd(d) in dates && d >= today }

  /** No live day is earlier. */
  ghost predicate IsEarliest(dates: set<Expiry>, today: int, d: int) {
    LiveDay(dates, today, d) && forall x :: LiveDay(dates, today, x) ==> d <= x
  }
  /** A live Friday with at most one live Friday before it. */
  ghost predicate IsEarlyFriday(dates: set<Expiry>, today: int, cal: Calendar, d: int) {
    && LiveDay(dates, today, d) && cal.friday(d)
    && forall x, y :: LiveDay(dates, today, x) && LiveDay(dates, today, y) && cal.friday(x) && cal.friday(y) && x < d && y < d ==> x == y
  }
  /** The earliest live Friday whose day of the month is 15 to 21. */
  ghost predicate IsFirstMonthly(dates: set<Expiry>, today: int, cal: Calendar, d: int) {
    && LiveDay(dates, today, d) && cal.friday(d) && 15 <= cal.dayOfMonth(d) <= 21
    && forall x :: LiveDay(dates, today, x) && cal.friday(x) && 15 <= cal.dayOfMonth(x) <= 21 ==> d <= x
  }

  ghost predicate IsPick(dates: set<Expiry>, today: int, cal: Calendar, d: int) {
    IsEarliest(dates, today, d) || IsEarlyFriday(dates, today, cal, d) || IsFirstMonthly(dates, today, cal, d)
  }

  /** The pick is the earliest live day, the two earliest live Fridays and the first live monthly,
      whichever of these there are. */
  lemma PickIs(dates: set<Expiry>, today: int, cal: Calendar, d: int)
    requires AllParse(dates)
    ensures d in Picked(dates, today, cal) <==> IsPick(dates, today, cal, d)
  {
    var live := Live(dates, today);
    forall x ensures x in live <==> LiveDay(dates, today, x) {
      assert x in live ==> Ymd(x) in dates;
    }
    if live != {} {
      assert d == Least(live) <==> IsEarliest(dates, today, d);
      MonthlyPicked(dates, today, cal, d);
      FridaysPicked(dates, today, cal, d);
    }
  }

  lemma MonthlyPicked(dates: set<Expiry>, today: int, cal: Calendar, d: int)
    requires forall x :: x in Live(dates, today) <==> LiveDay(dates, today, x)
    ensures d in LeastIfAny(Monthlies(Live(dates, today), cal)) <==> IsFirstMonthly(dates, today, cal, d)
  {
    var monthlies := Monthlies(Live(dates, today), cal);
    assert forall x :: x in monthlies <==> LiveDay(dates, today, x) && cal.Monthly(x);
  }

  /** Primary and next Friday are the two earliest, or the closest day when there is none. */
  lemma FridaysPicked(dates: set<Expiry>, today: int, cal: Calendar, d: int)
    requires Live(dates, today) != {} && forall x :: x in Live(dates, today) <==> LiveDay(dates, today, x)
    ensures var live := Live(dates, today);
            d == Primary(live, cal) || d in LeastIfAny(LaterFridays(live, cal)) <==>
            IsEarlyFriday(dates, today, cal, d) || (Fridays(live, cal) == {} && d == Least(live))
  {
    var live := Live(dates, today);
    var fridays, later, primary := Fridays(live, cal), LaterFridays(live, cal), Primary(live, cal);
    if fridays == {} {
      assert forall x :: LiveDay(dates, today, x) && cal.friday(x) ==> x in fridays;
    } else {
      FirstFriday(live, cal);
      assert forall x :: x in fridays <==> LiveDay(dates, today, x) && cal.friday(x);
      assert forall x :: x in later <==> x in fridays && x > primary;
      if IsEarlyFriday(dates, today, cal, d) && d != primary {
        forall x | x in later ensures d <= x {
          assert x < d ==> LiveDay(dates, today, x) && LiveDay(dates, today, primary);
        }
        assert d in later;
      }
    }
  }

  lemma FirstFriday(live: set<int>, cal: Calendar)
    requires Fridays(live, cal) != {}
    ensures live != {} && Primary(live, cal) == Least(Fridays(live, cal))
  {
    var f := Any(Fridays(live, cal));
    assert f in live;
    if cal.friday(Least(live)) {
      assert Least(live) in Fridays(live, cal);
    }
  }

  lemma PickSize(live: set<int>, cal: Calendar)
    requires live != {}
    ensures 1 <= |PickSet(live, cal)| <= 4
  {
    var first := {Least(live), Primary(live, cal)};
    var a, b := LeastIfAny(LaterFridays(live, cal)), LeastIfAny(Monthlies(live, cal));
    assert 1 <= |first| <= 2;
    UnionSize(first, a);
    UnionSize(first + a, b);
  }

  lemma UnionSize(a: set<int>, b: set<int>)
    ensures |a| <= |a + b| <= |a| + |b|
  {
    assert a + b == a + (b - a) && |a + (b - a)| == |a| + |b - a|;
    assert b == (b - a) + (a * b) && |(b - a) + (a * b)| == |b - a| + |a * b|;
  }

  // ---------------------------------------------------------------- SelectExpiries

  /** The parsed, live days without repetition, in order of appearance. */
  method ParseLive(dates: seq<Expiry>, today: int) returns (r: Option<seq<int>>)
    ensures r.Some? <==> AllParse(DatesOf(dates))
    ensures r.Some? ==> DaysOf(r.value) == Live(DatesOf(dates), today)
    ensures r.Some? ==> forall i, j :: 0 <= i < j < |r.value| ==> r.value[i] != r.value[j]
  {
    var seen: set<int> := {};
    var valid: seq<int> := [];
    var k := 0;
    while k < |dates|
      invariant 0 <= k <= |dates|
      invariant AllParse(DatesOf(dates[..k]))
      invariant seen == DaysOf(valid) == Live(DatesOf(dates[..k]), today)
      invariant forall i, j :: 0 <= i < j < |valid| ==> valid[i] != valid[j]
    {
      var d := dates[k];
      assert DatesOf(dates[..k + 1]) == DatesOf(dates[..k]) + {d};
      if d.BadDate? {
        assert d in DatesOf(dates);
        return None;
      }
      if d.day >= today && d.day !in seen {
        seen := seen + {d.day};
        valid := valid + [d.day];
      }
      k := k + 1;
    }
    assert dates[..k] == dates;
    return Some(valid);
  }

  method SortDays(days: seq<int>) returns (r: seq<int>)
    requires forall i, j :: 0 <= i < j < |days| ==> days[i] != days[j]
    ensures Ascending(r) && DaysOf(r) == DaysOf(days)
  {
    NumberOrder();
    SortSorts(days, ByInt());
    r := SortKeys(days, ByInt());
    forall i, j | 0 <= i < j < |r| ensures r[i] < r[j] {
      assert ByInt()(r[i], r[j]);
    }
  }

  /** The Friday nearest to the closest day, or that day itself. */
  method FindPrimary(valid: seq<int>, cal: Calendar) returns (primary: int)
    requires Ascending(valid) && valid != [] && DaysOf(valid) != {}
    ensures primary == Primary(DaysOf(valid), cal)
  {
    ghost var live := DaysOf(valid);
    var closest := valid[0];
    FirstOf(valid);
    primary := closest;
    if !cal.friday(closest) {
      var best: Option<int> := None;
      var i := 0;
      while i < |valid|
        invariant 0 <= i <= |valid|
        invariant best.None? ==> forall k :: 0 <= k < i ==> !cal.friday(valid[k])
        invariant best.Some? ==> best.value in Fridays(live, cal) && forall d :: d in Fridays(live, cal) ==> best.value <= d
      {
        var t := valid[i];
        if cal.friday(t) && (best.None? || AbsInt(t - closest) < AbsInt(best.value - closest)) {
          best := Some(t);
        }
        i := i + 1;
      }
      if best.Some? {
        primary := best.value;
      }
    }
  }

  function AbsInt(x: int): nat { if x < 0 then -x else x }

  /** The first day of an ascending sequence that passes a test. */
  method FirstWhere(valid: seq<int>, test: int -> bool, ghost passing: set<int>) returns (r: Option<int>)
    requires Ascending(valid)
    requires (forall d :: d in passing ==> d in valid && test(d)) && (forall d :: d in valid && test(d) ==> d in passing)
    ensures if passing == {} then r == None else r == Some(Least(passing))
  {
    var i := 0;
    while i < |valid|
      invariant 0 <= i <= |valid|
      invariant forall k :: 0 <= k < i ==> !test(valid[k])
    {
      if test(valid[i]) {
        assert valid[i] in valid;
        return Some(valid[i]);
      }
      i := i + 1;
    }
    return None;
  }

  /** Append unless already there. */
  method Add(pick: seq<int>, d: int) returns (r: seq<int>)
    requires forall i, j :: 0 <= i < j < |pick| ==> pick[i] != pick[j]
    ensures forall i, j :: 0 <= i < j < |r| ==> r[i] != r[j]
    ensures DaysOf(r) == DaysOf(pick) + {d}
  {
    for k := 0 to |pick|
      invariant d !in pick[..k]
    {
      if pick[k] == d {
        return pick;
      }
    }
    return pick + [d];
  }

  method PickDays(valid: seq<int>, cal: Calendar) returns (pick: seq<int>)
    requires Ascending(valid) && valid != [] && DaysOf(valid) != {}
    ensures forall i, j :: 0 <= i < j < |pick| ==> pick[i] != pick[j]
    ensures DaysOf(pick) == PickSet(DaysOf(valid), cal)
  {
    ghost var live := DaysOf(valid);
    FirstOf(valid);
    pick := Add([], valid[0]);
    var primary := FindPrimary(valid, cal);
    pick := Add(pick, primary);
    pick := AddFirst(pick, valid, d => d > primary && cal.friday(d), LaterFridays(live, cal));
    pick := AddFirst(pick, valid, d => cal.Monthly(d), Monthlies(live, cal));
  }

  /** Append the first day that passes a test, if any. */
  method AddFirst(pick: seq<int>, valid: seq<int>, test: int -> bool, ghost passing: set<int>) returns (r: seq<int>)
    requires Ascending(valid) && forall i, j :: 0 <= i < j < |pick| ==> pick[i] != pick[j]
    requires (forall d :: d in passing ==> d in valid && test(d)) && (forall d :: d in valid && test(d) ==> d in passing)
    ensures forall i, j :: 0 <= i < j < |r| ==> r[i] != r[j]
    ensures DaysOf(r) == DaysOf(pick) + LeastIfAny(passing)
  {
    var d := FirstWhere(valid, test, passing);
    r := pick;
    if d.Some? {
      r := Add(pick, d.value);
    }
  }

  /** The pick as a strictly ascending list; an error for an unparseable date or when nothing
      is live. */
  method SelectExpiries(dates: seq<Expiry>, today: int, cal: Calendar) returns (r: Option<seq<int>>)
    ensures r.Some? <==> Selectable(DatesOf(dates), today)
    ensures r.Some? ==> Ascending(r.value) && DaysOf(r.value) == Picked(DatesOf(dates), today, cal)
    ensures r.Some? ==> forall d :: d in r.value <==> IsPick(DatesOf(dates), today, cal, d)
  {
    var parsed := ParseLive(dates, today);
    if parsed.None? {
      return None;
    }
    if |parsed.value| == 0 {
      return None;
    }
    assert parsed.value[0] in DaysOf(parsed.value);
    var valid := SortDays(parsed.value);
    assert valid != [];
    var pick := PickDays(valid, cal);
    var out := SortDays(pick);
    forall d ensures d in out <==> IsPick(DatesOf(dates), today, cal, d) {
      PickIs(DatesOf(dates), today, cal, d);
      assert d in out <==> d in DaysOf(out);
    }
    return Some(out);
  }

  /** The result depends only on which dates occur: order and repetition do not matter. */
  lemma SelectionIgnoresOrder(a: seq<Expiry>, b: seq<Expiry>, today: int, cal: Calendar, p: seq<int>, q: seq<int>)
    requires DatesOf(a) == DatesOf(b)
    requires Ascending(p) && DaysOf(p) == Picked(DatesOf(a), today, cal)
    requires Ascending(q) && DaysOf(q) == Picked(DatesOf(b), today, cal)
    ensures p == q
  {
    AscendingUnique(p, q);
  }

  // ---------------------------------------------------------------- selection over a chain

  ghost function DatesIn(rows: seq<Contract>): set<Expiry> { set c | c in rows :: c.expiry }
  ghost function Classes(rows: seq<Contract>): set<string> { set c | c in rows :: c.cls }
  ghost function OfClass(rows: seq<Contract>, cls: string): seq<Contract> { Filter(rows, InClass(cls)) }
  function InClass(cls: string): Contract -> bool { (c: Contract) => c.cls == cls }

  /** c's own expiry is in the pick for the dates of `rows`. */
  ghost predicate PickedFrom(rows: seq<Contract>, c: Contract, today: int, cal: Calendar) {
    c.expiry.Ymd? && c.expiry.day in Picked(DatesIn(rows), today, cal)
  }
  ghost function PickTest(rows: seq<Contract>, today: int, cal: Calendar): Contract -> bool {
    (c: Contract) => PickedFrom(rows, c, today, cal)
  }
  ghost function ClassPickTest(rows: seq<Contract>, today: int, cal: Calendar): Contract -> bool {
    (c: Contract) => PickedFrom(OfClass(rows, c.cls), c, today, cal)
  }

  /** `SelectedExpiries` */
  ghost function Selected(rows: seq<Contract>, today: int, cal: Calendar): Option<seq<Contract>> {
    if Selectable(DatesIn(rows), today) then Some(Filter(rows, PickTest(rows, today, cal))) else None
  }

  /** `SelectedExpiriesByClass`: the pick runs per trading class; a class that cannot be
      selected is skipped. */
  ghost function SelectedByClass(rows: seq<Contract>, today: int, cal: Calendar): Option<seq<Contract>> {
    if |Classes(rows)| <= 1 then Selected(rows, today, cal) else
    var kept := Filter(rows, ClassPickTest(rows, today, cal));
    if kept == [] then None else Some(kept)
  }

  lemma OneClass(rows: seq<Contract>, a: Contract, b: Contract)
    requires |Classes(rows)| <= 1 && a in rows && b in rows
    ensures a.cls == b.cls
  {
    if a.cls != b.cls {
      assert {a.cls, b.cls} <= Classes(rows);
      SubsetSize({a.cls, b.cls}, Classes(rows));
    }
  }

  lemma {:induction false} FilterAll(rows: seq<Contract>, keep: Contract -> bool)
    requires forall c :: c in rows ==> keep(c)
    ensures Filter(rows, keep) == rows
  {
    if rows != [] {
      var n := |rows| - 1;
      assert rows == rows[..n] + [rows[n]];
      FilterAll(rows[..n], keep);
    }
  }

  /** On a one-class chain selecting by class is plain selection, row for row. */
  lemma SingleClass(rows: seq<Contract>, cls: string)
    requires |Classes(rows)| <= 1
    ensures OfClass(rows, cls) == rows || OfClass(rows, cls) == []
  {
    FilterMember(rows, InClass(cls));
    if OfClass(rows, cls) != [] {
      var a := OfClass(rows, cls)[0];
      assert a in OfClass(rows, cls);
      forall c | c in rows ensures c.cls == cls {
        OneClass(rows, a, c);
      }
      FilterAll(rows, InClass(cls));
    }
  }

  /** The rows that class `cls` keeps when it is selected on its own; none if it cannot be. */
  ghost function ClassAlone(rows: seq<Contract>, cls: string, today: int, cal: Calendar): seq<Contract> {
    match Selected(OfClass(rows, cls), today, cal)
    case None => []
    case Some(kept) => kept
  }

  lemma AloneIsFilter(rows: seq<Contract>, today: int, cal: Calendar)
    ensures (match Selected(rows, today, cal) case None => [] case Some(k) => k) ==
            Filter(rows, PickTest(rows, today, cal))
  {
    if Selected(rows, today, cal).None? {
      FilterNone(rows, PickTest(rows, today, cal));
    }
  }

  /** Selecting by class commutes with restricting to one class. */
  lemma ClassProjection(rows: seq<Contract>, cls: string, today: int, cal: Calendar)
    requires SelectedByClass(rows, today, cal).Some?
    ensures OfClass(SelectedByClass(rows, today, cal).value, cls) == ClassAlone(rows, cls, today, cal)
  {
    var sub := OfClass(rows, cls);
    AloneIsFilter(sub, today, cal);
    var own := PickTest(sub, today, cal);
    if |Classes(rows)| <= 1 {
      SingleClass(rows, cls);
      ProjectSingle(rows, cls, today, cal);
    } else {
      var byClass, isCls := ClassPickTest(rows, today, cal), InClass(cls);
      var left := (c: Contract) => byClass(c) && isCls(c);
      var right := (c: Contract) => isCls(c) && own(c);
      FilterTwice(rows, byClass, isCls, left);
      FilterTwice(rows, isCls, own, right);
      FilterAgree(rows, left, right);
    }
  }

  lemma ProjectSingle(rows: seq<Contract>, cls: string, today: int, cal: Calendar)
    requires |Classes(rows)| <= 1 && Selected(rows, today, cal).Some?
    requires OfClass(rows, cls) == rows || OfClass(rows, cls) == []
    ensures OfClass(Selected(rows, today, cal).value, cls) == ClassAlone(rows, cls, today, cal)
  {
    var isCls, picked := InClass(cls), PickTest(rows, today, cal);
    FilterMember(rows, picked);
    FilterMember(rows, isCls);
    if OfClass(rows, cls) == rows {
      FilterAll(Filter(rows, picked), isCls);
    } else {
      FilterNone(Filter(rows, picked), isCls);
      assert DatesIn([]) == {} && Live({}, today) == {};
    }
  }

  lemma {:induction false} FilterNone(rows: seq<Contract>, keep: Contract -> bool)
    requires forall c :: c in rows ==> !keep(c)
    ensures Filter(rows, keep) == []
  {
    if rows != [] {
      var n := |rows| - 1;
      assert rows == rows[..n] + [rows[n]];
      FilterNone(rows[..n], keep);
    }
  }

  /** The class of c has nothing to select: a date of it does not parse, or all are over. */
  ghost predicate ClassOver(rows: seq<Contract>, cls: string, today: int) {
    (exists b :: b in rows && b.cls == cls && b.expiry.BadDate?)
    || (forall b :: b in rows && b.cls == cls ==> b.expiry.day < today)
  }

  lemma ClassOverIs(rows: seq<Contract>, cls: string, today: int)
    ensures Selectable(DatesIn(OfClass(rows, cls)), today) <==> !ClassOver(rows, cls, today)
  {
    FilterMember(rows, InClass(cls));
    var dates := DatesIn(OfClass(rows, cls));
    assert forall b :: b in rows && b.cls == cls ==> b in OfClass(rows, cls) && b.expiry in dates;
    if !ClassOver(rows, cls, today) {
      var b :| b in rows && b.cls == cls && !(b.expiry.day < today);
      assert b.expiry in dates && b.expiry.day in Live(dates, today);
    }
  }

  lemma SelectableKeeps(rows: seq<Contract>, cls: string, today: int, cal: Calendar)
    requires Selectable(DatesIn(OfClass(rows, cls)), today)
    ensures exists c :: c in rows && c.cls == cls && ClassPickTest(rows, today, cal)(c)
  {
    var dates := DatesIn(OfClass(rows, cls));
    FilterMember(rows, InClass(cls));
    PickFacts(Live(dates, today), cal);
    var d := Least(Live(dates, today));
    var c :| c in OfClass(rows, cls) && c.expiry == Ymd(d);
    assert ClassPickTest(rows, today, cal)(c);
  }

  lemma FilterEmpty(rows: seq<Contract>, keep: Contract -> bool)
    ensures Filter(rows, keep) == [] <==> forall c :: c in rows ==> !keep(c)
  {
    FilterMember(rows, keep);
    if Filter(rows, keep) != [] {
      assert Filter(rows, keep)[0] in rows;
    } else {
      assert forall c :: c in rows && keep(c) ==> c in Filter(rows, keep);
    }
  }

  lemma NothingKept(rows: seq<Contract>, today: int, cal: Calendar)
    ensures Filter(rows, ClassPickTest(rows, today, cal)) == [] <==> forall c :: c in rows ==> ClassOver(rows, c.cls, today)
  {
    var test := ClassPickTest(rows, today, cal);
    FilterEmpty(rows, test);
    forall c | c in rows ensures test(c) ==> !ClassOver(rows, c.cls, today) {
      ClassOverIs(rows, c.cls, today);
    }
    forall c | c in rows && !ClassOver(rows, c.cls, today) ensures exists b :: b in rows && test(b) {
      ClassOverIs(rows, c.cls, today);
      SelectableKeeps(rows, c.cls, today, cal);
    }
  }

  /** Selection by class fails exactly when every class is over, and else keeps something. */
  lemma NothingSelected(rows: seq<Contract>, today: int, cal: Calendar)
    ensures SelectedByClass(rows, today, cal).None? <==> forall c :: c in rows ==> ClassOver(rows, c.cls, today)
    ensures SelectedByClass(rows, today, cal).Some? ==> SelectedByClass(rows, today, cal).value != []
  {
    NothingKept(rows, today, cal);
    if |Classes(rows)| <= 1 && rows != [] {
      OneClassSelected(rows, today, cal);
      forall c | c in rows ensures c.cls == rows[0].cls {
        OneClass(rows, c, rows[0]);
      }
      assert rows[0] in rows;
    }
  }

  lemma OneClassSelected(rows: seq<Contract>, today: int, cal: Calendar)
    requires |Classes(rows)| <= 1 && rows != []
    ensures Selectable(DatesIn(rows), today) <==> !ClassOver(rows, rows[0].cls, today)
    ensures Filter(rows, PickTest(rows, today, cal)) == Filter(rows, ClassPickTest(rows, today, cal))
  {
    var cls := rows[0].cls;
    forall c | c in rows ensures c.cls == cls {
      OneClass(rows, c, rows[0]);
    }
    FilterAll(rows, InClass(cls));
    ClassOverIs(rows, cls, today);
    FilterAgree(rows, PickTest(rows, today, cal), ClassPickTest(rows, today, cal));
  }

  // ---------------------------------------------------------------- the same, as the source loops

  /** The distinct expiries of a chain as a list, in whatever order the map yields them. */
  method ListDates(rows: seq<Contract>) returns (list: seq<Expiry>)
    ensures DatesOf(list) == DatesIn(rows)
  {
    var dates: set<Expiry> := {};
    for i := 0 to |rows|
      invariant dates == DatesIn(rows[..i])
    {
      assert rows[..i + 1] == rows[..i] + [rows[i]];
      dates := dates + {rows[i].expiry};
    }
    assert rows[..|rows|] == rows;
    list := [];
    var rest := dates;
    while rest != {}
      invariant rest <= dates && DatesOf(list) == dates - rest
      decreases rest
    {
      var d :| d in rest;
      assert DatesOf(list + [d]) == DatesOf(list) + {d};
      list := list + [d];
      rest := rest - {d};
    }
  }

  /** The rows whose (class, expiry) pair is kept. */
  method KeepPairs(rows: seq<Contract>, keep: set<Pair>, ghost test: Contract -> bool) returns (out: seq<Contract>)
    requires forall c :: c in rows ==> (test(c) <==> PairOf(c) in keep)
    ensures out == Filter(rows, test)
  {
    out := [];
    for i := 0 to |rows|
      invariant out == Filter(rows[..i], test)
    {
      assert rows[..i + 1][..i] == rows[..i];
      if PairOf(rows[i]) in keep {
        out := out + [rows[i]];
      }
    }
    assert rows[..|rows|] == rows;
  }

  method SelectedExpiries(rows: seq<Contract>, today: int, cal: Calendar) returns (r: Option<seq<Contract>>)
    ensures r == Selected(rows, today, cal)
  {
    var list := ListDates(rows);
    var pick := SelectExpiries(list, today, cal);
    if pick.None? {
      return None;
    }
    var out := [];
    for i := 0 to |rows|
      invariant out == Filter(rows[..i], PickTest(rows, today, cal))
    {
      assert rows[..i + 1][..i] == rows[..i];
      assert rows[i].expiry in DatesIn(rows);
      if rows[i].expiry.day in DaysOf(pick.value) {
        out := out + [rows[i]];
      }
    }
    assert rows[..|rows|] == rows;
    return Some(out);
  }

  /** The rows of one class, in order. */
  method RowsOfClass(rows: seq<Contract>, cls: string) returns (out: seq<Contract>)
    ensures out == OfClass(rows, cls)
  {
    out := [];
    for i := 0 to |rows|
      invariant out == Filter(rows[..i], InClass(cls))
    {
      assert rows[..i + 1][..i] == rows[..i];
      if rows[i].cls == cls {
        out := out + [rows[i]];
      }
    }
    assert rows[..|rows|] == rows;
  }

  /** The pairs class `cls` picks. */
  ghost function PairsOf(rows: seq<Contract>, cls: string, today: int, cal: Calendar): set<Pair> {
    set d | d in Picked(DatesIn(OfClass(rows, cls)), today, cal) :: Pair(cls, Ymd(d))
  }

  method PickClass(rows: seq<Contract>, cls: string, today: int, cal: Calendar) returns (pairs: set<Pair>)
    ensures pairs == PairsOf(rows, cls, today, cal)
  {
    var sub := RowsOfClass(rows, cls);
    var list := ListDates(sub);
    var pick := SelectExpiries(list, today, cal);
    if pick.None? {
      return {};
    }
    return set d | d in pick.value :: Pair(cls, Ymd(d));
  }

  method SelectedExpiriesByClass(rows: seq<Contract>, today: int, cal: Calendar) returns (r: Option<seq<Contract>>)
    ensures r == SelectedByClass(rows, today, cal)
  {
    var classes: set<string> := {};
    for i := 0 to |rows|
      invariant classes == Classes(rows[..i])
    {
      assert rows[..i + 1] == rows[..i] + [rows[i]];
      classes := classes + {rows[i].cls};
    }
    assert rows[..|rows|] == rows;
    if |classes| <= 1 {
      r := SelectedExpiries(rows, today, cal);
      return;
    }
    var keep: set<Pair> := {};
    var rest := classes;
    while rest != {}
      invariant rest <= classes
      invariant forall p :: p in keep <==> p.cls in classes - rest && p in PairsOf(rows, p.cls, today, cal)
      decreases rest
    {
      var cls :| cls in rest;
      var pairs := PickClass(rows, cls, today, cal);
      keep := keep + pairs;
      rest := rest - {cls};
    }
    forall c | c in rows ensures ClassPickTest(rows, today, cal)(c) <==> PairOf(c) in keep {
      assert c.cls in classes;
    }
    var out := KeepPairs(rows, keep, ClassPickTest(rows, today, cal));
    r := if |out| == 0 then None else Some(out);
  }

  // ---------------------------------------------------------------- the strike filter

  function Square(x: real): real { x * x }

  /** |strike - spot| <= 2 * spot * iv * sqrt(dte / 365), squared; `TwoSdByRoot` undoes it. */
  predicate TwoSd(strike: real, spot: real, iv: real, dte: int) {
    spot >= 0.0 && 365.0 * Square(strike - spot) <= 4.0 * Square(spot * iv) * dte as real
  }

  lemma TwoSdByRoot(strike: real, spot: real, iv: real, dte: int, root: real)
    requires root >= 0.0 && 365.0 * Square(root) == dte as real && iv > 0.0 && dte >= 1
    ensures TwoSd(strike, spot, iv, dte) <==> Abs(strike - spot) <= 2.0 * (spot * iv * root)
  {
    var dist, sd := Abs(strike - spot), spot * iv * root;
    assert root > 0.0;
    assert Square(spot * iv) * dte as real == 365.0 * Square(sd);
    assert Square(strike - spot) == Square(dist);
    SquareOrder(dist, 2.0 * sd);
    SpotSign(spot, iv, root);
  }

  lemma SpotSign(spot: real, iv: real, root: real)
    requires iv > 0.0 && root > 0.0
    ensures spot >= 0.0 <==> spot * iv * root >= 0.0
  {
    MulSign(iv, root);
    MulSign(spot, Mul(iv, root));
    assert spot * iv * root == Mul(spot, Mul(iv, root));
  }

  lemma SquareOrder(x: real, y: real)
    requires x >= 0.0
    ensures y >= 0.0 ==> (Square(x) <= Square(y) <==> x <= y)
  {
    if y >= 0.0 {
      MulSign(y - x, y + x);
      assert Mul(y - x, y + x) == Square(y) - Square(x);
    }
  }

  /** root(n) is the square root of n days in years. */
  ghost predicate IsYearRoot(root: int -> real) {
    forall n :: n >= 1 ==> root(n) >= 0.0 && 365.0 * Square(root(n)) == n as real
  }
  /** Within two standard deviations of spot, for this root of the time left. */
  predicate NearSpot(strike: real, spot: real, iv: real, root: real) { Abs(strike - spot) <= 2.0 * (spot * iv * root) }

  /** A contract inside its own window; the days to expiry count as one at least. */
  predicate InWindow(c: Contract, spot: real, iv: real, today: int) {
    && c.expiry.Ymd? && c.expiry.day >= today
    && TwoSd(c.strike, spot, iv, if c.expiry.day - today > 1 then c.expiry.day - today else 1)
  }

  lemma WindowIs(c: Contract, spot: real, iv: real, today: int, root: int -> real)
    requires IsYearRoot(root) && iv > 0.0 && c.expiry.Ymd? && c.expiry.day >= today
    ensures InWindow(c, spot, iv, today) <==> NearSpot(c.strike, spot, iv, root(if c.expiry.day == today then 1 else c.expiry.day - today))
  {
    var n := if c.expiry.day == today then 1 else c.expiry.day - today;
    TwoSdByRoot(c.strike, spot, iv, n, root(n));
  }

  function WindowTest(spot: real, iv: real, today: int): Contract -> bool {
    (c: Contract) => InWindow(c, spot, iv, today)
  }

  ghost function Filtered(rows: seq<Contract>, spot: real, iv: real, today: int): Option<seq<Contract>> {
    var kept := Filter(rows, WindowTest(spot, iv, today));
    if iv <= 0.0 || !AllParse(DatesIn(rows)) || kept == [] then None else Some(kept)
  }

  method FilterChain(rows: seq<Contract>, spot: real, iv: real, today: int) returns (r: Option<seq<Contract>>)
    ensures r == Filtered(rows, spot, iv, today)
  {
    if iv <= 0.0 || |rows| == 0 {
      return None;
    }
    var out := [];
    for i := 0 to |rows|
      invariant out == Filter(rows[..i], WindowTest(spot, iv, today))
      invariant forall k :: 0 <= k < i ==> rows[k].expiry.Ymd?
    {
      assert rows[..i + 1][..i] == rows[..i];
      var c := rows[i];
      if c.expiry.BadDate? {
        assert c in rows && c.expiry in DatesIn(rows);
        return None;
      }
      var dte := c.expiry.day - today;
      if dte < 0 {
        continue;
      }
      var effective := if dte > 1 then dte else 1;
      if TwoSd(c.strike, spot, iv, effective) {
        out := out + [c];
      }
    }
    assert rows[..|rows|] == rows;
    r := if |out| == 0 then None else Some(out);
  }

  /** The window of one expiry is an interval of strikes. */
  lemma WindowConvex(lo: Contract, hi: Contract, c: Contract, spot: real, iv: real, today: int)
    requires InWindow(lo, spot, iv, today) && InWindow(hi, spot, iv, today)
    requires lo.expiry == c.expiry == hi.expiry && lo.strike <= c.strike <= hi.strike
    ensures InWindow(c, spot, iv, today)
  {
    if c.strike >= spot {
      SquareBetween(c.strike - spot, hi.strike - spot);
    } else {
      SquareBetween(spot - c.strike, spot - lo.strike);
      assert Square(spot - c.strike) == Square(c.strike - spot) && Square(spot - lo.strike) == Square(lo.strike - spot);
    }
  }

  lemma SquareBetween(x: real, y: real)
    requires 0.0 <= x <= y
    ensures Square(x) <= Square(y)
  {
    SquareOrder(x, y);
  }

  /** A filter that keeps a positive strike had a positive spot. */
  lemma FilteredSpot(rows: seq<Contract>, spot: real, iv: real, today: int)
    requires Filtered(rows, spot, iv, today).Some? && forall c :: c in rows ==> c.strike > 0.0
    ensures spot > 0.0
  {
    FilterMember(rows, WindowTest(spot, iv, today));
    var c := Filtered(rows, spot, iv, today).value[0];
    assert c in Filtered(rows, spot, iv, today).value;
    SpotPositive(c.strike, spot, iv, if c.expiry.day - today > 1 then c.expiry.day - today else 1);
  }

  lemma SpotPositive(strike: real, spot: real, iv: real, dte: int)
    requires TwoSd(strike, spot, iv, dte) && strike > 0.0
    ensures spot > 0.0
  {
    MulSign(strike, strike);
    assert spot == 0.0 ==> Square(strike - spot) == Mul(strike, strike) && Square(spot * iv) == 0.0;
  }
}
