/** Orders of keys, and sorting by them. */
module Ordering {
  import opened Market

  /** A strict total order. */
  ghost predicate StrictOrder<K(!new)>(less: (K, K) -> bool) {
    && (forall a :: !less(a, a))
    && (forall a, b, c :: less(a, b) && less(b, c) ==> less(a, c))
    && (forall a, b :: less(a, b) || a == b || less(b, a))
  }

  ghost predicate SortedBy<K>(s: seq<K>, less: (K, K) -> bool) {
    forall i, j :: 0 <= i < j < |s| ==> less(s[i], s[j])
  }

  function InsertKey<K(!new)>(s: seq<K>, k: K, less: (K, K) -> bool): (r: seq<K>)
    ensures forall x :: x in r <==> x in s || x == k
  {
    if s == [] || less(s[|s| - 1], k) then s + [k] else
    assert s == s[..|s| - 1] + [s[|s| - 1]];
    InsertKey(s[..|s| - 1], k, less) + [s[|s| - 1]]
  }

  lemma {:induction false} InsertKeySorted<K(!new)>(s: seq<K>, k: K, less: (K, K) -> bool)
    requires StrictOrder(less) && SortedBy(s, less) && k !in s
    ensures SortedBy(InsertKey(s, k, less), less)
  {
    if s != [] {
      var front, last := s[..|s| - 1], s[|s| - 1];
      assert s == front + [last];
      if !less(last, k) {
        assert less(k, last);
        InsertKeySorted(front, k, less);
        var t := InsertKey(front, k, less);
        forall i | 0 <= i < |t| ensures less(t[i], last) {
          assert t[i] in t;
        }
      }
    }
  }

  /** Insertion sort. */
  function Sort<K(!new)>(keys: seq<K>, less: (K, K) -> bool): (r: seq<K>)
    ensures forall k :: k in r <==> k in keys
  {
    if keys == [] then [] else
    assert keys == keys[..|keys| - 1] + [keys[|keys| - 1]];
    InsertKey(Sort(keys[..|keys| - 1], less), keys[|keys| - 1], less)
  }

  lemma {:induction false} SortSorts<K(!new)>(keys: seq<K>, less: (K, K) -> bool)
    requires StrictOrder(less) && forall i, j :: 0 <= i < j < |keys| ==> keys[i] != keys[j]
    ensures SortedBy(Sort(keys, less), less)
  {
    if keys != [] {
      var n := |keys| - 1;
      SortSorts(keys[..n], less);
      InsertKeySorted(Sort(keys[..n], less), keys[n], less);
    }
  }

  method SortKeys<K(!new)>(keys: seq<K>, less: (K, K) -> bool) returns (out: seq<K>)
    ensures out == Sort(keys, less)
  {
    out := [];
    for n := 0 to |keys|
      invariant out == Sort(keys[..n], less)
    {
      assert keys[..n + 1][..n] == keys[..n];
      out := InsertKey(out, keys[n], less);
    }
    assert keys[..|keys|] == keys;
  }

  /** Sorted sequences with the same members are the same. */
  lemma {:induction false} SortedUnique<K(!new)>(s: seq<K>, t: seq<K>, less: (K, K) -> bool)
    requires StrictOrder(less) && SortedBy(s, less) && SortedBy(t, less) && forall k :: k in s <==> k in t
    ensures s == t
  {
    assert t != [] ==> t[0] in t;
    if s != [] {
      assert s[0] in s;
      var m, n := |s| - 1, |t| - 1;
      LastIsGreatest(s, t, less);
      assert s == s[..m] + [s[m]] && t == t[..n] + [t[n]];
      forall k ensures k in s[..m] <==> k in t[..n] {
        FrontMember(s, k, less);
        FrontMember(t, k, less);
      }
      SortedUnique(s[..m], t[..n], less);
    }
  }

  lemma LastIsGreatest<K(!new)>(s: seq<K>, t: seq<K>, less: (K, K) -> bool)
    requires StrictOrder(less) && SortedBy(s, less) && SortedBy(t, less) && s != [] && t != [] && forall k :: k in s <==> k in t
    ensures s[|s| - 1] == t[|t| - 1]
  {
    var a, b := s[|s| - 1], t[|t| - 1];
    assert a in s && b in t;
    var i :| 0 <= i < |t| && t[i] == a;
    var j :| 0 <= j < |s| && s[j] == b;
    assert i < |t| - 1 ==> less(a, b);
    assert j < |s| - 1 ==> less(b, a);
  }

  lemma FrontMember<K(!new)>(s: seq<K>, k: K, less: (K, K) -> bool)
    requires StrictOrder(less) && SortedBy(s, less) && s != []
    ensures k in s[..|s| - 1] <==> k in s && k != s[|s| - 1]
  {
    assert s == s[..|s| - 1] + [s[|s| - 1]];
  }

  // ---------------------------------------------------------------- text, dates, pairs

  /** Text in dictionary order. */
  predicate TextBefore(a: string, b: string) {
    b != "" && (a == "" || a[0] < b[0] || (a[0] == b[0] && TextBefore(a[1..], b[1..])))
  }

  /** Alike up to some place, where a ends or has the smaller character. */
  ghost predicate Lexical(a: string, b: string) {
    exists k :: 0 <= k <= |a| && k < |b| && a[..k] == b[..k] && (k == |a| || a[k] < b[k])
  }

  lemma {:induction false} TextBeforeIs(a: string, b: string)
    ensures TextBefore(a, b) ==> Lexical(a, b)
  {
    if TextBefore(a, b) {
      if a == "" || a[0] < b[0] {
        assert a[..0] == b[..0];
      } else {
        TextBeforeIs(a[1..], b[1..]);
        var k :| 0 <= k <= |a[1..]| && k < |b[1..]| && a[1..][..k] == b[1..][..k] && (k == |a[1..]| || a[1..][k] < b[1..][k]);
        assert a[..k + 1] == [a[0]] + a[1..][..k] && b[..k + 1] == [b[0]] + b[1..][..k];
      }
    }
  }

  lemma {:induction false} TextNotBeforeItself(a: string)
    ensures !TextBefore(a, a)
  {
    if a != "" {
      TextNotBeforeItself(a[1..]);
    }
  }

  lemma {:induction false} TextTransitive(a: string, b: string, c: string)
    requires TextBefore(a, b) && TextBefore(b, c)
    ensures TextBefore(a, c)
  {
    if a != "" && a[0] == b[0] == c[0] {
      TextTransitive(a[1..], b[1..], c[1..]);
    }
  }

  lemma {:induction false} TextTotal(a: string, b: string)
    ensures TextBefore(a, b) || a == b || TextBefore(b, a)
  {
    if a != "" && b != "" && a[0] == b[0] {
      TextTotal(a[1..], b[1..]);
      assert a == [a[0]] + a[1..] && b == [b[0]] + b[1..];
    }
  }

  /** Dates of eight digits order as their days do. */
  predicate DateBefore(x: Expiry, y: Expiry) {
    match (x, y)
    case (Ymd(a), Ymd(b)) => a < b
    case (Ymd(_), BadDate(_)) => true
    case (BadDate(_), Ymd(_)) => false
    case (BadDate(s), BadDate(t)) => TextBefore(s, t)
  }

  /** By date, then by class. */
  predicate PairBefore(p: Pair, q: Pair) {
    DateBefore(p.expiry, q.expiry) || (p.expiry == q.expiry && TextBefore(p.cls, q.cls))
  }

  function ByText(): (string, string) -> bool { (a, b) => TextBefore(a, b) }
  function ByPair(): (Pair, Pair) -> bool { (p, q) => PairBefore(p, q) }

  lemma TextOrder()
    ensures StrictOrder(ByText())
  {
    forall a: string ensures !TextBefore(a, a) {
      TextNotBeforeItself(a);
    }
    forall a: string, b: string, c: string | TextBefore(a, b) && TextBefore(b, c) ensures TextBefore(a, c) {
      TextTransitive(a, b, c);
    }
    forall a: string, b: string ensures TextBefore(a, b) || a == b || TextBefore(b, a) {
      TextTotal(a, b);
    }
  }

  function ByReal(): (real, real) -> bool { (x, y) => x < y }
  function ByInt(): (int, int) -> bool { (x, y) => x < y }

  lemma NumberOrder()
    ensures StrictOrder(ByReal()) && StrictOrder(ByInt())
  {
  }

  lemma DateOrder(x: Expiry, y: Expiry, z: Expiry)
    ensures !DateBefore(x, x)
    ensures DateBefore(x, y) && DateBefore(y, z) ==> DateBefore(x, z)
    ensures DateBefore(x, y) || x == y || DateBefore(y, x)
  {
    if x.BadDate? {
      TextNotBeforeItself(x.text);
      if y.BadDate? {
        TextTotal(x.text, y.text);
        if z.BadDate? && TextBefore(x.text, y.text) && TextBefore(y.text, z.text) {
          TextTransitive(x.text, y.text, z.text);
        }
      }
    }
  }

  lemma PairOrder()
    ensures StrictOrder(ByPair())
  {
    forall p: Pair ensures !PairBefore(p, p) {
      DateOrder(p.expiry, p.expiry, p.expiry);
      TextNotBeforeItself(p.cls);
    }
    forall p: Pair, q: Pair, r: Pair | PairBefore(p, q) && PairBefore(q, r) ensures PairBefore(p, r) {
      DateOrder(p.expiry, q.expiry, r.expiry);
      if p.expiry == q.expiry == r.expiry {
        TextTransitive(p.cls, q.cls, r.cls);
      }
    }
    forall p: Pair, q: Pair ensures PairBefore(p, q) || p == q || PairBefore(q, p) {
      DateOrder(p.expiry, q.expiry, p.expiry);
      TextTotal(p.cls, q.cls);
    }
  }
}
