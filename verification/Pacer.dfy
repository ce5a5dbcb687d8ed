/** The outbound message pacer of the edge (edge/src/GexEdge/Throttling.cs): a token
    bucket refilled from a monotonic clock, in seconds. */
module Pacer {
  import opened Common

  datatype Bucket = Bucket(tokens: real, lastRefill: real)

  /** The refill earned over a span of seconds. */
  function Earned(rate: real, seconds: real): real { seconds * rate }

  /** One turn of the wait loop: refill, then send if a whole token is there. */
  function Attempt(s: Bucket, rate: real, burst: real, now: real): (Bucket, bool) {
    var tokens := Min(burst, s.tokens + Earned(rate, now - s.lastRefill));
    if tokens >= 1.0 then (Bucket(tokens - 1.0, now), true) else (Bucket(tokens, now), false)
  }

  /** The send times, and the bucket left, of a run of attempts at the given instants. */
  function Sends(s: Bucket, rate: real, burst: real, at: seq<real>): (seq<real>, Bucket)
  {
    if at == [] then ([], s) else
    var (sent, last) := Sends(s, rate, burst, at[..|at| - 1]);
    var (s', granted) := Attempt(last, rate, burst, at[|at| - 1]);
    (if granted then sent + [at[|at| - 1]] else sent, s')
  }

  ghost predicate Ordered(from: real, at: seq<real>) {
    && (forall i :: 0 <= i < |at| ==> from <= at[i])
    && (forall i, j :: 0 <= i < j < |at| ==> at[i] <= at[j])
  }

  lemma SendsExtend(s: Bucket, rate: real, burst: real, at: seq<real>, now: real)
    ensures var (sent, last) := Sends(s, rate, burst, at);
            var (s', granted) := Attempt(last, rate, burst, now);
            Sends(s, rate, burst, at + [now]) == (if granted then sent + [now] else sent, s')
  {
    assert (at + [now])[..|at|] == at;
  }

  lemma OrderedExtend(from: real, at: seq<real>, now: real)
    requires Ordered(from, at) && now >= if at == [] then from else at[|at| - 1]
    ensures Ordered(from, at + [now])
  {
  }

  class MsgPacer {
    const rate: real
    const burst: real
    var tokens: real
    var lastRefill: real
    var sent: nat
    ghost var at: seq<real>      // the instants of every attempt so far
    ghost var times: seq<real>   // when each message so far was let through

    ghost predicate Valid()
      reads this
    {
      && rate >= 0.0 && sent == |times| && Ordered(0.0, at)
      && lastRefill == (if at == [] then 0.0 else at[|at| - 1])
      && (times, Bucket(tokens, lastRefill)) == Sends(Bucket(burst, 0.0), rate, burst, at)
    }

    constructor (rate: real, burst: real)
      requires rate >= 0.0
      ensures Valid() && this.rate == rate && this.burst == burst && times == []
    {
      this.rate, this.burst := rate, burst;
      tokens, lastRefill, sent, at, times := burst, 0.0, 0, [], [];
    }

    /** One turn of `WaitAsync` under its lock. */
    method TryAcquire(now: real) returns (granted: bool)
      requires Valid() && now >= lastRefill
      modifies this
      ensures Valid() && at == old(at) + [now]
      ensures granted == Attempt(Bucket(old(tokens), old(lastRefill)), rate, burst, now).1
      ensures times == if granted then old(times) + [now] else old(times)
    {
      ghost var run := at + [now];
      ghost var before := Bucket(tokens, lastRefill);
      SendsExtend(Bucket(burst, 0.0), rate, burst, at, now);
      OrderedExtend(0.0, at, now);
      var last := lastRefill;
      lastRefill := now;
      tokens := Min(burst, tokens + Earned(rate, now - last));
      granted := false;
      if tokens >= 1.0 {
        tokens := tokens - 1.0;
        sent := sent + 1;
        times := times + [now];
        granted := true;
      }
      assert (Bucket(tokens, lastRefill), granted) == Attempt(before, rate, burst, now);
      at := run;
    }

    /** The pacing law, for the messages this object has let through. */
    lemma Paced(i: nat, j: nat)
      requires Valid() && i <= j < |times|
      ensures (j - i + 1) as real <= burst + Earned(rate, times[j] - times[i])
    {
      PacingLaw(rate, burst, 0.0, at, i, j);
    }

    /** The object lets a message through exactly when the law allows one more. */
    lemma NextExactly(now: real)
      requires Valid() && burst >= 1.0 && now >= lastRefill
      ensures Attempt(Bucket(tokens, lastRefill), rate, burst, now).1 <==> Lawful(rate, burst, times, now)
    {
      OrderedExtend(0.0, at, now);
      GrantedExactly(rate, burst, 0.0, at, now);
    }
  }

  /** What the bucket owes, in tokens: `credit` is all refill up to now and `stamps` the
      refill up to each message.  The messages from i on, plus the tokens left, are covered
      by one burst and the refill since message i. */
  ghost predicate Ledger(tokens: real, credit: real, burst: real, stamps: seq<real>) {
    && tokens <= burst && (stamps != [] ==> tokens >= 0.0 && burst >= 1.0)
    && forall i :: 0 <= i < |stamps| ==>
         (|stamps| - i) as real + tokens <= burst + credit - stamps[i]
  }

  lemma LedgerKept(tokens: real, credit: real, burst: real, stamps: seq<real>, earned: real)
    requires Ledger(tokens, credit, burst, stamps) && earned >= 0.0
    ensures var t := Min(burst, tokens + earned);
            if t >= 1.0 then Ledger(t - 1.0, credit + earned, burst, stamps + [credit + earned])
            else Ledger(t, credit + earned, burst, stamps)
  {
  }

  function Stamps(rate: real, times: seq<real>): seq<real> {
    seq(|times|, i requires 0 <= i < |times| => Earned(rate, times[i]))
  }

  lemma StampsExtend(rate: real, times: seq<real>, now: real)
    ensures Stamps(rate, times + [now]) == Stamps(rate, times) + [Earned(rate, now)]
  {
  }

  lemma {:induction false} RunLedger(rate: real, burst: real, start: real, at: seq<real>)
    requires rate >= 0.0 && Ordered(start, at)
    ensures var (sent, s) := Sends(Bucket(burst, start), rate, burst, at);
            && Ledger(s.tokens, Earned(rate, s.lastRefill), burst, Stamps(rate, sent))
            && s.lastRefill == if at == [] then start else at[|at| - 1]
  {
    if at != [] {
      var prefix, now := at[..|at| - 1], at[|at| - 1];
      RunLedger(rate, burst, start, prefix);
      var (sent, s) := Sends(Bucket(burst, start), rate, burst, prefix);
      EarnedSplit(rate, s.lastRefill, now);
      LedgerKept(s.tokens, Earned(rate, s.lastRefill), burst, Stamps(rate, sent), Earned(rate, now - s.lastRefill));
      StampsExtend(rate, sent, now);
    }
  }

  lemma EarnedSplit(rate: real, from: real, to: real)
    requires rate >= 0.0 && from <= to
    ensures Earned(rate, to - from) >= 0.0 && Earned(rate, to) == Earned(rate, from) + Earned(rate, to - from)
  {
  }

  lemma {:induction false} SendsPrefix(s: Bucket, rate: real, burst: real, at: seq<real>, n: nat) returns (m: nat)
    requires n < |Sends(s, rate, burst, at).0|
    ensures 0 < m <= |at| && at[m - 1] == Sends(s, rate, burst, at).0[n]
    ensures Sends(s, rate, burst, at[..m]).0 == Sends(s, rate, burst, at).0[..n + 1]
  {
    var prefix := at[..|at| - 1];
    var sent := Sends(s, rate, burst, prefix).0;
    if n < |sent| {
      m := SendsPrefix(s, rate, burst, prefix, n);
      assert prefix[..m] == at[..m];
    } else {
      m := |at|;
      assert at[..m] == at;
    }
  }

  /** The pacing law: in every run, whatever attempts were refused in between, the
      messages i to j are at most one burst plus the refill between their times. */
  lemma PacingLaw(rate: real, burst: real, start: real, at: seq<real>, i: nat, j: nat)
    requires rate >= 0.0 && Ordered(start, at)
    requires i <= j < |Sends(Bucket(burst, start), rate, burst, at).0|
    ensures var sent := Sends(Bucket(burst, start), rate, burst, at).0;
            (j - i + 1) as real <= burst + Earned(rate, sent[j] - sent[i])
  {
    var full := Sends(Bucket(burst, start), rate, burst, at).0;
    var m := SendsPrefix(Bucket(burst, start), rate, burst, at, j);
    RunLedger(rate, burst, start, at[..m]);
    LedgerLaw(rate, burst, full[..j + 1], Sends(Bucket(burst, start), rate, burst, at[..m]).1.tokens, i);
  }

  lemma LedgerLaw(rate: real, burst: real, sent: seq<real>, tokens: real, i: nat)
    requires i < |sent| && Ledger(tokens, Earned(rate, sent[|sent| - 1]), burst, Stamps(rate, sent))
    ensures (|sent| - i) as real <= burst + Earned(rate, sent[|sent| - 1] - sent[i])
  {
    assert Stamps(rate, sent)[i] == Earned(rate, sent[i]);
  }

  /** The wait a refused attempt computes (in seconds) is exactly long enough: with no other
      sender, a later attempt succeeds if and only if that much time has passed. */
  lemma RefusedWaitIsExact(s: Bucket, rate: real, burst: real, t: real, now: real)
    requires rate > 0.0 && burst >= 1.0
    requires !Attempt(s, rate, burst, t).1
    ensures var refused := Attempt(s, rate, burst, t).0;
            Attempt(refused, rate, burst, now).1 <==> now - t >= (1.0 - refused.tokens) / rate
  {
    WaitQuotient(rate, 1.0 - Attempt(s, rate, burst, t).0.tokens, now - t);
  }

  lemma WaitQuotient(rate: real, missing: real, waited: real)
    requires rate > 0.0
    ensures Earned(rate, waited) >= missing <==> waited >= missing / rate
  {
    var wait := missing / rate;
    assert wait * rate == missing;
    assert (waited - wait) * rate == waited * rate - missing;
  }

  // ---------------------------------------------------------------- no message is held back without need

  /** The bucket is full, or it is short by just what was sent since some message less the refill
      since then. */
  ghost predicate Tight(tokens: real, credit: real, burst: real, stamps: seq<real>) {
    tokens == burst || exists i :: 0 <= i < |stamps| && ShortSince(tokens, credit, burst, stamps, i)
  }
  ghost predicate ShortSince(tokens: real, credit: real, burst: real, stamps: seq<real>, i: int)
    requires 0 <= i < |stamps|
  {
    tokens == burst + credit - stamps[i] - (|stamps| - i) as real
  }

  lemma TightKept(tokens: real, credit: real, burst: real, stamps: seq<real>, earned: real)
    requires Tight(tokens, credit, burst, stamps) && earned >= 0.0 && burst >= 1.0
    ensures var t := Min(burst, tokens + earned);
            if t >= 1.0 then Tight(t - 1.0, credit + earned, burst, stamps + [credit + earned])
            else Tight(t, credit + earned, burst, stamps)
  {
    var t, more := Min(burst, tokens + earned), stamps + [credit + earned];
    if t == burst {
      assert ShortSince(t - 1.0, credit + earned, burst, more, |stamps|);
    } else {
      var i :| 0 <= i < |stamps| && ShortSince(tokens, credit, burst, stamps, i);
      assert ShortSince(t, credit + earned, burst, stamps, i);
      assert more[i] == stamps[i];
      assert ShortSince(t - 1.0, credit + earned, burst, more, i);
    }
  }

  lemma {:induction false} RunTight(rate: real, burst: real, start: real, at: seq<real>)
    requires rate >= 0.0 && burst >= 1.0 && Ordered(start, at)
    ensures var (sent, s) := Sends(Bucket(burst, start), rate, burst, at);
            && Tight(s.tokens, Earned(rate, s.lastRefill), burst, Stamps(rate, sent))
            && s.lastRefill == if at == [] then start else at[|at| - 1]
  {
    if at != [] {
      var prefix, now := at[..|at| - 1], at[|at| - 1];
      RunTight(rate, burst, start, prefix);
      var (sent, s) := Sends(Bucket(burst, start), rate, burst, prefix);
      EarnedSplit(rate, s.lastRefill, now);
      TightKept(s.tokens, Earned(rate, s.lastRefill), burst, Stamps(rate, sent), Earned(rate, now - s.lastRefill));
      StampsExtend(rate, sent, now);
    }
  }

  /** The law lets one more message through at this instant. */
  ghost predicate Lawful(rate: real, burst: real, sent: seq<real>, now: real) {
    forall i :: 0 <= i < |sent| ==> (|sent| - i + 1) as real <= burst + Earned(rate, now - sent[i])
  }

  /** In every run a message is let through if and only if the law allows it: the pacer never sends too
      much, and never holds back what it could send. */
  lemma GrantedExactly(rate: real, burst: real, start: real, at: seq<real>, now: real)
    requires rate >= 0.0 && burst >= 1.0 && Ordered(start, at + [now])
    ensures var (sent, s) := Sends(Bucket(burst, start), rate, burst, at);
            Attempt(s, rate, burst, now).1 <==> Lawful(rate, burst, sent, now)
  {
    var (sent, s) := Sends(Bucket(burst, start), rate, burst, at);
    assert forall i :: 0 <= i < |at| ==> at[i] == (at + [now])[i];
    assert (at + [now])[|at|] == now;
    if Attempt(s, rate, burst, now).1 {
      GrantedObeys(rate, burst, start, at, now);
    } else {
      RunTight(rate, burst, start, at);
      EarnedSplit(rate, s.lastRefill, now);
      RefusedBreaks(s, rate, burst, sent, now);
    }
  }

  lemma GrantedObeys(rate: real, burst: real, start: real, at: seq<real>, now: real)
    requires rate >= 0.0 && Ordered(start, at + [now]) && Attempt(Sends(Bucket(burst, start), rate, burst, at).1, rate, burst, now).1
    ensures Lawful(rate, burst, Sends(Bucket(burst, start), rate, burst, at).0, now)
  {
    var sent := Sends(Bucket(burst, start), rate, burst, at).0;
    SendsExtend(Bucket(burst, start), rate, burst, at, now);
    forall i | 0 <= i < |sent| ensures (|sent| - i + 1) as real <= burst + Earned(rate, now - sent[i]) {
      PacingLaw(rate, burst, start, at + [now], i, |sent|);
      assert (sent + [now])[i] == sent[i];
    }
  }

  lemma RefusedBreaks(s: Bucket, rate: real, burst: real, sent: seq<real>, now: real)
    requires rate >= 0.0 && burst >= 1.0 && now >= s.lastRefill && !Attempt(s, rate, burst, now).1
    requires Tight(s.tokens, Earned(rate, s.lastRefill), burst, Stamps(rate, sent))
    ensures !Lawful(rate, burst, sent, now)
  {
    EarnedSplit(rate, s.lastRefill, now);
    var i :| 0 <= i < |sent| && ShortSince(s.tokens, Earned(rate, s.lastRefill), burst, Stamps(rate, sent), i);
    assert Stamps(rate, sent)[i] == Earned(rate, sent[i]);
    assert Earned(rate, now - sent[i]) == Earned(rate, now) - Earned(rate, sent[i]);
  }
}
