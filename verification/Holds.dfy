/** A slot that is handed values, some at once and some only when a flush comes or enough of them
    have piled up: exactly when it ends with one value wherever the flushes fall. */
module Holds {
  import opened Common

  /** Force hands its value over at once, Patch leaves it pending, Other changes neither. */
  datatype Move = Force | Patch | Other

  /** One event: what it does, the value after it, and whether the slot would take that value. */
  datatype Sight<T> = Sight(move: Move, ok: bool, value: T)

  datatype Slot<T> = Slot(pending: bool, count: nat, held: Option<T>)

  function Hand<T>(b: Slot<T>, x: Sight<T>): Slot<T> { Slot(false, 0, if x.ok then Some(x.value) else b.held) }

  function Act<T>(b: Slot<T>, x: Sight<T>, cap: nat): Slot<T> {
    match x.move
    case Force => Hand(b, x)
    case Patch => if b.count + 1 >= cap then Hand(b, x) else Slot(true, b.count + 1, b.held)
    case Other => b
  }

  function Flushing<T>(b: Slot<T>, x: Sight<T>, flush: bool): Slot<T> { if flush && b.pending then Hand(b, x) else b }

  /** The events xs, with a flush after those that flags says. */
  function Play<T>(xs: seq<Sight<T>>, flags: seq<bool>, seed: Option<T>, cap: nat): Slot<T>
    requires |flags| == |xs|
  {
    if xs == [] then Slot(false, 0, seed) else
    var n := |xs| - 1;
    Flushing(Act(Play(xs[..n], flags[..n], seed, cap), xs[n], cap), xs[n], flags[n])
  }

  /** Some flags leave a value pending. */
  predicate Pendable<T>(xs: seq<Sight<T>>, cap: nat) {
    xs != [] &&
    match xs[|xs| - 1].move
    case Force => false
    case Patch => cap > 1
    case Other => Pendable(xs[..|xs| - 1], cap)
  }

  /** What handing over the value at this point leaves: itself if it is taken, else what was there. */
  predicate Handed<T(==)>(xs: seq<Sight<T>>, v: T, seed: Option<T>, cap: nat)
    requires xs != []
    decreases |xs|, 0
  {
    if xs[|xs| - 1].ok then xs[|xs| - 1].value == v else Stays(xs[..|xs| - 1], v, 0, seed, cap)
  }

  /** The slot holds v wherever flushes fall, as far as n more patches would not fill it up. */
  predicate Stays<T(==)>(xs: seq<Sight<T>>, v: T, n: nat, seed: Option<T>, cap: nat)
    decreases |xs|, 1
  {
    if xs == [] then seed == Some(v) else
    var front := xs[..|xs| - 1];
    match xs[|xs| - 1].move
    case Force => Handed(xs, v, seed, cap)
    case Patch => (n + 1 < cap ==> Stays(front, v, n + 1, seed, cap)) && Handed(xs, v, seed, cap)
    case Other => Stays(front, v, n, seed, cap) && (Pendable(front, cap) ==> Handed(xs, v, seed, cap))
  }

  lemma {:induction false} Counted<T>(xs: seq<Sight<T>>, flags: seq<bool>, seed: Option<T>, cap: nat)
    requires |flags| == |xs| && cap >= 1
    ensures var b := Play(xs, flags, seed, cap);
            b.count < cap && (!b.pending ==> b.count == 0) && (b.pending ==> Pendable(xs, cap))
  {
    if xs != [] {
      Counted(xs[..|xs| - 1], flags[..|xs| - 1], seed, cap);
    }
  }

  lemma {:induction false} StaysHolds<T>(xs: seq<Sight<T>>, flags: seq<bool>, v: T, n: nat, seed: Option<T>, cap: nat)
    requires |flags| == |xs| && cap >= 1
    requires Stays(xs, v, n, seed, cap) && Play(xs, flags, seed, cap).count + n < cap
    ensures Play(xs, flags, seed, cap).held == Some(v)
  {
    if xs != [] {
      var k := |xs| - 1;
      var front, fs, x := xs[..k], flags[..k], xs[k];
      var b := Play(front, fs, seed, cap);
      Counted(front, fs, seed, cap);
      if !x.ok && Stays(front, v, 0, seed, cap) {
        StaysHolds(front, fs, v, 0, seed, cap);
      }
      if x.move.Patch? && b.count + 1 + n < cap {
        StaysHolds(front, fs, v, n + 1, seed, cap);
      } else if x.move.Other? && b.count + n < cap {
        StaysHolds(front, fs, v, n, seed, cap);
      }
    }
  }

  ghost predicate AllHold<T(!new)>(xs: seq<Sight<T>>, v: T, n: nat, seed: Option<T>, cap: nat) {
    forall flags | |flags| == |xs| :: HoldsWith(xs, flags, v, n, seed, cap)
  }
  ghost predicate HoldsWith<T>(xs: seq<Sight<T>>, flags: seq<bool>, v: T, n: nat, seed: Option<T>, cap: nat)
    requires |flags| == |xs|
  {
    Play(xs, flags, seed, cap).count + n < cap ==> Play(xs, flags, seed, cap).held == Some(v)
  }

  lemma PlayMore<T>(front: seq<Sight<T>>, x: Sight<T>, fs: seq<bool>, f: bool, seed: Option<T>, cap: nat)
    requires |fs| == |front|
    ensures Play(front + [x], fs + [f], seed, cap) == Flushing(Act(Play(front, fs, seed, cap), x, cap), x, f)
  {
    assert (front + [x])[..|front|] == front && (fs + [f])[..|fs|] == fs;
  }

  /** Flags that leave a value pending. */
  lemma {:induction false} Pend<T>(xs: seq<Sight<T>>, seed: Option<T>, cap: nat) returns (flags: seq<bool>)
    requires Pendable(xs, cap)
    ensures |flags| == |xs| && Play(xs, flags, seed, cap).pending
  {
    var k := |xs| - 1;
    var front, x := xs[..k], xs[k];
    assert xs == front + [x];
    if x.move.Other? {
      var fs := Pend(front, seed, cap);
      PlayMore(front, x, fs, false, seed, cap);
      flags := fs + [false];
    } else {
      var fs := Empty(front, seed, cap);
      PlayMore(front, x, fs, false, seed, cap);
      flags := fs + [false];
    }
  }

  /** Flags that leave nothing pending. */
  lemma {:induction false} Empty<T>(xs: seq<Sight<T>>, seed: Option<T>, cap: nat) returns (flags: seq<bool>)
    ensures |flags| == |xs| && !Play(xs, flags, seed, cap).pending && Play(xs, flags, seed, cap).count == 0
  {
    if xs == [] {
      flags := [];
    } else {
      var k := |xs| - 1;
      var fs := Empty(xs[..k], seed, cap);
      assert xs == xs[..k] + [xs[k]];
      PlayMore(xs[..k], xs[k], fs, true, seed, cap);
      flags := fs + [true];
    }
  }

  /** Every play of the front, followed by x and perhaps a flush, is a play. */
  lemma OneMore<T(!new)>(front: seq<Sight<T>>, x: Sight<T>, fs: seq<bool>, f: bool, v: T, n: nat, seed: Option<T>, cap: nat)
    requires |fs| == |front| && AllHold(front + [x], v, n, seed, cap)
    ensures var b := Flushing(Act(Play(front, fs, seed, cap), x, cap), x, f); b.count + n < cap ==> b.held == Some(v)
  {
    PlayMore(front, x, fs, f, seed, cap);
    assert HoldsWith(front + [x], fs + [f], v, n, seed, cap);
  }

  /** Handing over is possible at the end of some play, and then of every play that matters. */
  lemma HandedNeeded<T(!new)>(front: seq<Sight<T>>, x: Sight<T>, v: T, n: nat, seed: Option<T>, cap: nat)
    requires AllHold(front + [x], v, n, seed, cap) && n < cap && (!x.move.Other? || Pendable(front, cap))
    ensures if x.ok then x.value == v else AllHold(front, v, 0, seed, cap)
  {
    if x.ok {
      var fs;
      if x.move.Other? {
        fs := Pend(front, seed, cap);
      } else {
        fs := Empty(front, seed, cap);
      }
      OneMore(front, x, fs, true, v, n, seed, cap);
    } else {
      forall fs: seq<bool> | |fs| == |front| ensures HoldsWith(front, fs, v, 0, seed, cap) {
        Counted(front, fs, seed, cap);
        OneMore(front, x, fs, true, v, n, seed, cap);
      }
    }
  }

  lemma {:induction false} HoldsStays<T(!new)>(xs: seq<Sight<T>>, v: T, n: nat, seed: Option<T>, cap: nat)
    requires AllHold(xs, v, n, seed, cap) && n < cap
    ensures Stays(xs, v, n, seed, cap)
  {
    if xs == [] {
      assert HoldsWith(xs, [], v, n, seed, cap);
    } else {
      var k := |xs| - 1;
      var front, x := xs[..k], xs[k];
      assert xs == front + [x];
      if !x.move.Other? || Pendable(front, cap) {
        HandedNeeded(front, x, v, n, seed, cap);
        if !x.ok {
          HoldsStays(front, v, 0, seed, cap);
        }
      }
      var m := if x.move.Patch? then n + 1 else n;
      if !x.move.Force? && m < cap {
        forall fs: seq<bool> | |fs| == |front| ensures HoldsWith(front, fs, v, m, seed, cap) {
          OneMore(front, x, fs, false, v, n, seed, cap);
        }
        HoldsStays(front, v, m, seed, cap);
      }
    }
  }

  /** The slot ends with v wherever flushes fall if and only if v stays, which the events alone
      decide. */
  lemma StaysExact<T(!new)>(xs: seq<Sight<T>>, v: T, seed: Option<T>, cap: nat)
    requires cap >= 1
    ensures (forall flags: seq<bool> | |flags| == |xs| :: Play(xs, flags, seed, cap).held == Some(v)) <==> Stays(xs, v, 0, seed, cap)
  {
    forall flags: seq<bool> | |flags| == |xs| ensures Play(xs, flags, seed, cap).count < cap {
      Counted(xs, flags, seed, cap);
    }
    if Stays(xs, v, 0, seed, cap) {
      forall flags: seq<bool> | |flags| == |xs| ensures Play(xs, flags, seed, cap).held == Some(v) {
        StaysHolds(xs, flags, v, 0, seed, cap);
      }
    }
    if forall flags: seq<bool> | |flags| == |xs| :: Play(xs, flags, seed, cap).held == Some(v) {
      forall flags: seq<bool> | |flags| == |xs| ensures HoldsWith(xs, flags, v, 0, seed, cap) {
      }
      HoldsStays(xs, v, 0, seed, cap);
    }
  }
}
