/** The two processes of the roster protocol as the objects they are: the core's server
    (core/internal/edge/server.go) and the edge's feed (edge/src/GexEdge/TwsFeed.cs).  Each
    operation takes every world that agrees with the object's fields to the world of the
    protocol step, so what is proved of runs in `SweepProtocol` is proved of these. */
module SweepActors {
  import opened Common
  import opened SweepPolicy
  import opened SweepProtocol

  class RosterServer {
    var roster: seq<string>
    var linked: bool
    var toEdge: seq<seq<string>>
    ghost var synced: bool

    ghost predicate Is(w: World)
      reads this
    {
      roster == w.roster && linked == w.linked && toEdge == w.toEdge && synced == w.synced
    }

    constructor ()
      ensures Is(BOOT)
    {
      roster, linked, toEdge, synced := [], false, [], false;
    }

    /** Install a roster and push the whole of it. */
    method PushSweeps(r: seq<string>, ghost w: World)
      requires Is(w)
      modifies this
      ensures Is(Push(w, r))
    {
      roster := r;
      if linked {
        toEdge, synced := toEdge + [r], true;
      }
    }

    /** Replace the roster: refused over the cap, or while a ticker's window is shut. */
    method SetSweeps(tickers: seq<string>, now: Instant, ghost w: World) returns (refused: bool)
      requires Is(w)
      modifies this
      ensures Is(OnSetSweeps(w, tickers, now))
      ensures refused <==> |Distinct(tickers)| > MAX_TICKERS || exists t :: t in Distinct(tickers) && !Allowed(t, now)
      ensures !refused ==> roster == Distinct(tickers)
    {
      var valid := ValidateRoster(tickers);
      if valid.None? {
        return true;
      }
      var r := valid.value;
      for i := 0 to |r|
        invariant forall j :: 0 <= j < i ==> Allowed(r[j], now)
      {
        if !Allowed(r[i], now) {
          assert r[i] in r;
          return true;
        }
      }
      PushSweeps(r, w);
      return false;
    }

    /** The entries that `drop` does not name, and whether there were others. */
    method Keep(drop: string -> bool) returns (kept: seq<string>, dropped: bool)
      ensures kept == Without(roster, drop) && (dropped <==> exists t :: t in roster && drop(t))
    {
      kept, dropped := [], false;
      for i := 0 to |roster|
        invariant kept == Without(roster[..i], drop) && (dropped <==> exists t :: t in roster[..i] && drop(t))
      {
        assert roster[..i + 1] == roster[..i] + [roster[i]];
        if drop(roster[i]) {
          assert roster[i] in roster[..i + 1];
          dropped := true;
        } else {
          kept := kept + [roster[i]];
        }
      }
      assert roster[..|roster|] == roster;
    }

    method SweepDone(done: Done, ghost w: World)
      requires Is(w)
      modifies this
      ensures Is(OnSweepDone(w, done))
    {
      var drop := (t: string) => t == done.ticker;
      var kept, dropped := Keep(drop);
      SameKept(roster, drop, t => t == done.ticker);
      if dropped {
        PushSweeps(kept, w);
      }
    }

    method EnforceWindows(now: Instant, ghost w: World)
      requires Is(w)
      modifies this
      ensures Is(OnEnforce(w, now))
    {
      var drop := (t: string) => !Allowed(t, now);
      var kept, cleared := Keep(drop);
      SameKept(roster, drop, t => !Allowed(t, now));
      if cleared {
        PushSweeps(kept, w);
      }
    }

    /** Every hello is answered with the current roster, the empty one included. */
    method Hello(ghost w: World)
      requires Is(w)
      modifies this
      ensures Is(Next(w, Step.Hello))
    {
      if linked {
        PushSweeps(roster, w);
      }
    }
  }

  lemma {:induction false} SameKept(r: seq<string>, p: string -> bool, q: string -> bool)
    requires forall t :: p(t) == q(t)
    ensures Without(r, p) == Without(r, q)
  {
    if r != [] {
      SameKept(r[..|r| - 1], p, q);
    }
  }

  /** The reports of aborted passes. */
  ghost function Aborts(gone: set<string>): multiset<Done> { multiset(set t | t in gone :: Done(t, false)) }

  lemma OneMoreAbort(gone: set<string>, t: string)
    requires t !in gone
    ensures Aborts(gone + {t}) == Aborts(gone) + multiset{Done(t, false)}
  {
    var a, b := set x | x in gone :: Done(x, false), set x | x in gone + {t} :: Done(x, false);
    assert b == a + {Done(t, false)};
  }

  class EdgeFeed {
    var passes: map<string, nat>
    var tasks: map<nat, string>
    var nextToken: nat
    var reports: multiset<Done>
    ghost var delivered: seq<string>

    ghost predicate Is(w: World)
      reads this
    {
      passes == w.passes && tasks == w.tasks && nextToken == w.nextToken && reports == w.toCore && delivered == w.delivered
    }

    constructor ()
      ensures Is(BOOT)
    {
      passes, tasks, nextToken, reports, delivered := map[], map[], 0, multiset{}, [];
    }

    /** Take down one registration and report the abort. */
    method CancelPass(t: string, ghost gone: set<string>, ghost w: World)
      requires passes == w.passes - gone && reports == w.toCore + Aborts(gone) && t !in gone
      modifies `passes, `reports
      ensures passes == w.passes - (gone + {t}) && reports == w.toCore + Aborts(gone + {t})
    {
      OneMoreAbort(gone, t);
      passes, reports := passes - {t}, reports + multiset{Done(t, false)};
      assert passes == w.passes - (gone + {t});
    }

    /** Abort every pass the push does not list. */
    method CancelUnlistedPasses(wanted: seq<string>, ghost w: World)
      requires Is(w)
      modifies `passes, `reports
      ensures Is(CancelUnlisted(w, wanted))
    {
      var keys := passes.Keys;
      ghost var gone: set<string> := {};
      while keys != {}
        invariant keys <= w.passes.Keys && gone == set t | t in w.passes && t !in keys && t !in wanted
        invariant passes == w.passes - gone && reports == w.toCore + Aborts(gone)
        decreases |keys|
      {
        var t :| t in keys;
        if t !in wanted {
          CancelPass(t, gone, w);
          gone := gone + {t};
        }
        keys := keys - {t};
      }
      assert gone == set t | t in w.passes && t !in wanted;
    }

    /** Register one pass per listed ticker that has none. */
    method StartListed(wanted: seq<string>, ghost w: World)
      requires Is(w)
      modifies `passes, `tasks, `nextToken
      ensures Is(StartAll(w, wanted))
    {
      for i := 0 to |wanted|
        invariant Is(StartAll(w, wanted[..i]))
      {
        assert wanted[..i + 1][..i] == wanted[..i];
        if wanted[i] !in passes {
          passes, tasks, nextToken := passes[wanted[i] := nextToken], tasks[nextToken := wanted[i]], nextToken + 1;
        }
      }
      assert wanted[..|wanted|] == wanted;
    }

    method OnCoreSweepSet(push: seq<string>, ghost w: World)
      requires Is(w)
      modifies this
      ensures Is(OnSweepSet(w, push))
    {
      var wanted := Clamp(push);
      CancelUnlistedPasses(wanted, w);
      StartListed(wanted, CancelUnlisted(w, wanted));
      delivered := wanted;
    }

    /** The end of a pass: it takes down its own registration and no other. */
    method FinishPass(token: nat, report: Option<bool>, ghost w: World)
      requires Is(w) && token in tasks
      modifies `passes, `tasks, `reports
      ensures Is(OnFinish(w, token, report))
    {
      var t := tasks[token];
      if t in passes && passes[t] == token {
        passes := passes - {t};
      }
      tasks := tasks - {token};
      if report.Some? {
        reports := reports + multiset{Done(t, report.value)};
      }
    }
  }
}
