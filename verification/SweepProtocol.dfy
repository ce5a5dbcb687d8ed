/** The sweep roster protocol between the core (core/internal/edge/server.go) and the edge
    (edge/src/GexEdge/TwsFeed.cs).  The core owns the roster and pushes the whole of it on
    every change and after every hello; the edge runs one pass per ticker of the last push.
    Each core operation is one step together with its push; the connection to the edge is
    FIFO, and reports back to the core arrive in any order or are lost. */
module SweepProtocol {
  import opened Common
  import opened SweepPolicy

  datatype Done = Done(ticker: string, ok: bool)

  /** passes is the edge's registration table: ticker -> token of its pass.  tasks are the
      passes still executing, registered or already aborted.  synced: the roster has been
      pushed on the current connection.  delivered is the last push the edge acted on. */
  datatype World = World(
    roster: seq<string>, linked: bool, synced: bool, toEdge: seq<seq<string>>,
    delivered: seq<string>, passes: map<string, nat>, tasks: map<nat, string>, nextToken: nat,
    toCore: multiset<Done>)

  datatype Step =
    | SetSweeps(tickers: seq<string>, now: Instant)
    | Report(done: Done)              // a sweep_done reaches the core
    | LoseReport(done: Done)
    | Enforce(now: Instant)
    | Accept                          // a new connection, before its hello
    | Hello
    | Disconnect
    | CoreRestart
    | EdgeRestart
    | DeliverPush
    | Finish(token: nat, report: Option<bool>)

  function SetOf(r: seq<string>): set<string> { set t | t in r }

  function Without(r: seq<string>, drop: string -> bool): seq<string> {
    if r == [] then [] else
    Without(r[..|r| - 1], drop) + (if drop(r[|r| - 1]) then [] else [r[|r| - 1]])
  }

  // ---------------------------------------------------------------- the core

  /** Install a roster and push it to the edge if there is one. */
  function Push(w: World, roster: seq<string>): World {
    if w.linked then w.(roster := roster, toEdge := w.toEdge + [roster], synced := true)
    else w.(roster := roster)
  }

  function OnSetSweeps(w: World, tickers: seq<string>, now: Instant): World {
    match Validated(tickers)
    case None => w
    case Some(r) => if forall t :: t in r ==> Allowed(t, now) then Push(w, r) else w
  }

  /** `onSweepDone`: the ticker leaves the roster; a report for a ticker not in it does nothing. */
  function OnSweepDone(w: World, done: Done): World {
    if done.ticker in w.roster then Push(w, Without(w.roster, t => t == done.ticker)) else w
  }

  function OnEnforce(w: World, now: Instant): World {
    if exists t :: t in w.roster && !Allowed(t, now)
    then Push(w, Without(w.roster, t => !Allowed(t, now))) else w
  }

  // ---------------------------------------------------------------- the edge

  /** Register a pass for every wanted ticker that has none. */
  function StartAll(w: World, wanted: seq<string>): World {
    if wanted == [] then w else
    StartOne(StartAll(w, wanted[..|wanted| - 1]), wanted[|wanted| - 1])
  }

  function StartOne(w: World, t: string): World {
    if t in w.passes then w else
    w.(passes := w.passes[t := w.nextToken], tasks := w.tasks[w.nextToken := t], nextToken := w.nextToken + 1)
  }

  /** `CancelPass` for every registration the push does not list: each reports an abort. */
  function CancelUnlisted(w: World, wanted: seq<string>): World {
    var gone := set t | t in w.passes && t !in wanted;
    w.(passes := w.passes - gone, toCore := w.toCore + multiset(set t | t in gone :: Done(t, false)))
  }

  function OnSweepSet(w: World, push: seq<string>): World {
    var wanted := Normalize(push);
    StartAll(CancelUnlisted(w, wanted), wanted).(delivered := wanted)
  }

  /** The end of `PassOnceAsync`: remove only its own registration. */
  function OnFinish(w: World, token: nat, report: Option<bool>): World {
    if token !in w.tasks then w else
    var t := w.tasks[token];
    w.(passes := if t in w.passes && w.passes[t] == token then w.passes - {t} else w.passes,
       tasks := w.tasks - {token},
       toCore := w.toCore + match report case None => multiset{} case Some(ok) => multiset{Done(t, ok)})
  }

  // ---------------------------------------------------------------- runs

  function Next(w: World, step: Step): World {
    match step
    case SetSweeps(tickers, now) => OnSetSweeps(w, tickers, now)
    case Report(done) => if done in w.toCore then OnSweepDone(w.(toCore := w.toCore - multiset{done}), done) else w
    case LoseReport(done) => w.(toCore := w.toCore - multiset{done})
    case Enforce(now) => OnEnforce(w, now)
    case Accept => w.(linked := true, synced := false, toEdge := [])
    case Hello => if w.linked then Push(w, w.roster) else w
    case Disconnect => w.(linked := false, synced := false, toEdge := [])
    case CoreRestart => w.(roster := [], linked := false, synced := false, toEdge := [])
    case EdgeRestart =>
      w.(passes := map[], tasks := map[], delivered := [], linked := false, synced := false, toEdge := [])
    case DeliverPush => if w.toEdge == [] then w else OnSweepSet(w.(toEdge := w.toEdge[1..]), w.toEdge[0])
    case Finish(token, report) => OnFinish(w, token, report)
  }

  function Run(w: World, steps: seq<Step>): World {
    if steps == [] then w else Next(Run(w, steps[..|steps| - 1]), steps[|steps| - 1])
  }

  const BOOT := World([], false, false, [], [], map[], map[], 0, multiset{})

  // ---------------------------------------------------------------- the invariant

  ghost predicate Registered(w: World) {
    && (forall t :: t in w.passes ==> w.passes[t] in w.tasks && w.tasks[w.passes[t]] == t)
    && (forall k :: k in w.tasks ==> k < w.nextToken)
  }

  /** The newest roster on its way to the edge, or the one it holds. */
  function Newest(w: World): seq<string> {
    if w.toEdge == [] then w.delivered else w.toEdge[|w.toEdge| - 1]
  }

  ghost predicate Inv(w: World) {
    && Normalized(w.roster) && Normalized(w.delivered)
    && (forall i :: 0 <= i < |w.toEdge| ==> Normalized(w.toEdge[i]))
    && w.passes.Keys <= SetOf(w.delivered)
    && Registered(w)
    && (w.synced ==> w.linked && Newest(w) == w.roster)
  }

  lemma {:induction false} WithoutKeeps(r: seq<string>, drop: string -> bool)
    ensures forall t :: t in Without(r, drop) <==> t in r && !drop(t)
    ensures |Without(r, drop)| <= |r|
  {
    if r != [] {
      var n := |r| - 1;
      WithoutKeeps(r[..n], drop);
      assert r == r[..n] + [r[n]];
    }
  }

  lemma {:induction false} WithoutNormalized(r: seq<string>, drop: string -> bool)
    requires CanonAndDistinct(r)
    ensures CanonAndDistinct(Without(r, drop))
  {
    if r != [] {
      var n := |r| - 1;
      SplitDistinct(r);
      WithoutNormalized(r[..n], drop);
      WithoutKeeps(r[..n], drop);
      if !drop(r[n]) {
        AppendDistinct(Without(r[..n], drop), r[n]);
      }
    }
  }

  lemma SplitDistinct(r: seq<string>)
    requires CanonAndDistinct(r) && r != []
    ensures CanonAndDistinct(r[..|r| - 1]) && IsCanon(r[|r| - 1]) && r[|r| - 1] !in r[..|r| - 1]
  {
  }

  lemma AppendDistinct(r: seq<string>, t: string)
    requires CanonAndDistinct(r) && IsCanon(t) && t !in r
    ensures CanonAndDistinct(r + [t])
  {
  }

  lemma RosterShrinks(w: World, drop: string -> bool)
    requires Inv(w)
    ensures Inv(Push(w, Without(w.roster, drop)))
  {
    WithoutKeeps(w.roster, drop);
    WithoutNormalized(w.roster, drop);
    PushKeeps(w, Without(w.roster, drop));
  }

  lemma PushKeeps(w: World, roster: seq<string>)
    requires Inv(w) && Normalized(roster)
    ensures Inv(Push(w, roster)) && Push(w, roster).roster == roster
  {
  }

  lemma StartOneRegisters(w: World, t: string)
    requires Registered(w)
    ensures Registered(StartOne(w, t)) && StartOne(w, t).passes.Keys == w.passes.Keys + {t}
    ensures forall u :: u in w.passes ==> StartOne(w, t).passes[u] == w.passes[u]
  {
  }

  lemma {:induction false} StartAllRegisters(w: World, wanted: seq<string>)
    requires Registered(w)
    ensures var w' := StartAll(w, wanted);
            && Registered(w') && w'.passes.Keys == w.passes.Keys + SetOf(wanted)
            && (forall t :: t in w.passes ==> w'.passes[t] == w.passes[t])
            && w' == w.(passes := w'.passes, tasks := w'.tasks, nextToken := w'.nextToken)
  {
    if wanted != [] {
      var n := |wanted| - 1;
      StartAllRegisters(w, wanted[..n]);
      StartOneRegisters(StartAll(w, wanted[..n]), wanted[n]);
      assert SetOf(wanted) == SetOf(wanted[..n]) + {wanted[n]} by { assert wanted == wanted[..n] + [wanted[n]]; }
    }
  }

  /** After a push the edge runs exactly one pass per listed ticker, keeping those it had. */
  lemma PushStartsExactly(w: World, push: seq<string>)
    requires Registered(w)
    ensures var w' := OnSweepSet(w, push);
            && Registered(w') && w'.passes.Keys == SetOf(Normalize(push))
            && (forall t :: t in w.passes && t in Normalize(push) ==> w'.passes[t] == w.passes[t])
            && w'.roster == w.roster && w'.toEdge == w.toEdge && w'.linked == w.linked && w'.synced == w.synced
  {
    var wanted := Normalize(push);
    StartAllRegisters(CancelUnlisted(w, wanted), wanted);
  }

  lemma {:induction false} StartAllFresh(w: World, wanted: seq<string>)
    requires Registered(w)
    ensures var w' := StartAll(w, wanted);
            && w'.nextToken >= w.nextToken
            && (forall k :: k in w.tasks ==> k in w'.tasks && w'.tasks[k] == w.tasks[k])
            && (forall t :: t in w'.passes && t !in w.passes ==> w.nextToken <= w'.passes[t] < w'.nextToken)
  {
    if wanted != [] {
      var n := |wanted| - 1;
      StartAllFresh(w, wanted[..n]);
      StartAllRegisters(w, wanted[..n]);
    }
  }

  /** ... a listed ticker that had none gets a new pass, no running task is forgotten, and every pass
      that is not listed reports once that it was aborted. */
  lemma PushStartsAnew(w: World, push: seq<string>)
    requires Registered(w)
    ensures var w', gone := OnSweepSet(w, push), set t | t in w.passes && t !in Normalize(push);
            && (forall t :: t in Normalize(push) && t !in w.passes ==> t in w'.passes && w'.passes[t] !in w.tasks && w'.passes[t] in w'.tasks)
            && (forall k :: k in w.tasks ==> k in w'.tasks && w'.tasks[k] == w.tasks[k])
            && (forall d :: w'.toCore[d] == w.toCore[d] + if d.ticker in gone && !d.ok then 1 else 0)
  {
    var wanted := Normalize(push);
    var w1 := CancelUnlisted(w, wanted);
    StartAllFresh(w1, wanted);
    StartAllRegisters(w1, wanted);
    PushStartsExactly(w, push);
    var gone := set t | t in w.passes && t !in wanted;
    forall d ensures w1.toCore[d] == w.toCore[d] + if d.ticker in gone && !d.ok then 1 else 0 {
      assert d in (set t | t in gone :: Done(t, false)) <==> d.ticker in gone && !d.ok;
    }
  }

  lemma DeliverKeeps(w: World)
    requires Inv(w)
    ensures Inv(Next(w, DeliverPush))
  {
    if w.toEdge != [] {
      var push := w.toEdge[0];
      PushStartsExactly(w.(toEdge := w.toEdge[1..]), push);
      ClampFixedPoint(push);
    }
  }

  lemma CoreKeeps(w: World, step: Step)
    requires Inv(w) && (step.SetSweeps? || step.Report? || step.Enforce?)
    ensures Inv(Next(w, step))
  {
    match step
    case SetSweeps(tickers, now) =>
      ClampFixedPoint(tickers);
      if Validated(tickers).Some? {
        PushKeeps(w, Validated(tickers).value);
      }
    case Report(done) =>
      RosterShrinks(w.(toCore := w.toCore - multiset{done}), t => t == done.ticker);
    case Enforce(now) =>
      RosterShrinks(w, t => !Allowed(t, now));
  }

  lemma FinishKeeps(w: World, token: nat, report: Option<bool>)
    requires Inv(w)
    ensures Inv(OnFinish(w, token, report))
  {
    FinishRegisters(w, token, report);
  }

  lemma FinishRegisters(w: World, token: nat, report: Option<bool>)
    requires Registered(w)
    ensures Registered(OnFinish(w, token, report)) && OnFinish(w, token, report).passes.Keys <= w.passes.Keys
  {
    var w' := OnFinish(w, token, report);
    forall t | t in w'.passes ensures w'.passes[t] in w'.tasks && w'.tasks[w'.passes[t]] == t {
      assert t in w.passes && w'.passes[t] == w.passes[t];
    }
  }

  /** Every step keeps the invariant. */
  lemma StepKeeps(w: World, step: Step)
    requires Inv(w)
    ensures Inv(Next(w, step))
  {
    match step
    case SetSweeps(_, _) => CoreKeeps(w, step);
    case Report(_) => CoreKeeps(w, step);
    case Enforce(_) => CoreKeeps(w, step);
    case Hello => PushKeeps(w, w.roster);
    case DeliverPush => DeliverKeeps(w);
    case Finish(token, report) => FinishKeeps(w, token, report);
    case _ =>
  }

  lemma {:induction false} RunKeeps(steps: seq<Step>)
    ensures Inv(Run(BOOT, steps))
  {
    if steps != [] {
      RunKeeps(steps[..|steps| - 1]);
      StepKeeps(Run(BOOT, steps[..|steps| - 1]), steps[|steps| - 1]);
    }
  }

  // ---------------------------------------------------------------- the promises

  lemma SetSize(r: seq<string>)
    requires |r| <= MAX_TICKERS
    ensures |SetOf(r)| <= MAX_TICKERS
  {
    if |r| == 1 {
      assert SetOf(r) == {r[0]};
    } else if |r| == 2 {
      assert SetOf(r) == {r[0], r[1]};
    } else {
      assert SetOf(r) == {};
    }
  }

  /** In every run: the roster is normalised and has at most two entries, and so many passes
      at most are registered, all for tickers of the last push delivered.  Once everything
      pushed on a connection has been delivered, that is the core's own roster. */
  lemma EdgeFollowsCore(steps: seq<Step>)
    ensures var w := Run(BOOT, steps);
            && Normalized(w.roster) && |w.passes.Keys| <= MAX_TICKERS
            && w.passes.Keys <= SetOf(w.delivered)
            && (w.synced && w.toEdge == [] ==> w.delivered == w.roster && w.passes.Keys <= SetOf(w.roster))
  {
    RunKeeps(steps);
    var w := Run(BOOT, steps);
    SetSize(w.delivered);
    SubsetSize(w.passes.Keys, SetOf(w.delivered));
  }

  /** Only a click adds to the roster; the sticky shutoff leaves nothing outside its window. */
  lemma RosterGrowsOnlyByClick(w: World, step: Step)
    ensures !step.SetSweeps? ==> SetOf(Next(w, step).roster) <= SetOf(w.roster)
    ensures step.SetSweeps? && Next(w, step).roster != w.roster ==>
              forall t :: t in Next(w, step).roster ==> Allowed(t, step.now)
    ensures step.Enforce? ==> forall t :: t in Next(w, step).roster <==> t in w.roster && Allowed(t, step.now)
  {
    match step
    case Report(done) => WithoutKeeps(w.roster, t => t == done.ticker);
    case Enforce(now) => WithoutKeeps(w.roster, t => !Allowed(t, now));
    case DeliverPush => if w.toEdge != [] { DeliverOnlyEdge(w); }
    case _ =>
  }

  /** What each step does to the roster: a click replaces it by the tickers named, or is refused over the
      cap or outside a window; a report takes its ticker out; the shutoff takes out those outside
      their window; a restart of the core empties it; nothing else touches it.  A report arrives or is
      lost once. */
  lemma RosterExact(w: World, step: Step)
    requires Inv(w)
    ensures var r, r' := w.roster, Next(w, step).roster;
            match step
            case SetSweeps(tickers, now) =>
              r' == if |Distinct(tickers)| <= 2 && (forall t :: t in Distinct(tickers) ==> Allowed(t, now)) then Distinct(tickers) else r
            case Report(done) => forall t :: t in r' <==> t in r && (done in w.toCore ==> t != done.ticker)
            case Enforce(now) => forall t :: t in r' <==> t in r && Allowed(t, now)
            case CoreRestart => r' == []
            case _ => r' == r
    ensures Next(w, step).roster != w.roster && !step.CoreRestart? && w.linked ==>
              Next(w, step).toEdge == w.toEdge + [Next(w, step).roster]
    ensures step.Report? || step.LoseReport? ==> Next(w, step).toCore == w.toCore - multiset{step.done}
  {
    match step
    case Report(done) => WithoutKeeps(w.roster, t => t == done.ticker);
    case Enforce(now) => WithoutKeeps(w.roster, t => !Allowed(t, now));
    case DeliverPush => if w.toEdge != [] { DeliverOnlyEdge(w); }
    case _ =>
  }

  /** What the end of a pass does: the pass is over, its own registration goes and no other, and the
      report it makes, if it makes one, is on its way. */
  lemma FinishExact(w: World, token: nat, report: Option<bool>)
    requires Inv(w) && token in w.tasks
    ensures var w', t := OnFinish(w, token, report), w.tasks[token];
            && w'.tasks == w.tasks - {token}
            && (forall u :: u in w'.passes <==> u in w.passes && w.passes[u] != token)
            && (forall u :: u in w'.passes ==> w'.passes[u] == w.passes[u])
            && w'.toCore == w.toCore + match report case None => multiset{} case Some(ok) => multiset{Done(t, ok)}
  {
  }

  lemma DeliverOnlyEdge(w: World)
    requires w.toEdge != []
    ensures Next(w, DeliverPush).roster == w.roster && Next(w, DeliverPush).toEdge == w.toEdge[1..]
  {
    var wanted := Normalize(w.toEdge[0]);
    StartAllOnlyEdge(CancelUnlisted(w.(toEdge := w.toEdge[1..]), wanted), wanted);
  }

  lemma {:induction false} StartAllOnlyEdge(w: World, wanted: seq<string>)
    ensures StartAll(w, wanted).roster == w.roster && StartAll(w, wanted).toEdge == w.toEdge
  {
    if wanted != [] {
      StartAllOnlyEdge(w, wanted[..|wanted| - 1]);
    }
  }

  /** A pass that finishes late, after its registration was replaced, changes no registration
      but its own. */
  lemma LateFinishHarmless(w: World, token: nat, report: Option<bool>, t: string)
    requires t in w.passes && w.passes[t] != token
    ensures t in OnFinish(w, token, report).passes && OnFinish(w, token, report).passes[t] == w.passes[t]
  {
    if token in w.tasks && w.tasks[token] in w.passes && w.passes[w.tasks[token]] == token {
      assert w.tasks[token] != t;
    }
  }

  /** t can still lead to a pass. */
  ghost predicate Armed(w: World, t: string) {
    t in w.roster || t in w.delivered || exists i :: 0 <= i < |w.toEdge| && t in w.toEdge[i]
  }

  /** A click on t, at an instant its window was open. */
  ghost predicate ClickOn(step: Step, t: string) {
    step.SetSweeps? && t in Distinct(step.tickers) && Allowed(t, step.now)
  }

  /** After a restart of the edge nothing runs, and only what is in the core's roster can lead to a
      pass; after one of the core, only what is still with the edge.  A connection that ends or is
      replaced loses what was on its way. */
  lemma RestartArms(w: World, step: Step, t: string)
    ensures Armed(Next(w, EdgeRestart), t) <==> t in w.roster
    ensures Next(w, EdgeRestart).passes == map[] && Next(w, EdgeRestart).tasks == map[]
    ensures Armed(Next(w, CoreRestart), t) <==> t in w.delivered
    ensures Next(w, CoreRestart).passes == w.passes && Next(w, CoreRestart).tasks == w.tasks
    ensures step == Accept || step == Disconnect ==>
              (Armed(Next(w, step), t) <==> t in w.roster || t in w.delivered) && Next(w, step).passes == w.passes
  {
  }

  lemma PushArms(w: World, roster: seq<string>, t: string)
    ensures Armed(Push(w, roster), t) ==> Armed(w, t) || t in roster
  {
  }

  lemma DeliverArms(w: World, t: string)
    requires Inv(w) && w.toEdge != [] && Armed(Next(w, DeliverPush), t)
    ensures Armed(w, t)
  {
    var w' := w.(toEdge := w.toEdge[1..]);
    DeliverOnlyEdge(w);
    ClampFixedPoint(w.toEdge[0]);
    assert forall i :: 0 <= i < |w'.toEdge| ==> w'.toEdge[i] == w.toEdge[i + 1];
  }

  lemma StepArms(w: World, step: Step, t: string)
    requires Inv(w) && Armed(Next(w, step), t)
    ensures Armed(w, t) || ClickOn(step, t)
  {
    match step
    case SetSweeps(tickers, now) => PushArms(w, Distinct(tickers), t);
    case Report(done) =>
      WithoutKeeps(w.roster, x => x == done.ticker);
      PushArms(w.(toCore := w.toCore - multiset{done}), Without(w.roster, x => x == done.ticker), t);
    case Enforce(now) =>
      WithoutKeeps(w.roster, x => !Allowed(x, now));
      PushArms(w, Without(w.roster, x => !Allowed(x, now)), t);
    case Hello => PushArms(w, w.roster, t);
    case DeliverPush => if w.toEdge != [] { DeliverArms(w, t); }
    case _ =>
  }

  /** No pass without a click: in every run, each registered pass is for a ticker that was
      clicked earlier in that run, inside its window. */
  lemma {:induction false} NoPassWithoutClick(steps: seq<Step>, t: string)
    requires Armed(Run(BOOT, steps), t) || t in Run(BOOT, steps).passes
    ensures exists i :: 0 <= i < |steps| && ClickOn(steps[i], t)
  {
    RunKeeps(steps);
    if steps != [] {
      var n := |steps| - 1;
      RunKeeps(steps[..n]);
      StepArms(Run(BOOT, steps[..n]), steps[n], t);
      if !ClickOn(steps[n], t) {
        NoPassWithoutClick(steps[..n], t);
        var i :| 0 <= i < n && ClickOn(steps[..n][i], t);
        assert ClickOn(steps[i], t);
      }
    }
  }

  // ---------------------------------------------------------------- the edge catches up

  function Deliveries(n: nat): seq<Step> { seq(n, _ => DeliverPush) }

  /** What a delivery leaves. */
  lemma Delivered(w: World)
    requires Inv(w) && w.toEdge != []
    ensures var w' := Next(w, DeliverPush);
            && w'.toEdge == w.toEdge[1..] && w'.roster == w.roster && w'.synced == w.synced
            && w'.delivered == w.toEdge[0] && w'.passes.Keys == SetOf(w.toEdge[0])
  {
    ClampFixedPoint(w.toEdge[0]);
    PushStartsExactly(w.(toEdge := w.toEdge[1..]), w.toEdge[0]);
  }

  lemma DeliverMore(w: World, n: nat)
    ensures Run(w, Deliveries(0)) == w && Run(w, Deliveries(n + 1)) == Next(Run(w, Deliveries(n)), DeliverPush)
  {
    assert Deliveries(n + 1)[..n] == Deliveries(n) && Deliveries(0) == [];
  }

  /** What the edge holds and runs when everything on its way has been delivered. */
  lemma {:induction false} DrainSettles(w: World, n: nat)
    requires Inv(w) && 0 < n <= |w.toEdge|
    ensures var w' := Run(w, Deliveries(n));
            && Inv(w') && w'.toEdge == w.toEdge[n..] && w'.roster == w.roster && w'.synced == w.synced
            && w'.delivered == w.toEdge[n - 1] && w'.passes.Keys == SetOf(w.toEdge[n - 1])
  {
    DeliverMore(w, n - 1);
    if n > 1 {
      DrainSettles(w, n - 1);
    } else {
      assert w.toEdge[0..] == w.toEdge;
    }
    DeliverKeeps(Run(w, Deliveries(n - 1)));
    Delivered(Run(w, Deliveries(n - 1)));
    assert w.toEdge[n - 1..][1..] == w.toEdge[n..] && w.toEdge[n - 1..][0] == w.toEdge[n - 1];
  }

  /** From any state of any run: once the edge has said hello on its connection and the pushes have
      arrived, it holds the core's roster and runs exactly one pass for each of its tickers. */
  lemma HelloConverges(steps: seq<Step>)
    requires Run(BOOT, steps).linked
    ensures var w := Next(Run(BOOT, steps), Hello);
            var w' := Run(w, Deliveries(|w.toEdge|));
            && w'.toEdge == [] && w'.synced && w'.roster == Run(BOOT, steps).roster
            && w'.delivered == w'.roster && w'.passes.Keys == SetOf(w'.roster)
  {
    RunKeeps(steps);
    var w := Next(Run(BOOT, steps), Hello);
    StepKeeps(Run(BOOT, steps), Hello);
    DrainSettles(w, |w.toEdge|);
  }

  /** Fail closed: after a restart of the core, as long as nobody clicks, an edge that has
      caught up with its new connection runs nothing. */
  lemma RestartStopsEverything(before: seq<Step>, after: seq<Step>)
    requires forall i :: 0 <= i < |after| ==> !after[i].SetSweeps?
    ensures var w := Run(BOOT, before + [CoreRestart] + after);
            w.roster == [] && (w.synced && w.toEdge == [] ==> w.passes == map[])
  {
    RosterStaysEmpty(before, after);
    EdgeFollowsCore(before + [CoreRestart] + after);
    var w := Run(BOOT, before + [CoreRestart] + after);
    assert SetOf([]) == {};
    assert w.passes.Keys == {} ==> w.passes == map[];
  }

  lemma FirstInSet(r: seq<string>)
    ensures r != [] ==> r[0] in SetOf(r)
  {
  }

  lemma {:induction false} RosterStaysEmpty(before: seq<Step>, after: seq<Step>)
    requires forall i :: 0 <= i < |after| ==> !after[i].SetSweeps?
    ensures Run(BOOT, before + [CoreRestart] + after).roster == []
    decreases |after|
  {
    var steps := before + [CoreRestart] + after;
    if after == [] {
      assert steps[..|steps| - 1] == before;
    } else {
      var init := after[..|after| - 1];
      RosterStaysEmpty(before, init);
      assert steps[..|steps| - 1] == before + [CoreRestart] + init;
      var w := Run(BOOT, before + [CoreRestart] + init);
      RosterGrowsOnlyByClick(w, after[|after| - 1]);
      FirstInSet(Next(w, after[|after| - 1]).roster);
    }
  }
}
