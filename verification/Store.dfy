/** The single-writer store (core/internal/store/store.go): a bounded queue of write tasks,
    drained into one transaction per flush, with one result per submitted task.

    A task is known by its position in the order of acceptance.  The ghost history of the
    store is that order (`accepted`) and the outcome of every task that has left the queue
    (`outcomes`, in the same order). */
module Store {
  import opened Common

  const QUEUE_DEPTH := 4096
  const BATCH_ROWS := 10000

  /** A write: its transaction body (None is an error), and whether anyone waits for the result. */
  datatype Task<!DB> = Task(fn: DB -> Option<DB>, wantsResult: bool)

  datatype Outcome = Committed | TaskFailed | BatchAborted | Drained

  /** One value sent on a result channel: whose, and what. */
  datatype Notice = Notice(position: nat, outcome: Outcome)

  datatype SubmitResult = Accepted | Closed | QueueFull

  /** What the disk does to one flush: refuse to begin, fail one task, refuse to commit. */
  datatype Faults = Faults(begin: bool, task: Option<nat>, commit: bool)

  // ---------------------------------------------------------------- what a history means

  /** The committed tasks, in order of acceptance. */
  ghost function CommittedTasks<DB>(accepted: seq<Task<DB>>, outcomes: seq<Outcome>): seq<Task<DB>>
    requires |outcomes| <= |accepted|
    decreases |outcomes|
  {
    if outcomes == [] then [] else
    var n := |outcomes| - 1;
    CommittedTasks(accepted, outcomes[..n]) + (if outcomes[n].Committed? then [accepted[n]] else [])
  }

  /** The effects of tasks one after the other; None as soon as one of them fails. */
  function ApplyAll<DB>(db: DB, tasks: seq<Task<DB>>): Option<DB>
  {
    if tasks == [] then Some(db) else
    match ApplyAll(db, tasks[..|tasks| - 1])
    case None => None
    case Some(d) => tasks[|tasks| - 1].fn(d)
  }

  /** The notices a history calls for: one for each settled task that wants one. */
  ghost function NoticesOf<DB>(accepted: seq<Task<DB>>, outcomes: seq<Outcome>): seq<Notice>
    requires |outcomes| <= |accepted|
    decreases |outcomes|
  {
    if outcomes == [] then [] else
    var n := |outcomes| - 1;
    NoticesOf(accepted, outcomes[..n]) + (if accepted[n].wantsResult then [Notice(n, outcomes[n])] else [])
  }

  ghost predicate History<DB>(db0: DB, db: DB, accepted: seq<Task<DB>>, outcomes: seq<Outcome>,
                              tasks: seq<Task<DB>>, notices: seq<Notice>)
  {
    && |outcomes| <= |accepted|
    && tasks == accepted[|outcomes|..]
    && notices == NoticesOf(accepted, outcomes)
    && ApplyAll(db0, CommittedTasks(accepted, outcomes)) == Some(db)
  }

  /** n copies of an outcome. */
  ghost function Times(n: nat, o: Outcome): seq<Outcome> { seq(n, _ => o) }

  /** The outcomes of a failed flush: the batch (its failing task told apart), then the
      rest of the queue. */
  ghost function FailedOutcomes(batch: nat, failedIdx: int, rest: nat): (r: seq<Outcome>)
    ensures |r| == batch + rest
    ensures forall i :: 0 <= i < |r| ==> r[i] != Committed
  {
    seq(batch, i => if i == failedIdx then TaskFailed else BatchAborted) + Times(rest, Drained)
  }

  /** The transaction over a batch: the new database, or the index blamed for the failure. */
  datatype Verdict<DB> = Success(db: DB) | Failure(failedIdx: int)

  function RunTasks<DB>(db: DB, batch: seq<Task<DB>>, failAt: Option<nat>): Verdict<DB> {
    if batch == [] then Success(db) else
    var n := |batch| - 1;
    match RunTasks(db, batch[..n], failAt)
    case Failure(i) => Failure(i)
    case Success(d) =>
      if failAt == Some(n) then Failure(n) else
      match batch[n].fn(d)
      case None => Failure(n)
      case Some(d') => Success(d')
  }

  function Transaction<DB>(db: DB, batch: seq<Task<DB>>, faults: Faults): Verdict<DB> {
    if faults.begin then Failure(-1) else
    match RunTasks(db, batch, faults.task)
    case Failure(i) => Failure(i)
    case Success(d) => if faults.commit then Failure(|batch| - 1) else Success(d)
  }

  // ---------------------------------------------------------------- facts about histories

  lemma TimesMore(n: nat, o: Outcome)
    ensures Times(n, o) + [o] == Times(n + 1, o)
  {
  }

  lemma Cut<T>(s: seq<T>, i: nat)
    requires i < |s|
    ensures s[i..] != [] && s[i..][0] == s[i] && s[i..][1..] == s[i + 1..] && s[..i] + [s[i]] == s[..i + 1]
  {
  }

  lemma SettleOne<DB>(accepted: seq<Task<DB>>, outcomes: seq<Outcome>, o: Outcome)
    requires |outcomes| < |accepted|
    ensures var n := |outcomes|;
            && NoticesOf(accepted, outcomes + [o]) ==
               NoticesOf(accepted, outcomes) + (if accepted[n].wantsResult then [Notice(n, o)] else [])
            && CommittedTasks(accepted, outcomes + [o]) ==
               CommittedTasks(accepted, outcomes) + (if o.Committed? then [accepted[n]] else [])
  {
    assert (outcomes + [o])[..|outcomes|] == outcomes;
  }

  /** Later arrivals do not change what has been settled. */
  lemma {:induction false} LaterArrivals<DB>(accepted: seq<Task<DB>>, late: seq<Task<DB>>, outcomes: seq<Outcome>)
    requires |outcomes| <= |accepted|
    ensures NoticesOf(accepted + late, outcomes) == NoticesOf(accepted, outcomes)
    ensures CommittedTasks(accepted + late, outcomes) == CommittedTasks(accepted, outcomes)
    decreases |outcomes|
  {
    if outcomes != [] {
      LaterArrivals(accepted, late, outcomes[..|outcomes| - 1]);
    }
  }

  lemma {:induction false} RunTasksApplies<DB>(db: DB, batch: seq<Task<DB>>, failAt: Option<nat>)
    requires RunTasks(db, batch, failAt).Success?
    ensures ApplyAll(db, batch) == Some(RunTasks(db, batch, failAt).db)
  {
    if batch != [] {
      RunTasksApplies(db, batch[..|batch| - 1], failAt);
    }
  }

  lemma {:induction false} ApplyConcat<DB>(db: DB, s: seq<Task<DB>>, t: seq<Task<DB>>)
    requires ApplyAll(db, s).Some?
    ensures ApplyAll(db, s + t) == ApplyAll(ApplyAll(db, s).value, t)
    decreases |t|
  {
    if t == [] {
      assert s + t == s;
    } else {
      ApplyConcat(db, s, t[..|t| - 1]);
      assert (s + t)[..|s + t| - 1] == s + t[..|t| - 1];
    }
  }

  // ---------------------------------------------------------------- the store

  class Store<DB(!new)> {
    var tasks: seq<Task<DB>>
    var closed: bool
    var db: DB
    var notices: seq<Notice>
    var settledCount: nat
    ghost const db0: DB
    ghost var accepted: seq<Task<DB>>
    ghost var outcomes: seq<Outcome>

    ghost predicate Valid()
      reads this
    {
      |tasks| <= QUEUE_DEPTH && settledCount == |outcomes| && History(db0, db, accepted, outcomes, tasks, notices)
    }

    constructor (initial: DB)
      ensures Valid() && db == initial && db0 == initial && accepted == [] && outcomes == [] && !closed
    {
      db, db0, tasks, closed, notices, settledCount := initial, initial, [], false, [], 0;
      accepted, outcomes := [], [];
    }

    /** `Submit` and `Enqueue`: refuse rather than block. */
    method Enqueue(t: Task<DB>) returns (r: SubmitResult)
      requires Valid()
      modifies this
      ensures Valid() && outcomes == old(outcomes) && db == old(db) && notices == old(notices) && closed == old(closed)
      ensures r == if closed then Closed else if |old(tasks)| >= QUEUE_DEPTH then QueueFull else Accepted
      ensures accepted == old(accepted) + if r.Accepted? then [t] else []
    {
      if closed {
        return Closed;
      }
      if |tasks| >= QUEUE_DEPTH {
        return QueueFull;
      }
      LaterArrivals(accepted, [t], outcomes);
      tasks := tasks + [t];
      accepted := accepted + [t];
      return Accepted;
    }

    /** Send one result: the oldest unsettled task leaves with outcome `o`. */
    method Notify(t: Task<DB>, o: Outcome)
      requires settledCount == |outcomes| < |accepted| && t == accepted[|outcomes|]
      requires notices == NoticesOf(accepted, outcomes)
      modifies `notices, `settledCount, `outcomes
      ensures outcomes == old(outcomes) + [o] && settledCount == |outcomes|
      ensures notices == NoticesOf(accepted, outcomes)
      ensures CommittedTasks(accepted, outcomes) ==
              CommittedTasks(accepted, old(outcomes)) + if o.Committed? then [t] else []
    {
      SettleOne(accepted, outcomes, o);
      if t.wantsResult {
        notices := notices + [Notice(settledCount, o)];
      }
      settledCount := settledCount + 1;
      outcomes := outcomes + [o];
    }

    /** The tasks from `outcomes` on are the batch in hand and then the queue. */
    ghost predicate InHand(batch: seq<Task<DB>>)
      reads this
    {
      && settledCount == |outcomes| <= |accepted| && notices == NoticesOf(accepted, outcomes)
      && accepted[|outcomes|..] == batch + tasks
    }

    /** Take up to BATCH_ROWS tasks off the queue. */
    method TakeBatch() returns (batch: seq<Task<DB>>)
      requires Valid()
      modifies `tasks
      ensures InHand(batch)
      ensures |batch| == (if |old(tasks)| > BATCH_ROWS then BATCH_ROWS else |old(tasks)|)
      ensures batch == old(tasks)[..|batch|] && tasks == old(tasks)[|batch|..]
    {
      var n := |tasks|;
      if n > BATCH_ROWS {
        n := BATCH_ROWS;
      }
      batch := [];
      var i := 0;
      while i < n
        invariant 0 <= i <= n <= |old(tasks)|
        invariant batch == old(tasks)[..i] && tasks == old(tasks)[i..]
      {
        assert old(tasks)[i..][1..] == old(tasks)[i + 1..];
        assert old(tasks)[..i + 1] == old(tasks)[..i] + [tasks[0]];
        batch := batch + [tasks[0]];
        tasks := tasks[1..];
        i := i + 1;
      }
      assert old(tasks) == batch + tasks;
    }

    /** Results of a committed batch. */
    method NotifyCommitted(batch: seq<Task<DB>>)
      requires InHand(batch)
      modifies `notices, `settledCount, `outcomes
      ensures InHand([])
      ensures outcomes == old(outcomes) + Times(|batch|, Committed)
      ensures CommittedTasks(accepted, outcomes) == CommittedTasks(accepted, old(outcomes)) + batch
    {
      var i := 0;
      while i < |batch|
        invariant 0 <= i <= |batch|
        invariant InHand(batch[i..])
        invariant outcomes == old(outcomes) + Times(i, Committed)
        invariant CommittedTasks(accepted, outcomes) == CommittedTasks(accepted, old(outcomes)) + batch[..i]
      {
        Cut(batch, i);
        TimesMore(i, Committed);
        InHandNext(batch[i..]);
        Notify(batch[i], Committed);
        i := i + 1;
      }
      assert batch[..i] == batch && batch[i..] == [];
    }

    lemma InHandNext(batch: seq<Task<DB>>)
      requires InHand(batch) && batch != []
      ensures |outcomes| < |accepted| && accepted[|outcomes|] == batch[0]
      ensures accepted[|outcomes| + 1..] == batch[1..] + tasks
    {
      assert accepted[|outcomes|..][0] == batch[0];
      assert accepted[|outcomes|..][1..] == accepted[|outcomes| + 1..];
    }

    /** Results of a failed batch: the blamed task is told its own error, the others that the
        batch was aborted. */
    method NotifyFailed(batch: seq<Task<DB>>, failedIdx: int)
      requires InHand(batch)
      modifies `notices, `settledCount, `outcomes
      ensures InHand([])
      ensures outcomes == old(outcomes) + FailedOutcomes(|batch|, failedIdx, 0)
      ensures CommittedTasks(accepted, outcomes) == CommittedTasks(accepted, old(outcomes))
    {
      var i := 0;
      while i < |batch|
        invariant 0 <= i <= |batch|
        invariant InHand(batch[i..])
        invariant outcomes == old(outcomes) + FailedOutcomes(i, failedIdx, 0)
        invariant CommittedTasks(accepted, outcomes) == CommittedTasks(accepted, old(outcomes))
      {
        InHandNext(batch[i..]);
        var o := if i == failedIdx then TaskFailed else BatchAborted;
        Notify(batch[i], o);
        Cut(batch, i);
        assert FailedOutcomes(i, failedIdx, 0) + [o] == FailedOutcomes(i + 1, failedIdx, 0);
        i := i + 1;
      }
      assert batch[i..] == [];
    }

    /** After a failure the rest of the queue is drained, every task told. */
    method Drain()
      requires InHand([])
      modifies `tasks, `notices, `settledCount, `outcomes
      ensures InHand([]) && tasks == []
      ensures outcomes == old(outcomes) + Times(|old(tasks)|, Drained)
      ensures CommittedTasks(accepted, outcomes) == CommittedTasks(accepted, old(outcomes))
    {
      ghost var n := |tasks|;
      while tasks != []
        invariant InHand([]) && |tasks| <= n
        invariant outcomes == old(outcomes) + Times(n - |tasks|, Drained)
        invariant CommittedTasks(accepted, outcomes) == CommittedTasks(accepted, old(outcomes))
        decreases |tasks|
      {
        var t := tasks[0];
        tasks := tasks[1..];
        assert InHand([t]);
        InHandNext([t]);
        ghost var k := n - |tasks| - 1;
        Notify(t, Drained);
        TimesMore(k, Drained);
      }
    }

    /** Enqueues by other goroutines that are accepted while the writer works. */
    method Arrive(batch: seq<Task<DB>>, late: seq<Task<DB>>)
      requires InHand(batch)
      modifies `tasks, `accepted
      ensures InHand(batch) && tasks == old(tasks) + late && accepted == old(accepted) + late
      ensures CommittedTasks(accepted, outcomes) == CommittedTasks(old(accepted), outcomes)
    {
      LaterArrivals(accepted, late, outcomes);
      tasks := tasks + late;
      accepted := accepted + late;
      assert accepted[|outcomes|..] == old(accepted)[|outcomes|..] + late;
    }

    /** Run the batch inside one transaction on a copy of the database. */
    method Execute(batch: seq<Task<DB>>, faults: Faults) returns (v: Verdict<DB>)
      ensures v == Transaction(db, batch, faults)
    {
      if faults.begin {
        return Failure(-1);
      }
      var tx := db;
      var i := 0;
      while i < |batch|
        invariant 0 <= i <= |batch|
        invariant RunTasks(db, batch[..i], faults.task) == Success(tx)
      {
        assert batch[..i + 1][..i] == batch[..i];
        var r := if faults.task == Some(i) then None else batch[i].fn(tx);
        if r.None? {
          FailureStays(db, batch, faults.task, i);
          return Failure(i);
        }
        tx := r.value;
        i := i + 1;
      }
      assert batch[..i] == batch;
      return if faults.commit then Failure(|batch| - 1) else Success(tx);
    }

    /** One flush.  It takes the whole queue, which never holds more than a batch.  `late` are the
        tasks other goroutines enqueue after that and before it is over; they fit the queue, unless the
        flush fails and drains them as they come. */
    method Flush(faults: Faults, late: seq<Task<DB>>)
      requires Valid() && (LastFlushFails(db, tasks, faults) || |late| <= QUEUE_DEPTH)
      modifies `tasks, `db, `notices, `settledCount, `accepted, `outcomes
      ensures Valid() && accepted == old(accepted) + late
      ensures old(tasks) == [] ==> outcomes == old(outcomes) && db == old(db) && tasks == late
      ensures old(tasks) != [] ==>
                match Transaction(old(db), old(tasks), faults)
                case Success(d) =>
                  db == d && tasks == late && outcomes == old(outcomes) + Times(|old(tasks)|, Committed)
                case Failure(i) =>
                  && db == old(db) && tasks == []
                  && outcomes == old(outcomes) + FailedOutcomes(|old(tasks)|, i, |late|)
    {
      if tasks == [] {
        Arrive([], late);
        return;
      }
      ghost var done := CommittedTasks(accepted, outcomes);
      var batch := TakeBatch();
      assert batch == old(tasks) && tasks == [];
      var v := Execute(batch, faults);
      Arrive(batch, late);
      if v.Success? {
        CommitApplies(db0, done, db, batch, faults);
        db := v.db;
      }
      CompleteBatch(batch, v);
      assert v.Success? ==> |outcomes| == |old(accepted)|;
      assert (old(accepted) + late)[|old(accepted)|..] == late;
    }

    /** Close: refuse new tasks, then one last flush.  A task that passed the closed test before
        can still land while that flush is under way (`late`) or when it is over (`after`).  Every
        accepted task then has its outcome if and only if none landed after it, and none during
        it unless it failed and drained them. */
    method Close(faults: Faults, late: seq<Task<DB>>, after: seq<Task<DB>>)
      requires Valid() && (if LastFlushFails(db, tasks, faults) then 0 else |late|) + |after| <= QUEUE_DEPTH
      modifies this
      ensures Valid() && closed && accepted == old(accepted) + late + after
      ensures tasks == (if LastFlushFails(old(db), old(tasks), faults) then [] else late) + after
      ensures |outcomes| == |accepted| <==> after == [] && (late == [] || LastFlushFails(old(db), old(tasks), faults))
    {
      closed := true;
      Flush(faults, late);
      Arrive([], after);
      assert |tasks| == |accepted| - |outcomes|;
    }

    /** Tell every task of the batch, and after a failure drain the queue too. */
    method CompleteBatch(batch: seq<Task<DB>>, v: Verdict<DB>)
      requires InHand(batch)
      modifies `tasks, `notices, `settledCount, `outcomes
      ensures settledCount == |outcomes| <= |accepted| && tasks == accepted[|outcomes|..]
      ensures notices == NoticesOf(accepted, outcomes)
      ensures v.Success? ==>
                && outcomes == old(outcomes) + Times(|batch|, Committed)
                && CommittedTasks(accepted, outcomes) == CommittedTasks(accepted, old(outcomes)) + batch
      ensures v.Failure? ==>
                && tasks == [] && outcomes == old(outcomes) + FailedOutcomes(|batch|, v.failedIdx, |old(tasks)|)
                && CommittedTasks(accepted, outcomes) == CommittedTasks(accepted, old(outcomes))
    {
      if v.Success? {
        NotifyCommitted(batch);
      } else {
        NotifyFailed(batch, v.failedIdx);
        Drain();
        FailedSplit(|batch|, v.failedIdx, |old(tasks)|);
      }
      assert [] + tasks == tasks;
    }
  }

  /** There is something left to write, and writing it fails. */
  predicate LastFlushFails<DB>(db: DB, tasks: seq<Task<DB>>, faults: Faults) {
    tasks != [] && Transaction(db, tasks, faults).Failure?
  }

  /** A task that lands during the last flush of an idle store is accepted and never answered. */
  method LateSubmitUnanswered<DB(!new)>(initial: DB, t: Task<DB>, faults: Faults) returns (s: Store<DB>)
    requires t.wantsResult
    ensures s.Valid() && s.closed && s.accepted == [t] && s.tasks == [t] && s.notices == []
  {
    s := new Store(initial);
    s.Close(faults, [t], []);
  }

  lemma {:induction false} FailureStays<DB>(db: DB, batch: seq<Task<DB>>, failAt: Option<nat>, i: nat)
    requires i < |batch| && RunTasks(db, batch[..i + 1], failAt) == Failure(i)
    ensures RunTasks(db, batch, failAt) == Failure(i)
    decreases |batch|
  {
    if i + 1 == |batch| {
      assert batch[..i + 1] == batch;
    } else {
      assert batch[..|batch| - 1][..i + 1] == batch[..i + 1];
      FailureStays(db, batch[..|batch| - 1], failAt, i);
    }
  }

  lemma CommitApplies<DB>(db0: DB, done: seq<Task<DB>>, db: DB, batch: seq<Task<DB>>, faults: Faults)
    requires ApplyAll(db0, done) == Some(db) && Transaction(db, batch, faults).Success?
    ensures ApplyAll(db0, done + batch) == Some(Transaction(db, batch, faults).db)
  {
    RunTasksApplies(db, batch, faults.task);
    ApplyConcat(db0, done, batch);
  }

  lemma FailedSplit(batch: nat, failedIdx: int, rest: nat)
    ensures FailedOutcomes(batch, failedIdx, 0) + Times(rest, Drained) == FailedOutcomes(batch, failedIdx, rest)
  {
  }

  // ---------------------------------------------------------------- who is blamed

  /** Task i runs after the ones before it have, and fails. */
  ghost predicate FailsAt<DB>(db: DB, batch: seq<Task<DB>>, faults: Faults, i: int) {
    && 0 <= i < |batch| && ApplyAll(db, batch[..i]).Some? && (forall j :: 0 <= j < i ==> faults.task != Some(j))
    && (faults.task == Some(i) || batch[i].fn(ApplyAll(db, batch[..i]).value).None?)
  }

  lemma {:induction false} RunTasksIs<DB(!new)>(db: DB, batch: seq<Task<DB>>, faults: Faults)
    ensures match RunTasks(db, batch, faults.task)
            case Success(d) => ApplyAll(db, batch) == Some(d) && forall j :: 0 <= j < |batch| ==> faults.task != Some(j)
            case Failure(i) => FailsAt(db, batch, faults, i)
  {
    if batch != [] {
      var n := |batch| - 1;
      RunTasksIs(db, batch[..n], faults);
      match RunTasks(db, batch[..n], faults.task)
      case Success(d) => assert batch[..n] == batch[..|batch| - 1];
      case Failure(i) => assert batch[..n][..i] == batch[..i];
    }
  }

  lemma ApplyStops<DB>(db: DB, batch: seq<Task<DB>>, i: nat)
    requires i < |batch| && ApplyAll(db, batch[..i]).Some? && batch[i].fn(ApplyAll(db, batch[..i]).value).None?
    ensures ApplyAll(db, batch).None?
  {
    var s, t := batch[..i + 1], batch[i + 1..];
    assert s[..i] == batch[..i] && batch == s + t;
    NoneStays(db, s, t);
  }

  lemma {:induction false} NoneStays<DB>(db: DB, s: seq<Task<DB>>, t: seq<Task<DB>>)
    requires ApplyAll(db, s).None?
    ensures ApplyAll(db, s + t).None?
    decreases |t|
  {
    if t == [] {
      assert s + t == s;
    } else {
      NoneStays(db, s, t[..|t| - 1]);
      assert (s + t)[..|s + t| - 1] == s + t[..|t| - 1];
    }
  }

  /** At most one task of a batch is the one that fails. */
  lemma FailsOnce<DB>(db: DB, batch: seq<Task<DB>>, faults: Faults, i: int, j: int)
    requires FailsAt(db, batch, faults, i) && FailsAt(db, batch, faults, j)
    ensures i == j
  {
    if i < j {
      FailsFirst(db, batch, faults, i, j);
    } else if j < i {
      FailsFirst(db, batch, faults, j, i);
    }
  }

  lemma FailsFirst<DB>(db: DB, batch: seq<Task<DB>>, faults: Faults, i: int, j: int)
    requires FailsAt(db, batch, faults, i) && FailsAt(db, batch, faults, j)
    ensures i >= j
  {
    if i < j {
      assert batch[..j][..i] == batch[..i];
      ApplyStops(db, batch[..j], i);
    }
  }

  /** A flush of a batch commits if and only if the disk lets it begin and commit and no task fails,
      and then leaves the effects of all its tasks in order.  Otherwise the task that is told its
      own error is the one that failed; the last, if all ran and the commit failed; none, if the
      transaction did not begin.  The rest of the batch is told that it was aborted, the rest of
      the queue that it was drained. */
  lemma FlushExact<DB(!new)>(db: DB, batch: seq<Task<DB>>, faults: Faults, rest: nat)
    requires batch != []
    ensures match Transaction(db, batch, faults)
            case Success(d) => !faults.begin && !faults.commit && ApplyAll(db, batch) == Some(d) && forall i :: !FailsAt(db, batch, faults, i)
            case Failure(blamed) =>
              && (faults.begin || faults.commit || exists i :: FailsAt(db, batch, faults, i))
              && forall p :: 0 <= p < |batch| + rest ==> FailedOutcomes(|batch|, blamed, rest)[p] == Told(db, batch, faults, p)
  {
    RunTasksIs(db, batch, faults);
    if !faults.begin {
      match RunTasks(db, batch, faults.task)
      case Success(d) => NoneFails(db, batch, faults);
      case Failure(i) =>
        forall p | FailsAt(db, batch, faults, p) ensures p == i {
          FailsOnce(db, batch, faults, i, p);
        }
    }
  }

  ghost function Told<DB>(db: DB, batch: seq<Task<DB>>, faults: Faults, p: int): Outcome {
    if p >= |batch| then Drained else if IsBlamed(db, batch, faults, p) then TaskFailed else BatchAborted
  }

  /** Task p is told its own error. */
  ghost predicate IsBlamed<DB>(db: DB, batch: seq<Task<DB>>, faults: Faults, p: int) {
    !faults.begin && (FailsAt(db, batch, faults, p) || (p == |batch| - 1 && forall i :: !FailsAt(db, batch, faults, i)))
  }

  lemma NoneFails<DB>(db: DB, batch: seq<Task<DB>>, faults: Faults)
    requires ApplyAll(db, batch).Some? && forall j :: 0 <= j < |batch| ==> faults.task != Some(j)
    ensures forall i :: !FailsAt(db, batch, faults, i)
  {
    forall i | FailsAt(db, batch, faults, i) ensures false {
      ApplyStops(db, batch, i);
    }
  }

  // ---------------------------------------------------------------- what callers are promised

  /** Exactly one notice for every settled task that wants one, carrying its outcome, and
      none for a task still queued. */
  lemma {:induction false} ExactlyOneNotice<DB>(accepted: seq<Task<DB>>, outcomes: seq<Outcome>, p: nat)
    requires |outcomes| <= |accepted| && p < |accepted|
    ensures var ns := NoticesOf(accepted, outcomes);
            if p < |outcomes| && accepted[p].wantsResult
            then multiset(ns)[Notice(p, outcomes[p])] == 1 && forall n :: n in ns && n.position == p ==> n == Notice(p, outcomes[p])
            else forall n :: n in ns ==> n.position != p
    decreases |outcomes|
  {
    if outcomes != [] {
      var n := |outcomes| - 1;
      var before := NoticesOf(accepted, outcomes[..n]);
      ExactlyOneNotice(accepted, outcomes[..n], p);
      PositionsBelow(accepted, outcomes[..n]);
      if p == n && accepted[n].wantsResult {
        assert Notice(p, outcomes[p]) !in before;
      }
    }
  }

  lemma {:induction false} PositionsBelow<DB>(accepted: seq<Task<DB>>, outcomes: seq<Outcome>)
    requires |outcomes| <= |accepted|
    ensures forall n :: n in NoticesOf(accepted, outcomes) ==> n.position < |outcomes|
    decreases |outcomes|
  {
    if outcomes != [] {
      PositionsBelow(accepted, outcomes[..|outcomes| - 1]);
    }
  }
}
