/** Runs of the exporter (core/internal/store/masterlog.go) in which nothing crashes or fails: the file
    is then exactly the table up to the cursor, and a complete export leaves nothing behind. */
module ExportRuns {
  import opened Exporter

  predicate Smooth(step: Step) { !step.Crash? && !step.WriteFails? && (step.Batch? ==> step.commits) }
  ghost predicate AllSmooth(steps: seq<Step>) { forall i :: 0 <= i < |steps| ==> Smooth(steps[i]) }

  /** The rows with ids up to a limit, in order. */
  function UpTo(rows: seq<Row>, limit: nat): seq<Row> {
    if rows == [] then [] else
    var last := rows[|rows| - 1];
    UpTo(rows[..|rows| - 1], limit) + (if last.id <= limit then [last] else [])
  }

  lemma {:induction false} UpToMembers(rows: seq<Row>, limit: nat)
    ensures forall r :: r in UpTo(rows, limit) <==> r in rows && r.id <= limit
  {
    if rows != [] {
      var n := |rows| - 1;
      UpToMembers(rows[..n], limit);
      assert rows == rows[..n] + [rows[n]];
    }
  }

  lemma {:induction false} UpToAscends(rows: seq<Row>, limit: nat)
    requires Ascending(rows)
    ensures Ascending(UpTo(rows, limit)) && LastId(UpTo(rows, limit)) <= limit && LastId(UpTo(rows, limit)) <= LastId(rows)
  {
    if rows != [] {
      var n := |rows| - 1;
      UpToAscends(rows[..n], limit);
      if rows[n].id <= limit {
        AppendAscends(UpTo(rows[..n], limit), rows[n]);
        assert UpTo(rows, limit) == UpTo(rows[..n], limit) + [rows[n]];
      } else {
        assert UpTo(rows, limit) == UpTo(rows[..n], limit);
      }
    }
  }

  lemma AppendAscends(rows: seq<Row>, r: Row)
    requires Ascending(rows) && LastId(rows) < r.id
    ensures Ascending(rows + [r])
  {
    assert (rows + [r])[..|rows|] == rows;
  }

  lemma {:induction false} UpToWhole(rows: seq<Row>, limit: nat)
    requires Ascending(rows) && LastId(rows) <= limit
    ensures UpTo(rows, limit) == rows
  {
    if rows != [] {
      UpToWhole(rows[..|rows| - 1], limit);
    }
  }

  /** New rows lie above the limit, so they do not show. */
  lemma {:induction false} UpToGrown(rows: seq<Row>, rows': seq<Row>, limit: nat)
    requires Grows(rows, rows') && limit <= LastId(rows)
    ensures UpTo(rows', limit) == UpTo(rows, limit)
    decreases |rows'|
  {
    if |rows| < |rows'| {
      var n := |rows'| - 1;
      assert rows' == rows'[..n] + [rows'[n]] && rows <= rows'[..n];
      UpToGrown(rows, rows'[..n], limit);
      GrowsLastId(rows, rows'[..n]);
    } else {
      assert rows == rows';
    }
  }

  /** Up to the cursor, and then after it, is up to the last id. */
  lemma {:induction false} UpToAfter(rows: seq<Row>, after: nat)
    requires Ascending(rows)
    ensures UpTo(rows, after) + After(rows, after) == rows
  {
    if rows != [] {
      var n := |rows| - 1;
      UpToAfter(rows[..n], after);
      assert rows == rows[..n] + [rows[n]];
      if rows[n].id <= after {
        UpToWhole(rows, after);
        NothingAfter(rows, after);
      } else {
        assert UpTo(rows, after) == UpTo(rows[..n], after);
      }
    }
  }

  lemma {:induction false} NothingAfter(rows: seq<Row>, after: nat)
    requires Ascending(rows) && LastId(rows) <= after
    ensures After(rows, after) == []
  {
    if rows != [] {
      NothingAfter(rows[..|rows| - 1], after);
    }
  }

  // ---------------------------------------------------------------- the file, exactly

  /** Rows being written follow on from the cursor, up to their own last id. */
  ghost predicate Continues(db: Db, rows: seq<Row>) {
    rows != [] ==> UpTo(db.rows, LastId(rows)) == UpTo(db.rows, db.cursor) + rows && db.cursor < LastId(rows) <= LastId(db.rows)
  }

  /** What the file holds at every moment. */
  ghost predicate FileIs(s: System) {
    match s.phase
    case Writing(rows, written) =>
      written <= |rows| && Continues(s.db, rows) && s.csv == UpTo(s.db.rows, s.db.cursor) + rows[..written]
    case WaitAdvance(maxId, _) => maxId <= LastId(s.db.rows) && s.csv == UpTo(s.db.rows, maxId)
    case _ => s.csv == UpTo(s.db.rows, s.db.cursor)
  }

  lemma ReadContinues(db: Db, view: Db, db': Db)
    requires Grows(db.rows, view.rows) && Grows(view.rows, db'.rows) && db.cursor == db'.cursor && db.cursor <= LastId(db.rows)
    ensures Continues(db', After(view.rows, db.cursor))
    ensures UpTo(db'.rows, db.cursor) == UpTo(db.rows, db.cursor)
  {
    var rows := After(view.rows, db.cursor);
    GrowsLastId(db.rows, view.rows);
    GrowsLastId(view.rows, db'.rows);
    UpToGrown(db.rows, view.rows, db.cursor);
    UpToGrown(view.rows, db'.rows, db.cursor);
    if rows != [] {
      AfterSelects(view.rows, db.cursor);
      UpToAfter(view.rows, db.cursor);
      UpToGrown(view.rows, db'.rows, LastId(rows));
      UpToWhole(view.rows, LastId(view.rows));
      assert rows[|rows| - 1] in rows;
    }
  }

  lemma ContinuesGrown(db: Db, db': Db, rows: seq<Row>)
    requires Continues(db, rows) && Grows(db.rows, db'.rows) && db'.cursor == db.cursor <= LastId(db.rows)
    ensures Continues(db', rows) && UpTo(db'.rows, db'.cursor) == UpTo(db.rows, db.cursor)
  {
    UpToGrown(db.rows, db'.rows, db.cursor);
    GrowsLastId(db.rows, db'.rows);
    if rows != [] {
      UpToGrown(db.rows, db'.rows, LastId(rows));
    }
  }

  lemma BatchFile(s: System, n: nat)
    requires Inv(s) && FileIs(s) && n <= |s.queue|
    ensures FileIs(Next(s, Batch(n, true)))
  {
    var s' := Next(s, Batch(n, true));
    BatchEffect(s, n);
    match s.phase
    case WaitRows(after, pos) =>
      if pos < n {
        BatchEffect(s, pos);
        BatchGrows(s.db, s.queue[..n], pos);
        assert s.queue[..n][..pos] == s.queue[..pos];
        ReadContinues(s.db, ExecAll(s.db, s.queue[..pos]), s'.db);
      } else {
        UpToGrown(s.db.rows, s'.db.rows, s.db.cursor);
      }
    case Writing(rows, _) => ContinuesGrown(s.db, s'.db, rows);
    case WaitAdvance(maxId, _) => UpToGrown(s.db.rows, s'.db.rows, maxId);
    case _ => UpToGrown(s.db.rows, s'.db.rows, s.db.cursor);
  }

  lemma StepFile(s: System, step: Step)
    requires Inv(s) && FileIs(s) && Smooth(step)
    ensures FileIs(Next(s, step))
  {
    match step
    case Batch(n, _) => if n <= |s.queue| { BatchFile(s, n); }
    case WriteRow =>
      if s.phase.Writing? && s.phase.written < |s.phase.rows| {
        assert s.phase.rows[..s.phase.written + 1] == s.phase.rows[..s.phase.written] + [s.phase.rows[s.phase.written]];
      }
    case FinishWrite =>
      if s.phase.Writing? && s.phase.written == |s.phase.rows| {
        assert s.phase.rows[..s.phase.written] == s.phase.rows;
      }
    case _ =>
  }

  /** In every smooth run the file holds, in order and once each, exactly the committed rows up to the
      cursor, and besides at most what an unfinished export has written. */
  lemma {:induction false} FileExact(steps: seq<Step>)
    requires AllSmooth(steps)
    ensures FileIs(Run(FRESH, steps))
  {
    if steps != [] {
      var front := steps[..|steps| - 1];
      FileExact(front);
      NeverSkips(front);
      StepFile(Run(FRESH, front), steps[|steps| - 1]);
    }
  }

  lemma {:induction false} PrefixAscends(rows: seq<Row>, n: nat)
    requires Ascending(rows) && n <= |rows|
    ensures Ascending(rows[..n])
    decreases |rows|
  {
    if n < |rows| {
      var front := rows[..|rows| - 1];
      PrefixAscends(front, n);
      assert front[..n] == rows[..n];
    } else {
      assert rows[..n] == rows;
    }
  }

  lemma FileSorted(s: System)
    requires Ascending(s.db.rows) && FileIs(s)
    ensures Ascending(s.csv)
  {
    UpToAscends(s.db.rows, s.db.cursor);
    match s.phase
    case Writing(rows, written) =>
      if rows == [] {
        assert s.csv == UpTo(s.db.rows, s.db.cursor);
      } else {
        UpToAscends(s.db.rows, LastId(rows));
        var all := UpTo(s.db.rows, s.db.cursor) + rows;
        PrefixAscends(all, |s.csv|);
        assert s.csv == all[..|s.csv|];
      }
    case WaitAdvance(maxId, _) => UpToAscends(s.db.rows, maxId);
    case _ =>
  }

  /** No row is there twice, and the ids strictly ascend. */
  lemma FileAscends(steps: seq<Step>, i: nat, j: nat)
    requires AllSmooth(steps) && i < j < |Run(FRESH, steps).csv|
    ensures Run(FRESH, steps).csv[i].id < Run(FRESH, steps).csv[j].id
  {
    FileExact(steps);
    NeverSkips(steps);
    FileSorted(Run(FRESH, steps));
    AscendsPairwise(Run(FRESH, steps).csv, i, j);
  }

  lemma {:induction false} AscendsPairwise(rows: seq<Row>, i: nat, j: nat)
    requires Ascending(rows) && i < j < |rows|
    ensures rows[i].id < rows[j].id
  {
    var front := rows[..|rows| - 1];
    if j < |front| {
      AscendsPairwise(front, i, j);
    } else if i < |front| - 1 {
      AscendsPairwise(front, i, |front| - 1);
    }
  }

  // ---------------------------------------------------------------- the cursor follows the file

  /** Once written, the rows are passed over for good: the commit of the query that the exporter
      then waits for, whatever happened meanwhile, sets the cursor to the id of the last of them. */
  lemma CursorFollows(s: System, steps: seq<Step>, n: nat)
    requires Inv(s) && s.phase.Writing? && s.phase.written == |s.phase.rows| > 0 && AllSmooth(steps)
    requires forall i :: 0 <= i <= |steps| ==> Run(Next(s, FinishWrite), steps[..i]).phase.WaitAdvance?
    ensures var w := Run(Next(s, FinishWrite), steps);
            && w.phase.WaitAdvance?
            && (w.phase.pos < n <= |w.queue| ==> Next(w, Batch(n, true)).phase.Idle? &&
                                                 Next(w, Batch(n, true)).db.cursor == s.phase.rows[|s.phase.rows| - 1].id)
  {
    var w := Run(Next(s, FinishWrite), steps);
    WriteFinished(s);
    StillWaits(Next(s, FinishWrite), steps);
    if w.phase.pos < n <= |w.queue| {
      BatchEffect(w, n);
    }
  }

  lemma {:induction false} StillWaits(s: System, steps: seq<Step>)
    requires Inv(s) && AllSmooth(steps)
    requires forall i :: 0 <= i <= |steps| ==> Run(s, steps[..i]).phase.WaitAdvance?
    ensures Inv(Run(s, steps)) && s.phase.WaitAdvance? && Run(s, steps).phase.WaitAdvance? && Run(s, steps).phase.maxId == s.phase.maxId
  {
    assert steps[..0] == [] && steps[..|steps|] == steps;
    if steps != [] {
      var front := steps[..|steps| - 1];
      forall i | 0 <= i <= |front| ensures Run(s, front[..i]).phase.WaitAdvance? {
        assert front[..i] == steps[..i];
      }
      StillWaits(s, front);
      StepKeeps(Run(s, front), steps[|steps| - 1]);
    }
  }

  // ---------------------------------------------------------------- a complete export

  predicate YetToRead(p: Phase) { p.WaitCursor? || p.HaveCursor? || p.WaitRows? }

  /** The exporter has yet to read, or the rows up to `limit` are read, written or passed over. */
  ghost predicate Reaches(s: System, limit: nat) {
    && limit <= LastId(s.db.rows)
    && (YetToRead(s.phase) || s.db.cursor >= limit || (s.phase.Writing? && s.phase.rows != [] && LastId(s.phase.rows) >= limit)
        || (s.phase.WaitAdvance? && s.phase.maxId >= limit))
  }

  lemma StepReaches(s: System, step: Step, limit: nat)
    requires Inv(s) && Reaches(s, limit) && Smooth(step)
    ensures Reaches(Next(s, step), limit)
  {
    if step.Batch? && step.n <= |s.queue| {
      BatchEffect(s, step.n);
      if s.phase.WaitRows? && s.phase.pos < step.n {
        BatchEffect(s, s.phase.pos);
        ReadReaches(ExecAll(s.db, s.queue[..s.phase.pos]).rows, s.phase.after, limit);
      }
    }
  }

  lemma ReadReaches(rows: seq<Row>, after: nat, limit: nat)
    requires Ascending(rows) && limit <= LastId(rows)
    ensures if After(rows, after) == [] then after >= limit else LastId(After(rows, after)) >= limit
  {
    AfterSelects(rows, after);
    if rows != [] {
      assert rows[|rows| - 1] in rows;
    }
  }

  lemma {:induction false} RunReaches(s: System, steps: seq<Step>, limit: nat)
    requires Inv(s) && Reaches(s, limit) && AllSmooth(steps)
    ensures Inv(Run(s, steps)) && Reaches(Run(s, steps), limit)
    ensures forall r :: r in s.db.rows ==> r in Run(s, steps).db.rows
  {
    if steps != [] {
      var front := steps[..|steps| - 1];
      RunReaches(s, front, limit);
      StepReaches(Run(s, front), steps[|steps| - 1], limit);
      StepKeeps(Run(s, front), steps[|steps| - 1]);
      RowsStay(Run(s, front), steps[|steps| - 1]);
    }
  }

  lemma RowsStay(s: System, step: Step)
    requires Inv(s)
    ensures forall r :: r in s.db.rows ==> r in Next(s, step).db.rows
  {
    if step.Batch? && step.commits && step.n <= |s.queue| {
      BatchEffect(s, step.n);
    }
  }

  /** An export that had not read when these rows were committed, and ends with nothing failed, has
      put them all into the file, whatever else was committed or crashed before. */
  lemma ExportComplete(before: seq<Step>, steps: seq<Step>, r: Row)
    requires YetToRead(Run(FRESH, before).phase) && AllSmooth(steps) && Run(Run(FRESH, before), steps).phase.Idle?
    requires r in Run(FRESH, before).db.rows
    ensures r in Run(Run(FRESH, before), steps).csv
  {
    var s := Run(FRESH, before);
    NeverSkips(before);
    RunReaches(s, steps, LastId(s.db.rows));
    IdsBounded(s.db.rows, r);
  }

  // ---------------------------------------------------------------- an export always can complete

  lemma {:induction false} RunMore(s: System, a: seq<Step>, b: seq<Step>)
    ensures Run(s, a + b) == Run(Run(s, a), b)
    decreases |b|
  {
    if b == [] {
      assert a + b == a;
    } else {
      RunMore(s, a, b[..|b| - 1]);
      assert (a + b)[..|a + b| - 1] == a + b[..|b| - 1];
    }
  }

  lemma RunOne(s: System, steps: seq<Step>, step: Step)
    ensures Run(s, steps + [step]) == Next(Run(s, steps), step)
  {
    assert (steps + [step])[..|steps|] == steps;
  }

  /** Write what is left of the rows. */
  lemma {:induction false} WriteAll(s: System) returns (steps: seq<Step>)
    requires s.phase.Writing? && s.phase.written <= |s.phase.rows|
    ensures AllSmooth(steps) && Run(s, steps).db == s.db && Run(s, steps).queue == s.queue
    ensures Run(s, steps).phase == Writing(s.phase.rows, |s.phase.rows|)
    decreases |s.phase.rows| - s.phase.written
  {
    if s.phase.written == |s.phase.rows| {
      steps := [];
    } else {
      var rest := WriteAll(Next(s, WriteRow));
      steps := [WriteRow] + rest;
      RunMore(s, [WriteRow], rest);
      RunOne(s, [], WriteRow);
      assert [] + [WriteRow] == [WriteRow];
    }
  }

  lemma RunFour(s: System, a: Step, b: Step, c: Step, d: Step)
    ensures Run(s, [a, b, c, d]) == Next(Next(Next(Next(s, a), b), c), d)
  {
    RunTwo(s, a, b);
    assert [a, b, c] == [a, b] + [c] && [a, b, c, d] == [a, b, c] + [d];
    RunOne(s, [a, b], c);
    RunOne(s, [a, b, c], d);
  }

  lemma RunTwo(s: System, a: Step, b: Step)
    ensures Run(s, [a, b]) == Next(Next(s, a), b)
  {
    assert [a] == [] + [a] && [a, b] == [a] + [b];
    RunOne(s, [], a);
    RunOne(s, [a], b);
  }

  lemma AskedCursor(s: System)
    requires Inv(s) && s.phase.Idle?
    ensures var w := Next(Next(s, StartExport), Batch(|s.queue| + 1, true));
            Inv(w) && w.queue == [] && w.db.rows == ExecAll(s.db, s.queue).rows && w.phase == HaveCursor(w.db.cursor)
  {
    var n, s1 := |s.queue|, Next(s, StartExport);
    StepKeeps(s, StartExport);
    StepKeeps(s1, Batch(n + 1, true));
    assert s1.queue[..n + 1] == s1.queue && s1.queue[..n] == s.queue;
  }

  lemma AskedRows(s: System)
    requires Inv(s) && s.queue == [] && s.phase.HaveCursor?
    ensures var w := Next(Next(s, AskRows), Batch(1, true));
            Inv(w) && w.queue == [] && w.db == s.db && w.phase == Writing(After(w.db.rows, w.db.cursor), 0)
  {
    var s1 := Next(s, AskRows);
    StepKeeps(s, AskRows);
    StepKeeps(s1, Batch(1, true));
    OneTask(s.db, s1.queue);
  }

  lemma OneTask(db: Db, queue: seq<Work>)
    requires |queue| == 1
    ensures ExecAll(db, queue[..0]) == db && ExecAll(db, queue[..1]) == Exec(db, queue[0]) && queue[1..] == []
  {
    assert queue[..1] == queue && queue[..0] == [];
  }

  lemma FinishedSome(v: System)
    requires Inv(v) && v.phase.Writing? && v.phase.written == |v.phase.rows| > 0 && v.queue == []
    ensures var w := Next(Next(v, FinishWrite), Batch(1, true));
            w.phase.Idle? && w.db == v.db.(cursor := LastId(v.phase.rows))
  {
    OneTask(v.db, Next(v, FinishWrite).queue);
  }

  lemma FinishedNone(v: System)
    requires v.phase == Writing([], 0) && v.queue == []
    ensures var w := Next(Next(v, FinishWrite), Batch(1, true));
            w.phase.Idle? && w.db == v.db
  {
    OneTask(v.db, Next(v, FinishWrite).queue);
  }

  lemma Finished(v: System)
    requires Inv(v) && v.phase.Writing? && v.phase.written == |v.phase.rows| && v.queue == []
    requires v.phase.rows == After(v.db.rows, v.db.cursor)
    ensures var w := Next(Next(v, FinishWrite), Batch(1, true));
            Inv(w) && w.phase.Idle? && w.db.rows == v.db.rows && w.db.cursor == LastId(v.db.rows)
  {
    StepKeeps(v, FinishWrite);
    StepKeeps(Next(v, FinishWrite), Batch(1, true));
    ReadReaches(v.db.rows, v.db.cursor, LastId(v.db.rows));
    AfterSelects(v.db.rows, v.db.cursor);
    if v.phase.rows == [] {
      FinishedNone(v);
    } else {
      FinishedSome(v);
    }
  }

  lemma SmoothMore(a: seq<Step>, b: seq<Step>)
    requires AllSmooth(a) && AllSmooth(b)
    ensures AllSmooth(a + b)
  {
  }

  lemma ReadAll(s: System) returns (steps: seq<Step>)
    requires Inv(s) && s.phase.Idle?
    ensures AllSmooth(steps)
    ensures var w := Run(s, steps);
            && Inv(w) && w.queue == [] && w.db.rows == ExecAll(s.db, s.queue).rows
            && w.phase == Writing(After(w.db.rows, w.db.cursor), 0)
  {
    AskedCursor(s);
    AskedRows(Next(Next(s, StartExport), Batch(|s.queue| + 1, true)));
    RunFour(s, StartExport, Batch(|s.queue| + 1, true), AskRows, Batch(1, true));
    steps := [StartExport, Batch(|s.queue| + 1, true), AskRows, Batch(1, true)];
  }

  lemma FinishAll(w: System) returns (steps: seq<Step>)
    requires Inv(w) && w.queue == [] && w.phase == Writing(After(w.db.rows, w.db.cursor), 0)
    ensures AllSmooth(steps)
    ensures var v := Run(w, steps);
            Inv(v) && v.phase.Idle? && v.db.rows == w.db.rows && v.db.cursor == LastId(w.db.rows)
  {
    var write := WriteAll(w);
    RunReaches(w, write, 0);
    Finished(Run(w, write));
    RunTwo(Run(w, write), FinishWrite, Batch(1, true));
    RunMore(w, write, [FinishWrite, Batch(1, true)]);
    SmoothMore(write, [FinishWrite, Batch(1, true)]);
    steps := write + [FinishWrite, Batch(1, true)];
  }

  /** From any idle state the exporter can run to the end: everything queued is committed, the cursor
      is at the last row, and every row is in the file. */
  lemma ExportPossible(s: System) returns (steps: seq<Step>)
    requires Inv(s) && s.phase.Idle?
    ensures AllSmooth(steps)
    ensures var w := Run(s, steps);
            && w.phase.Idle? && w.db.rows == ExecAll(s.db, s.queue).rows && w.db.cursor == LastId(w.db.rows)
            && forall r :: r in w.db.rows ==> r in w.csv
  {
    var read := ReadAll(s);
    var finish := FinishAll(Run(s, read));
    RunMore(s, read, finish);
    SmoothMore(read, finish);
    steps := read + finish;
    AllInFile(Run(s, steps));
  }

  /** The crash, the write that failed, or the batch that failed under a waiting exporter. */
  predicate Fails(s: System, step: Step) {
    step.Crash? || (step.WriteFails? && s.phase.Writing?) || (step.Batch? && step.n <= |s.queue| && !step.commits && Waiting(s.phase))
  }

  /** A failure leaves table, cursor and file as they were, and the next export can run to the end. */
  lemma FailureRetried(s: System, step: Step) returns (steps: seq<Step>)
    requires Inv(s) && Fails(s, step)
    ensures Next(s, step).db == s.db && Next(s, step).csv == s.csv && Next(s, step).phase.Idle?
    ensures AllSmooth(steps)
    ensures forall r :: r in s.db.rows ==> r in Run(Next(s, step), steps).csv
  {
    StepKeeps(s, step);
    steps := ExportPossible(Next(s, step));
    BatchGrows(s.db, Next(s, step).queue, 0);
  }

  lemma AllInFile(w: System)
    requires Inv(w) && w.db.cursor == LastId(w.db.rows)
    ensures forall r :: r in w.db.rows ==> r in w.csv
  {
    forall r | r in w.db.rows ensures r in w.csv {
      IdsBounded(w.db.rows, r);
    }
  }

  // ---------------------------------------------------------------- what is committed

  /** A batch of points becomes rows of its own, in order, with consecutive ids above all others. */
  lemma {:induction false} PointsAppended(rows: seq<Row>, points: seq<int>)
    ensures var all := InsertAll(rows, points);
            && |all| == |rows| + |points| && all[..|rows|] == rows
            && forall j :: 0 <= j < |points| ==> all[|rows| + j] == Row(LastId(rows) + 1 + j, points[j])
    decreases |points|
  {
    if points != [] {
      var more := rows + [Row(LastId(rows) + 1, points[0])];
      PointsAppended(more, points[1..]);
      var all := InsertAll(rows, points);
      assert all[..|more|] == more && all[..|rows|] == more[..|rows|] == rows;
      forall j | 0 <= j < |points| ensures all[|rows| + j] == Row(LastId(rows) + 1 + j, points[j]) {
        if j == 0 {
          assert all[|rows|] == all[..|more|][|rows|];
        } else {
          assert all[|more| + (j - 1)] == Row(LastId(more) + 1 + (j - 1), points[1..][j - 1]);
        }
      }
    }
  }

  function Points(rows: seq<Row>): seq<int> { seq(|rows|, i requires 0 <= i < |rows| => rows[i].point) }

  /** The points that some tasks insert, in order. */
  function Inserted(ws: seq<Work>): seq<int> {
    if ws == [] then [] else
    var last := ws[|ws| - 1];
    Inserted(ws[..|ws| - 1]) + (if last.Insert? then last.points else [])
  }

  lemma InsertPoints(rows: seq<Row>, points: seq<int>)
    ensures Points(InsertAll(rows, points)) == Points(rows) + points
  {
    PointsAppended(rows, points);
    var all := InsertAll(rows, points);
    forall i | 0 <= i < |all| ensures Points(all)[i] == (Points(rows) + points)[i] {
      if i < |rows| {
        assert all[..|rows|][i] == rows[i];
      } else {
        assert all[|rows| + (i - |rows|)].point == points[i - |rows|];
      }
    }
  }

  lemma {:induction false} TasksAppend(db: Db, ws: seq<Work>)
    ensures Points(ExecAll(db, ws).rows) == Points(db.rows) + Inserted(ws)
  {
    if ws != [] {
      var front, last := ws[..|ws| - 1], ws[|ws| - 1];
      TasksAppend(db, front);
      if last.Insert? {
        InsertPoints(ExecAll(db, front).rows, last.points);
      } else {
        assert Inserted(ws) == Inserted(front);
      }
    }
  }

  /** What clients submit goes to the end of the queue, and a commit appends to the table just the
      points of the tasks it took from the front of it; nothing else changes the table. */
  lemma CommitAppends(s: System, step: Step)
    ensures match step
            case SubmitPoints(points) => Next(s, step).queue == s.queue + [Insert(points)] && Next(s, step).db == s.db
            case Batch(n, commits) =>
              if commits && n <= |s.queue| then
                Points(Next(s, step).db.rows) == Points(s.db.rows) + Inserted(s.queue[..n]) && Next(s, step).queue == s.queue[n..]
              else Next(s, step).db == s.db
            case _ => Next(s, step).db == s.db
  {
    if step.Batch? && step.commits && step.n <= |s.queue| {
      TasksAppend(s.db, s.queue[..step.n]);
    }
  }
}
