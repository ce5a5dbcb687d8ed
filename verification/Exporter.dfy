/** The master-CSV exporter (core/internal/store/masterlog.go) on top of the single-writer
    store: a state machine of one exporter, other clients inserting rows, batches that commit
    or fail as a whole (and then empty the queue, as `Store.Flush` proves), and process
    crashes at any point.  The file and the database survive a crash; the queue does not. */
module Exporter {

  datatype Row = Row(id: nat, point: int)

  /** Data_Points in order of Id, and Export_Cursors.Last_Id (0 when there is no such row). */
  datatype Db = Db(rows: seq<Row>, cursor: nat)

  datatype Work = Insert(points: seq<int>) | ReadCursor | ReadRows(after: nat) | SetCursor(id: nat) | Touch

  /** Where the exporter stands; `pos` is the place of its query in the queue. */
  datatype Phase =
    | Idle
    | WaitCursor(pos: nat)
    | HaveCursor(after: nat)
    | WaitRows(after: nat, pos: nat)
    | Writing(rows: seq<Row>, written: nat)
    | WaitAdvance(maxId: nat, pos: nat)

  datatype System = System(db: Db, queue: seq<Work>, csv: seq<Row>, phase: Phase)

  datatype Step =
    | SubmitPoints(points: seq<int>)   // another client
    | StartExport
    | AskRows
    | WriteRow
    | FinishWrite
    | WriteFails
    | Batch(n: nat, commits: bool)
    | Crash

  // ---------------------------------------------------------------- the database

  function LastId(rows: seq<Row>): nat { if rows == [] then 0 else rows[|rows| - 1].id }

  function InsertAll(rows: seq<Row>, points: seq<int>): seq<Row>
    decreases |points|
  {
    if points == [] then rows else InsertAll(rows + [Row(LastId(rows) + 1, points[0])], points[1..])
  }

  /** `touchCursor` inserts Last_Id 0 only where there is no cursor, so it moves nothing. */
  function Exec(db: Db, w: Work): Db {
    match w
    case Insert(points) => db.(rows := InsertAll(db.rows, points))
    case SetCursor(id) => db.(cursor := id)
    case _ => db
  }

  function ExecAll(db: Db, ws: seq<Work>): Db {
    if ws == [] then db else Exec(ExecAll(db, ws[..|ws| - 1]), ws[|ws| - 1])
  }

  /** `SELECT ... WHERE Id > after ORDER BY Id` */
  function After(rows: seq<Row>, after: nat): seq<Row> {
    if rows == [] then [] else
    var last := rows[|rows| - 1];
    After(rows[..|rows| - 1], after) + (if last.id > after then [last] else [])
  }

  // ---------------------------------------------------------------- the steps

  /** The exporter's answer when its query ran at `pos` of a committed batch: it saw the
      transaction as the tasks before it had left it. */
  function Answered(s: System, n: nat): Phase {
    match s.phase
    case WaitCursor(pos) =>
      if pos < n <= |s.queue| then HaveCursor(ExecAll(s.db, s.queue[..pos]).cursor)
      else if n <= pos then WaitCursor(pos - n) else s.phase
    case WaitRows(after, pos) =>
      if pos < n <= |s.queue| then Writing(After(ExecAll(s.db, s.queue[..pos]).rows, after), 0)
      else if n <= pos then WaitRows(after, pos - n) else s.phase
    case WaitAdvance(maxId, pos) =>
      if pos < n then Idle else WaitAdvance(maxId, pos - n)
    case _ => s.phase
  }

  predicate Waiting(p: Phase) { p.WaitCursor? || p.WaitRows? || p.WaitAdvance? }

  /** One step; a step that does not apply changes nothing. */
  function Next(s: System, step: Step): System {
    match step
    case SubmitPoints(points) => s.(queue := s.queue + [Insert(points)])
    case StartExport =>
      if s.phase.Idle? then s.(queue := s.queue + [ReadCursor], phase := WaitCursor(|s.queue|)) else s
    case AskRows =>
      if s.phase.HaveCursor? then
        s.(queue := s.queue + [ReadRows(s.phase.after)], phase := WaitRows(s.phase.after, |s.queue|))
      else s
    case WriteRow =>
      if s.phase.Writing? && s.phase.written < |s.phase.rows| then
        s.(csv := s.csv + [s.phase.rows[s.phase.written]], phase := s.phase.(written := s.phase.written + 1))
      else s
    case FinishWrite =>
      if !s.phase.Writing? || s.phase.written < |s.phase.rows| then s
      else if s.phase.rows == [] then s.(queue := s.queue + [Touch], phase := Idle)
      else
        var maxId := LastId(s.phase.rows);
        s.(queue := s.queue + [SetCursor(maxId)], phase := WaitAdvance(maxId, |s.queue|))
    case WriteFails => if s.phase.Writing? then s.(phase := Idle) else s
    case Batch(n, commits) =>
      if n > |s.queue| then s
      else if commits then
        System(ExecAll(s.db, s.queue[..n]), s.queue[n..], s.csv, Answered(s, n))
      else s.(queue := [], phase := if Waiting(s.phase) then Idle else s.phase)
    case Crash => s.(queue := [], phase := Idle)
  }

  function Run(s: System, steps: seq<Step>): System {
    if steps == [] then s else Next(Run(s, steps[..|steps| - 1]), steps[|steps| - 1])
  }

  const FRESH := System(Db([], 0), [], [], Idle)

  // ---------------------------------------------------------------- the invariant

  ghost predicate Ascending(rows: seq<Row>) {
    rows != [] ==> Ascending(rows[..|rows| - 1]) && LastId(rows[..|rows| - 1]) < LastId(rows)
  }

  /** The promise to the operator. */
  ghost predicate NothingSkipped(db: Db, csv: seq<Row>) {
    forall r :: r in db.rows && r.id <= db.cursor ==> r in csv
  }
  ghost predicate OnlyCommitted(db: Db, csv: seq<Row>) {
    forall r :: r in csv ==> r in db.rows
  }

  /** The exporter alone moves the cursor, through the query it is waiting for. */
  ghost predicate QueueOwned(s: System) {
    && (forall i :: 0 <= i < |s.queue| && s.queue[i].SetCursor? ==>
          s.phase == WaitAdvance(s.queue[i].id, i))
    && (s.phase.WaitCursor? ==> s.phase.pos < |s.queue|)
    && (s.phase.WaitRows? ==> s.phase.pos < |s.queue|)
    && (s.phase.WaitAdvance? ==> s.phase.pos < |s.queue| && s.queue[s.phase.pos] == SetCursor(s.phase.maxId))
  }

  /** rows is exactly what the database holds between the cursor and its own last id. */
  ghost predicate Covers(db: Db, rows: seq<Row>) {
    && (forall r :: r in rows ==> r in db.rows && r.id > db.cursor && r.id <= LastId(rows))
    && (forall r :: r in db.rows && db.cursor < r.id <= LastId(rows) ==> r in rows)
  }

  ghost predicate PhaseSound(s: System) {
    match s.phase
    case HaveCursor(after) => after == s.db.cursor
    case WaitRows(after, _) => after == s.db.cursor
    case Writing(rows, written) =>
      written <= |rows| && Covers(s.db, rows) && (forall i :: 0 <= i < written ==> rows[i] in s.csv)
    case WaitAdvance(maxId, _) =>
      && s.db.cursor < maxId <= LastId(s.db.rows)
      && (forall r :: r in s.db.rows && r.id <= maxId ==> r in s.csv)
    case _ => true
  }

  ghost predicate Inv(s: System) {
    && Ascending(s.db.rows) && s.db.cursor <= LastId(s.db.rows)
    && NothingSkipped(s.db, s.csv) && OnlyCommitted(s.db, s.csv)
    && QueueOwned(s) && PhaseSound(s)
  }

  // ---------------------------------------------------------------- growth of the table

  /** Rows are only ever added, in ascending order. */
  ghost predicate Grows(rows: seq<Row>, rows': seq<Row>) { rows <= rows' && Ascending(rows') }

  lemma {:induction false} IdsBounded(rows: seq<Row>, r: Row)
    requires Ascending(rows) && r in rows
    ensures 1 <= r.id <= LastId(rows)
  {
    var n := |rows| - 1;
    assert rows == rows[..n] + [rows[n]];
    if r in rows[..n] {
      IdsBounded(rows[..n], r);
    }
  }

  /** Whatever is new lies above every id there was. */
  lemma {:induction false} NewRowsAbove(rows: seq<Row>, rows': seq<Row>, r: Row)
    requires Grows(rows, rows') && r in rows'
    ensures r in rows || r.id > LastId(rows)
    decreases |rows'|
  {
    if |rows| < |rows'| {
      var n := |rows'| - 1;
      assert rows' == rows'[..n] + [rows'[n]];
      GrowsLastId(rows, rows'[..n]);
      if r in rows'[..n] {
        NewRowsAbove(rows, rows'[..n], r);
      }
    } else {
      assert rows == rows';
    }
  }

  lemma {:induction false} GrowsLastId(rows: seq<Row>, rows': seq<Row>)
    requires Grows(rows, rows')
    ensures Ascending(rows) && LastId(rows) <= LastId(rows')
    decreases |rows'|
  {
    if |rows| < |rows'| {
      GrowsLastId(rows, rows'[..|rows'| - 1]);
    } else {
      assert rows == rows';
    }
  }

  lemma {:induction false} InsertGrows(rows: seq<Row>, points: seq<int>)
    requires Ascending(rows)
    ensures Grows(rows, InsertAll(rows, points))
    decreases |points|
  {
    if points != [] {
      var rows' := rows + [Row(LastId(rows) + 1, points[0])];
      assert rows'[..|rows'| - 1] == rows;
      InsertGrows(rows', points[1..]);
    }
  }

  lemma ExecGrows(db: Db, w: Work)
    requires Ascending(db.rows)
    ensures Grows(db.rows, Exec(db, w).rows)
  {
    if w.Insert? {
      InsertGrows(db.rows, w.points);
    }
  }

  /** What a query at `pos` saw grows into what the whole batch leaves. */
  lemma {:induction false} BatchGrows(db: Db, ws: seq<Work>, pos: nat)
    requires Ascending(db.rows) && pos <= |ws|
    ensures Grows(ExecAll(db, ws[..pos]).rows, ExecAll(db, ws).rows)
    decreases |ws|
  {
    if ws == [] {
    } else {
      var n := |ws| - 1;
      BatchGrows(db, ws[..n], if pos == |ws| then n else pos);
      ExecGrows(ExecAll(db, ws[..n]), ws[n]);
      if pos == |ws| {
        assert ws[..pos] == ws;
      } else {
        assert ws[..n][..pos] == ws[..pos];
      }
    }
  }

  /** The cursor after a batch, given who may set it. */
  lemma {:induction false} BatchCursor(db: Db, ws: seq<Work>, pos: int, maxId: nat)
    requires forall i :: 0 <= i < |ws| && ws[i].SetCursor? ==> i == pos
    requires 0 <= pos < |ws| ==> ws[pos] == SetCursor(maxId)
    ensures ExecAll(db, ws).cursor == if 0 <= pos < |ws| then maxId else db.cursor
  {
    if ws != [] {
      BatchCursor(db, ws[..|ws| - 1], pos, maxId);
    }
  }

  /** A batch taken from a queue the exporter owns: rows grow, and the cursor moves only if
      the exporter's own query was in it. */
  lemma BatchEffect(s: System, n: nat)
    requires Ascending(s.db.rows) && QueueOwned(s) && n <= |s.queue|
    ensures var db' := ExecAll(s.db, s.queue[..n]);
            && Grows(s.db.rows, db'.rows) && LastId(s.db.rows) <= LastId(db'.rows)
            && db'.cursor == if s.phase.WaitAdvance? && s.phase.pos < n then s.phase.maxId else s.db.cursor
  {
    var ws := s.queue[..n];
    BatchGrows(s.db, ws, 0);
    assert ws[..0] == [];
    GrowsLastId(s.db.rows, ExecAll(s.db, ws).rows);
    if s.phase.WaitAdvance? {
      BatchCursor(s.db, ws, s.phase.pos, s.phase.maxId);
    } else {
      BatchCursor(s.db, ws, -1, 0);
    }
  }

  lemma {:induction false} AfterSelects(rows: seq<Row>, after: nat)
    requires Ascending(rows)
    ensures forall r :: r in After(rows, after) <==> r in rows && r.id > after
    ensures After(rows, after) != [] ==> LastId(After(rows, after)) == LastId(rows)
  {
    if rows != [] {
      var n := |rows| - 1;
      AfterSelects(rows[..n], after);
      assert rows == rows[..n] + [rows[n]];
      ghost var before := After(rows[..n], after);
      assert before != [] ==> before[|before| - 1] in before;
    }
  }

  // ---------------------------------------------------------------- every step keeps the promise

  lemma CoversGrowth(db: Db, db': Db, rows: seq<Row>)
    requires Ascending(db.rows) && Covers(db, rows) && Grows(db.rows, db'.rows) && db'.cursor == db.cursor
    ensures Covers(db', rows)
  {
    if rows != [] {
      assert rows[|rows| - 1] in rows;
      IdsBounded(db.rows, rows[|rows| - 1]);
    }
    forall r | r in db'.rows && db'.cursor < r.id <= LastId(rows) ensures r in rows {
      NewRowsAbove(db.rows, db'.rows, r);
    }
  }

  lemma ReadRowsCovers(db: Db, view: Db)
    requires Grows(db.rows, view.rows) && view.cursor == db.cursor
    ensures Covers(view, After(view.rows, db.cursor))
  {
    AfterSelects(view.rows, db.cursor);
    var rows := After(view.rows, db.cursor);
    forall r | r in rows ensures r.id <= LastId(rows) {
      IdsBounded(view.rows, r);
    }
  }

  lemma QueueAfterBatch(s: System, n: nat)
    requires Inv(s) && n <= |s.queue|
    ensures QueueOwned(Next(s, Batch(n, true)))
  {
    var s' := Next(s, Batch(n, true));
    forall i | 0 <= i < |s'.queue| && s'.queue[i].SetCursor?
      ensures s'.phase == WaitAdvance(s'.queue[i].id, i)
    {
      assert s'.queue[i] == s.queue[n + i];
    }
  }

  lemma RowsAnswered(s: System, n: nat)
    requires Inv(s) && s.phase.WaitRows? && s.phase.pos < n <= |s.queue|
    ensures Covers(ExecAll(s.db, s.queue[..n]), After(ExecAll(s.db, s.queue[..s.phase.pos]).rows, s.phase.after))
  {
    var pos := s.phase.pos;
    var view := ExecAll(s.db, s.queue[..pos]);
    BatchEffect(s, n);
    BatchEffect(s, pos);
    ReadRowsCovers(s.db, view);
    BatchGrows(s.db, s.queue[..n], pos);
    assert s.queue[..n][..pos] == s.queue[..pos];
    CoversGrowth(view, ExecAll(s.db, s.queue[..n]), After(view.rows, s.phase.after));
  }

  lemma PhaseAfterBatch(s: System, n: nat)
    requires Inv(s) && n <= |s.queue|
    ensures PhaseSound(Next(s, Batch(n, true)))
  {
    var s' := Next(s, Batch(n, true));
    BatchEffect(s, n);
    match s.phase
    case WaitCursor(pos) =>
      if pos < n {
        BatchEffect(s, pos);
      }
    case WaitRows(after, pos) =>
      if pos < n {
        RowsAnswered(s, n);
      }
    case Writing(rows, written) => CoversGrowth(s.db, s'.db, rows);
    case WaitAdvance(maxId, pos) =>
      forall r | r in s'.db.rows && r.id <= maxId ensures r in s'.csv {
        NewRowsAbove(s.db.rows, s'.db.rows, r);
      }
    case _ =>
  }

  lemma CommittedBatch(s: System, n: nat)
    requires Inv(s) && n <= |s.queue|
    ensures Inv(Next(s, Batch(n, true)))
  {
    BatchEffect(s, n);
    QueueAfterBatch(s, n);
    PhaseAfterBatch(s, n);
    var s' := Next(s, Batch(n, true));
    forall r | r in s'.db.rows && r.id <= s'.db.cursor ensures r in s'.csv {
      NewRowsAbove(s.db.rows, s'.db.rows, r);
    }
  }

  lemma RowWritten(s: System)
    requires Inv(s) && s.phase.Writing? && s.phase.written < |s.phase.rows|
    ensures Inv(Next(s, WriteRow))
  {
    var row := s.phase.rows[s.phase.written];
    assert row in s.phase.rows && row in s.db.rows;
  }

  lemma AllWritten(db: Db, csv: seq<Row>, rows: seq<Row>)
    requires Ascending(db.rows) && NothingSkipped(db, csv) && Covers(db, rows) && rows != []
    requires forall i :: 0 <= i < |rows| ==> rows[i] in csv
    ensures db.cursor < LastId(rows) <= LastId(db.rows)
    ensures forall r :: r in db.rows && r.id <= LastId(rows) ==> r in csv
  {
    assert rows[|rows| - 1] in rows;
    IdsBounded(db.rows, rows[|rows| - 1]);
  }

  lemma WriteFinished(s: System)
    requires Inv(s) && s.phase.Writing?
    ensures Inv(Next(s, FinishWrite))
  {
    if s.phase.written == |s.phase.rows| && s.phase.rows != [] {
      AllWritten(s.db, s.csv, s.phase.rows);
    }
  }

  lemma Enqueued(s: System, step: Step)
    requires Inv(s) && (step.SubmitPoints? || step.StartExport? || step.AskRows?)
    ensures Inv(Next(s, step))
  {
  }

  /** Every step keeps the invariant, and no step moves the cursor back. */
  lemma StepKeeps(s: System, step: Step)
    requires Inv(s)
    ensures Inv(Next(s, step)) && Next(s, step).db.cursor >= s.db.cursor
  {
    match step
    case Batch(n, commits) =>
      if n <= |s.queue| && commits {
        CommittedBatch(s, n);
        BatchEffect(s, n);
      }
    case WriteRow => if s.phase.Writing? && s.phase.written < |s.phase.rows| { RowWritten(s); }
    case FinishWrite => if s.phase.Writing? { WriteFinished(s); }
    case SubmitPoints(_) => Enqueued(s, step);
    case StartExport => Enqueued(s, step);
    case AskRows => Enqueued(s, step);
    case _ =>
  }

  /** In every run, with crashes anywhere, the file skips nothing below the cursor and
      holds nothing but committed rows. */
  lemma {:induction false} NeverSkips(steps: seq<Step>)
    ensures Inv(Run(FRESH, steps))
    ensures NothingSkipped(Run(FRESH, steps).db, Run(FRESH, steps).csv)
    ensures OnlyCommitted(Run(FRESH, steps).db, Run(FRESH, steps).csv)
  {
    if steps != [] {
      NeverSkips(steps[..|steps| - 1]);
      StepKeeps(Run(FRESH, steps[..|steps| - 1]), steps[|steps| - 1]);
    }
  }

  /** The cursor never moves back, however long the run goes on. */
  lemma {:induction false} CursorMonotone(steps: seq<Step>, more: seq<Step>)
    ensures Run(FRESH, steps).db.cursor <= Run(FRESH, steps + more).db.cursor
    decreases |more|
  {
    if more == [] {
      assert steps + more == steps;
    } else {
      var init := more[..|more| - 1];
      CursorMonotone(steps, init);
      NeverSkips(steps + init);
      assert (steps + more)[..|steps + more| - 1] == steps + init;
      StepKeeps(Run(FRESH, steps + init), more[|more| - 1]);
    }
  }
}
