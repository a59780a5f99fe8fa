/**
  An execution run as a state machine over database commits
  (backend/app/modules/executions/service.py).  One worker processes the task; a
  user may ask to stop at any moment between two of its commits.  Every commit and
  every re-read of the task status is one action.
 */
module Execution {
  import opened Wrappers
  import opened Json
  import opened Templates
  import opened Extraction
  import opened Assertions
  import opened Suites

  datatype StepStatus = Pending | Running | Passed | Failed | Error | Skipped | Stopped

  datatype RunStatus = RunPending | RunRunning | RunCompleted | RunFailed | RunStopped

  datatype TaskStatus = TaskPending | TaskRunning | TaskSucceeded | TaskFailed | TaskCancelled

  datatype ErrorCategory =
    | RequestBuild | Security | Dns | Connection | Tls | Timeout | ResponseTooLarge
    | AssertionFailure | Precondition | VariableExtraction | Internal

  /** `missing` names the variable when a missing variable is the cause. */
  datatype StepError = StepError(category: ErrorCategory, code: string, missing: Option<VarRef>)

  datatype Row = Row(status: StepStatus, error: Option<StepError>, extracted: map<string, Json>)

  /** What the outside world answers while one step is processed. */
  datatype Reply =
    | Responded(response: Response)
    | RunnerFailed(category: ErrorCategory, code: string)
    | Refused(refusal: string)
    | Crashed

  datatype Attempt = Attempt(
    env: map<string, Json>,
    secret: map<string, Json>,
    namespaceError: Option<string>,     // a secret that cannot be read
    buildError: Option<string>,         // build_request failing after the template resolved
    reply: Reply)

  datatype Outcome = Judged(passed: bool, extracted: map<string, Json>) | Faulty(error: StepError)

  // -------------------------------------------------------------- one step's logic

  /** The category given to an application error code. */
  function AppFailure(code: string): StepError {
    StepError(
      if code == "VARIABLE_EXTRACTION_FAILED" then VariableExtraction
      else if code == "EXECUTION_VARIABLE_MISSING" then Precondition
      else RequestBuild,
      code, None)
  }

  function MissingVariable(ref: VarRef): StepError {
    AppFailure("EXECUTION_VARIABLE_MISSING").(missing := Some(ref))
  }

  function AssertCode(e: AssertError): string {
    match e
    case ConfigInvalid => "ASSERTION_CONFIG_INVALID"
    case PathInvalid => "ASSERTION_JSON_PATH_INVALID"
    case KindUnsupported => "ASSERTION_TYPE_UNSUPPORTED"
  }

  function JudgeResponse(host: Host, def: StepDef, r: Response): Outcome {
    match AllPassed(def.assertions, r)
    case Err(e) => Faulty(AppFailure(AssertCode(e)))
    case Ok(passed) =>
      match ExtractAll(host, def.rules, r)
      case Ok(extracted) => Judged(passed, extracted)
      case Err(ExtractionFailed) => Faulty(AppFailure("VARIABLE_EXTRACTION_FAILED"))
      case Err(BadPath) => Faulty(AppFailure("ASSERTION_JSON_PATH_INVALID"))
  }

  /** The body of `_process_step` between its two commits. */
  function RunStep(host: Host, def: StepDef, runtime: map<string, Json>, attempt: Attempt): Outcome {
    if attempt.namespaceError.Some? then Faulty(AppFailure(attempt.namespaceError.value))
    else if SectionNames(Request(def)) - SECTIONS != {} then Faulty(AppFailure("REQUEST_TEMPLATE_INVALID"))
    else
      match Resolve(host, Obj(Request(def)), Namespaces(attempt.env, attempt.secret, runtime))
      case Err(ref) => Faulty(MissingVariable(ref))
      case Ok(_) =>
        if attempt.buildError.Some? then Faulty(AppFailure(attempt.buildError.value))
        else
          match attempt.reply
          case RunnerFailed(category, code) => Faulty(StepError(category, code, None))
          case Refused(code) => Faulty(AppFailure(code))
          case Crashed => Faulty(StepError(Internal, "EXECUTION_STEP_FAILED", None))
          case Responded(r) => JudgeResponse(host, def, r)
  }

  // -------------------------------------------------------------- committed states

  datatype Db = Db(
    task: TaskStatus, run: RunStatus, stopOnFailure: bool,
    total: int, passed: int, failed: int, skipped: int,
    rows: seq<Row>, runtime: map<string, Json>)

  const IDLE_ROW := Row(Pending, None, map[])

  function InitialDb(n: nat, stopOnFailure: bool): Db {
    Db(TaskPending, RunPending, stopOnFailure, n, 0, 0, 0, seq(n, _ => IDLE_ROW), map[])
  }

  function StartDb(db: Db): Db { db.(task := TaskRunning, run := RunRunning) }

  function BeginDb(db: Db, i: nat): Db
    requires i < |db.rows|
  {
    db.(rows := db.rows[i := db.rows[i].(status := Running)])
  }

  function RecordDb(db: Db, i: nat, outcome: Outcome): Db
    requires i < |db.rows|
  {
    match outcome
    case Judged(true, extracted) =>
      db.(rows := db.rows[i := Row(Passed, None, extracted)],
          passed := db.passed + 1, runtime := db.runtime + extracted)
    case Judged(false, extracted) =>
      db.(rows := db.rows[i := Row(Failed, Some(StepError(AssertionFailure, "ASSERTION_FAILED", None)), extracted)],
          failed := db.failed + 1, runtime := db.runtime + extracted)
    case Faulty(error) =>
      db.(rows := db.rows[i := db.rows[i].(status := Error, error := Some(error))], failed := db.failed + 1)
  }

  /** Rows from an index on that are still pending take the given status. */
  function Mark(rows: seq<Row>, from: nat, status: StepStatus): (marked: seq<Row>)
    ensures |marked| == |rows|
  {
    seq(|rows|, j requires 0 <= j < |rows| =>
      if j >= from && rows[j].status == Pending then rows[j].(status := status) else rows[j])
  }

  function PendingFrom(rows: seq<Row>, from: nat): nat {
    if rows == [] then 0
    else
      var last := |rows| - 1;
      PendingFrom(rows[..last], from) + if last >= from && rows[last].status == Pending then 1 else 0
  }

  function SkipDb(db: Db, i: nat): Db {
    db.(rows := Mark(db.rows, i + 1, Skipped), skipped := db.skipped + PendingFrom(db.rows, i + 1))
  }

  function StopRowsDb(db: Db): Db {
    db.(rows := Mark(db.rows, 0, Stopped), skipped := db.skipped + PendingFrom(db.rows, 0))
  }

  function HaltDb(db: Db): Db { StopRowsDb(db).(run := RunStopped) }

  function CompleteDb(db: Db): Db { db.(task := TaskSucceeded, run := RunCompleted) }

  function FailDb(db: Db): Db { db.(task := TaskFailed, run := RunFailed) }

  /** `request_execution_stop`, once its guard on the run status has passed. */
  function UserStopDb(db: Db): Db {
    var cancelled := db.(task := TaskCancelled);
    if db.run == RunPending then HaltDb(cancelled) else cancelled
  }

  // --------------------------------------------------------------------- machine

  /** Where the worker is; the index of Final, Complete and Done counts executed steps. */
  datatype Pc =
    | Queued
    | Claimed
    | Check(i: nat)       // about to re-read the task before step i
    | Begin(i: nat)       // saw no cancellation, about to begin step i
    | Halt(i: nat)        // saw a cancellation, about to stop the rest
    | InStep(i: nat)      // step i is committed as running
    | Skip(i: nat)        // step i failed under stop_on_failure
    | Final(k: nat)       // loop over, about to re-read the task
    | Complete(k: nat)    // saw no cancellation, about to complete
    | Done(k: nat)

  /**
    `raced` and `cancelledAt` are history: whether the start commit overwrote a run
    that was no longer pending, and where the worker was at the first stop request that
    the start commit did not overwrite.
   */
  datatype World = World(pc: Pc, db: Db, raced: bool, cancelledAt: Option<Pc>)

  datatype Action =
    | Claim | Start | EnvironmentMissing
    | Look | BeginStep | FinishStep(attempt: Attempt) | SkipRest | StopRest
    | LookFinal | CompleteRun | Abort
    | UserStop

  function Initial(n: nat, stopOnFailure: bool): World {
    World(Queued, InitialDb(n, stopOnFailure), false, None)
  }

  /** Whether a step failed, in the sense the stop policy uses. */
  predicate Failing(row: Row) { row.status == Failed || row.status == Error }

  predicate Executed(row: Row) { row.status == Passed || Failing(row) }

  /** Where the loop goes after step i. */
  function AfterStep(db: Db, i: nat): Pc
    requires i < |db.rows|
  {
    if db.stopOnFailure && Failing(db.rows[i]) then Skip(i)
    else if i + 1 < |db.rows| then Check(i + 1)
    else Final(i + 1)
  }

  predicate InsideTry(pc: Pc) { !(pc.Queued? || pc.Claimed? || pc.Done?) }

  function ExecutedAt(pc: Pc): nat {
    match pc
    case Check(i) => i case Begin(i) => i case Halt(i) => i case InStep(i) => i
    case Skip(i) => i + 1
    case Final(k) => k case Complete(k) => k case Done(k) => k
    case _ => 0
  }

  /** One move of the worker; a move that is not enabled changes nothing. */
  function Work(host: Host, defs: seq<StepDef>, w: World, a: Action): (next: World)
    ensures |next.db.rows| == |w.db.rows|
  {
    var db, n := w.db, |w.db.rows|;
    match (a, w.pc)
    case (Claim, Queued) => if db.task == TaskPending then w.(pc := Claimed) else w
    case (Start, Claimed) =>
      w.(pc := if n > 0 then Check(0) else Final(0), db := StartDb(db), raced := db.run != RunPending, cancelledAt := None)
    case (EnvironmentMissing, Claimed) => w.(pc := Done(0), db := FailDb(db))
    case (Look, Check(i)) => w.(pc := if db.task == TaskCancelled then Halt(i) else Begin(i))
    case (BeginStep, Begin(i)) => if i < n then w.(pc := InStep(i), db := BeginDb(db, i)) else w
    case (FinishStep(attempt), InStep(i)) =>
      if i < n && i < |defs| then
        var next := RecordDb(db, i, RunStep(host, defs[i], db.runtime, attempt));
        w.(pc := AfterStep(next, i), db := next)
      else w
    case (SkipRest, Skip(i)) => w.(pc := Final(i + 1), db := SkipDb(db, i))
    case (StopRest, Halt(i)) => w.(pc := Done(i), db := HaltDb(db))
    case (LookFinal, Final(k)) => w.(pc := if db.task == TaskCancelled then Done(k) else Complete(k))
    case (CompleteRun, Complete(k)) => w.(pc := Done(k), db := CompleteDb(db))
    case (Abort, pc) => if InsideTry(pc) then w.(pc := Done(ExecutedAt(pc)), db := FailDb(db)) else w
    case _ => w
  }

  /** A stop request is refused once the run has ended. */
  function RequestStop(w: World): (next: World)
    ensures |next.db.rows| == |w.db.rows|
  {
    if w.db.run == RunPending || w.db.run == RunRunning then
      w.(db := UserStopDb(w.db), cancelledAt := if w.cancelledAt.None? then Some(w.pc) else w.cancelledAt)
    else w
  }

  function Apply(host: Host, defs: seq<StepDef>, w: World, a: Action): (next: World)
    ensures |next.db.rows| == |w.db.rows|
  {
    if a.UserStop? then RequestStop(w) else Work(host, defs, w, a)
  }

  /** The state after any sequence of actions, in any interleaving. */
  function After(host: Host, defs: seq<StepDef>, stopOnFailure: bool, actions: seq<Action>): (w: World)
    ensures |w.db.rows| == |defs|
  {
    if actions == [] then Initial(|defs|, stopOnFailure)
    else
      var n := |actions| - 1;
      Apply(host, defs, After(host, defs, stopOnFailure, actions[..n]), actions[n])
  }

  // ------------------------------------------------------------ the control shape

  function IdleStatus(raced: bool): StepStatus { if raced then Stopped else Pending }

  function SkipStatus(raced: bool): StepStatus { if raced then Stopped else Skipped }

  /** The first k steps were executed, all passing if failures stop the run. */
  ghost predicate Ran(db: Db, k: nat) {
    k <= |db.rows| &&
    forall j :: 0 <= j < k ==> Executed(db.rows[j]) && (db.stopOnFailure ==> db.rows[j].status == Passed)
  }

  /** Steps from `from` on were never begun and have the given status. */
  ghost predicate Rest(db: Db, from: nat, status: StepStatus) {
    forall j :: from <= j < |db.rows| ==> db.rows[j] == Row(status, None, map[])
  }

  /**
    The loop ran its course: an executed prefix, and a skipped suffix only when
    failures stop the run and the last executed step is the one that failed.
   */
  ghost predicate LoopEnded(db: Db, k: nat, skipped: StepStatus) {
    && k <= |db.rows|
    && (forall j :: 0 <= j < k ==> Executed(db.rows[j]))
    && Rest(db, k, skipped)
    && (k < |db.rows| ==> db.stopOnFailure && k > 0 && Failing(db.rows[k - 1]))
    && (db.stopOnFailure ==> forall j :: 0 <= j < k - 1 ==> db.rows[j].status == Passed)
  }

  ghost predicate Active(db: Db) {
    db.run == RunRunning && (db.task == TaskRunning || db.task == TaskCancelled)
  }

  ghost predicate Fresh(db: Db) {
    db.task == TaskPending && db.run == RunPending && Rest(db, 0, Pending)
  }

  ghost predicate StoppedEarly(db: Db) {
    db.task == TaskCancelled && db.run == RunStopped && Rest(db, 0, Stopped)
  }

  ghost predicate Shape(w: World, n: nat, stopOnFailure: bool) {
    var db := w.db;
    && |db.rows| == n == db.total && db.stopOnFailure == stopOnFailure
    && match w.pc
       case Queued => !w.raced && (Fresh(db) || StoppedEarly(db))
       case Claimed => !w.raced && (Fresh(db) || StoppedEarly(db))
       case Check(i) => Active(db) && i < n && Ran(db, i) && Rest(db, i, IdleStatus(w.raced))
       case Begin(i) => Active(db) && i < n && Ran(db, i) && Rest(db, i, IdleStatus(w.raced))
       case Halt(i) => Active(db) && db.task == TaskCancelled && i < n && Ran(db, i) && Rest(db, i, IdleStatus(w.raced))
       case InStep(i) =>
         Active(db) && i < n && Ran(db, i) && db.rows[i] == Row(Running, None, map[]) &&
         Rest(db, i + 1, IdleStatus(w.raced))
       case Skip(i) =>
         Active(db) && i < n && Ran(db, i) && db.stopOnFailure && Failing(db.rows[i]) &&
         Rest(db, i + 1, IdleStatus(w.raced))
       case Final(k) => Active(db) && LoopEnded(db, k, SkipStatus(w.raced))
       case Complete(k) => Active(db) && LoopEnded(db, k, SkipStatus(w.raced))
       case Done(k) =>
         match db.run
         case RunPending => false
         case RunCompleted => db.task == TaskSucceeded && LoopEnded(db, k, SkipStatus(w.raced))
         case RunRunning => db.task == TaskCancelled && LoopEnded(db, k, SkipStatus(w.raced))
         case RunStopped => db.task == TaskCancelled && k < n && Ran(db, k) && Rest(db, k, Stopped)
         case RunFailed => db.task == TaskFailed
  }

  lemma StopKeepsShape(w: World, n: nat, stopOnFailure: bool)
    requires Shape(w, n, stopOnFailure)
    ensures Shape(RequestStop(w), n, stopOnFailure)
  {
  }

  lemma {:induction false} FinishKeepsShape(host: Host, defs: seq<StepDef>, w: World, attempt: Attempt, stopOnFailure: bool)
    requires Shape(w, |defs|, stopOnFailure) && w.pc.InStep?
    ensures Shape(Work(host, defs, w, FinishStep(attempt)), |defs|, stopOnFailure)
  {
    hide RunStep;
  }

  /** Moves that rewrite rows: beginning a step, skipping or stopping the rest. */
  lemma RowMovesKeepShape(host: Host, defs: seq<StepDef>, w: World, a: Action, stopOnFailure: bool)
    requires Shape(w, |defs|, stopOnFailure)
    requires (a.BeginStep? && w.pc.Begin?) || (a.SkipRest? && w.pc.Skip?) || (a.StopRest? && w.pc.Halt?)
    ensures Shape(Work(host, defs, w, a), |defs|, stopOnFailure)
  {
    hide RunStep;
  }

  predicate RewritesRows(a: Action, pc: Pc) {
    (a.FinishStep? && pc.InStep?) || (a.BeginStep? && pc.Begin?) ||
    (a.SkipRest? && pc.Skip?) || (a.StopRest? && pc.Halt?)
  }

  lemma OtherMovesKeepShape(host: Host, defs: seq<StepDef>, w: World, a: Action, stopOnFailure: bool)
    requires Shape(w, |defs|, stopOnFailure) && !RewritesRows(a, w.pc)
    ensures Shape(Work(host, defs, w, a), |defs|, stopOnFailure)
  {
    hide RunStep;
  }

  lemma {:induction false} ShapeKept(host: Host, defs: seq<StepDef>, w: World, a: Action, stopOnFailure: bool)
    requires Shape(w, |defs|, stopOnFailure)
    ensures Shape(Apply(host, defs, w, a), |defs|, stopOnFailure)
  {
    hide Shape, Work, RequestStop;
    if a.UserStop? {
      StopKeepsShape(w, |defs|, stopOnFailure);
    } else if a.FinishStep? && w.pc.InStep? {
      FinishKeepsShape(host, defs, w, a.attempt, stopOnFailure);
    } else if RewritesRows(a, w.pc) {
      RowMovesKeepShape(host, defs, w, a, stopOnFailure);
    } else {
      OtherMovesKeepShape(host, defs, w, a, stopOnFailure);
    }
  }

  lemma {:induction false} ShapeHolds(host: Host, defs: seq<StepDef>, stopOnFailure: bool, actions: seq<Action>)
    ensures Shape(After(host, defs, stopOnFailure, actions), |defs|, stopOnFailure)
  {
    hide Apply;
    if actions != [] {
      var n := |actions| - 1;
      ShapeHolds(host, defs, stopOnFailure, actions[..n]);
      ShapeKept(host, defs, After(host, defs, stopOnFailure, actions[..n]), actions[n], stopOnFailure);
    }
  }

  // ----------------------------------------------------------------- conservation

  function Count(rows: seq<Row>, statuses: set<StepStatus>): nat {
    if rows == [] then 0
    else
      var last := |rows| - 1;
      Count(rows[..last], statuses) + if rows[last].status in statuses then 1 else 0
  }

  ghost predicate AtMostOneRunning(rows: seq<Row>) {
    forall i, j :: 0 <= i < j < |rows| ==> !(rows[i].status == Running && rows[j].status == Running)
  }

  /** The incremental counters agree with the rows. */
  ghost predicate Conserved(db: Db) {
    && db.passed == Count(db.rows, {Passed})
    && db.failed == Count(db.rows, {Failed, Error})
    && db.skipped == Count(db.rows, {Skipped, Stopped})
    && db.total == |db.rows|
    && AtMostOneRunning(db.rows)
  }

  lemma {:induction false} CountUpdate(rows: seq<Row>, i: nat, row: Row, statuses: set<StepStatus>)
    requires i < |rows|
    ensures Count(rows[i := row], statuses) ==
            Count(rows, statuses) - (if rows[i].status in statuses then 1 else 0)
                                  + (if row.status in statuses then 1 else 0)
  {
    var last := |rows| - 1;
    var updated := rows[i := row];
    if i == last {
      assert updated[..last] == rows[..last];
    } else {
      assert updated[..last] == rows[..last][i := row];
      CountUpdate(rows[..last], i, row, statuses);
    }
  }

  lemma {:induction false} CountMark(rows: seq<Row>, from: nat, status: StepStatus, statuses: set<StepStatus>)
    requires Pending !in statuses
    ensures Count(Mark(rows, from, status), statuses) ==
            Count(rows, statuses) + if status in statuses then PendingFrom(rows, from) else 0
  {
    if rows != [] {
      var last := |rows| - 1;
      assert Mark(rows, from, status)[..last] == Mark(rows[..last], from, status);
      CountMark(rows[..last], from, status, statuses);
    }
  }

  lemma {:induction false} CountNone(rows: seq<Row>, statuses: set<StepStatus>)
    requires forall j :: 0 <= j < |rows| ==> rows[j].status !in statuses
    ensures Count(rows, statuses) == 0
  {
    if rows != [] {
      CountNone(rows[..|rows| - 1], statuses);
    }
  }

  lemma {:induction false} CountAll(rows: seq<Row>, statuses: set<StepStatus>)
    ensures Count(rows, statuses) <= |rows|
    ensures Count(rows, statuses) == |rows| <==> forall j :: 0 <= j < |rows| ==> rows[j].status in statuses
  {
    if rows != [] {
      var last := |rows| - 1;
      CountAll(rows[..last], statuses);
      assert forall j :: 0 <= j < last ==> rows[..last][j] == rows[j];
      if forall j :: 0 <= j < last ==> rows[..last][j].status in statuses {
        assert forall j :: 0 <= j < last ==> rows[j].status in statuses;
      }
    }
  }

  /** The statuses split the rows: the five counts add up to the number of rows. */
  lemma {:induction false} CountsPartition(rows: seq<Row>)
    ensures Count(rows, {Passed}) + Count(rows, {Failed, Error}) + Count(rows, {Skipped, Stopped})
            + Count(rows, {Pending}) + Count(rows, {Running}) == |rows|
  {
    if rows != [] {
      var last := |rows| - 1;
      CountsPartition(rows[..last]);
      match rows[last].status
      case Pending => case Running => case Passed => case Failed =>
      case Error => case Skipped => case Stopped =>
    }
  }

  /** Some step was begun. */
  predicate Begun(rows: seq<Row>) {
    exists j :: 0 <= j < |rows| && rows[j].status in {Running, Passed, Failed, Error}
  }

  /** Counting facts that hold on every path, raced or not. */
  ghost predicate Counted(w: World) {
    var db := w.db;
    && db.passed == Count(db.rows, {Passed})
    && db.failed == Count(db.rows, {Failed, Error})
    && AtMostOneRunning(db.rows)
    && (!w.raced ==> db.skipped == Count(db.rows, {Skipped, Stopped}))
    && (w.raced ==> db.skipped == |db.rows| && forall j :: 0 <= j < |db.rows| ==>
                      db.rows[j].status in {Stopped, Running, Passed, Failed, Error})
  }

  lemma {:induction false} PendingNone(rows: seq<Row>, from: nat)
    requires forall j :: 0 <= j < |rows| ==> rows[j].status != Pending
    ensures PendingFrom(rows, from) == 0
  {
    if rows != [] {
      PendingNone(rows[..|rows| - 1], from);
    }
  }

  /** Replacing one row moves the three counts by what leaves and what enters. */
  lemma {:induction false} CountUpdates(rows: seq<Row>, i: nat, row: Row)
    requires i < |rows|
    ensures forall s | s in {{Passed}, {Failed, Error}, {Skipped, Stopped}} ::
              Count(rows[i := row], s) == Count(rows, s) - (if rows[i].status in s then 1 else 0)
                                                         + (if row.status in s then 1 else 0)
  {
    CountUpdate(rows, i, row, {Passed});
    CountUpdate(rows, i, row, {Failed, Error});
    CountUpdate(rows, i, row, {Skipped, Stopped});
  }

  lemma CountMarks(rows: seq<Row>, from: nat, status: StepStatus)
    requires status in {Skipped, Stopped}
    ensures Count(Mark(rows, from, status), {Passed}) == Count(rows, {Passed})
    ensures Count(Mark(rows, from, status), {Failed, Error}) == Count(rows, {Failed, Error})
    ensures Count(Mark(rows, from, status), {Skipped, Stopped}) ==
            Count(rows, {Skipped, Stopped}) + PendingFrom(rows, from)
    ensures AtMostOneRunning(rows) ==> AtMostOneRunning(Mark(rows, from, status))
  {
    CountMark(rows, from, status, {Passed});
    CountMark(rows, from, status, {Failed, Error});
    CountMark(rows, from, status, {Skipped, Stopped});
  }

  lemma BeginCounted(w: World, n: nat, stopOnFailure: bool, i: nat)
    requires Shape(w, n, stopOnFailure) && Counted(w) && w.pc == Begin(i)
    ensures Counted(w.(pc := InStep(i), db := BeginDb(w.db, i)))
  {
    hide Count;
    CountUpdates(w.db.rows, i, w.db.rows[i].(status := Running));
  }

  lemma RecordCounted(w: World, n: nat, stopOnFailure: bool, i: nat, outcome: Outcome, pc: Pc)
    requires Shape(w, n, stopOnFailure) && Counted(w) && w.pc == InStep(i)
    ensures Counted(w.(pc := pc, db := RecordDb(w.db, i, outcome)))
  {
    hide Count;
    CountUpdates(w.db.rows, i, RecordDb(w.db, i, outcome).rows[i]);
  }

  /** Skipping or stopping rows from an index on moves them from pending to skipped. */
  lemma MarkCounted(w: World, from: nat, status: StepStatus, db: Db, pc: Pc)
    requires Counted(w) && status in {Skipped, Stopped}
    requires db.rows == Mark(w.db.rows, from, status) && db.skipped == w.db.skipped + PendingFrom(w.db.rows, from)
    requires db.passed == w.db.passed && db.failed == w.db.failed
    ensures Counted(w.(pc := pc, db := db))
  {
    hide Count, PendingFrom;
    CountMarks(w.db.rows, from, status);
    if w.raced {
      PendingNone(w.db.rows, from);
    }
  }

  lemma StartCounted(w: World, n: nat, stopOnFailure: bool)
    requires Shape(w, n, stopOnFailure) && Counted(w) && w.pc.Claimed?
    ensures Counted(w.(db := StartDb(w.db), raced := w.db.run != RunPending, cancelledAt := None))
  {
    CountAll(w.db.rows, {Skipped, Stopped});
  }

  lemma {:induction false} CountedKept(host: Host, defs: seq<StepDef>, w: World, a: Action, stopOnFailure: bool)
    requires Shape(w, |defs|, stopOnFailure) && Counted(w)
    ensures Counted(Apply(host, defs, w, a))
  {
    hide RunStep, Count, PendingFrom, Mark;
    var db, n := w.db, |defs|;
    match (a, w.pc)
    case (Start, Claimed) => StartCounted(w, n, stopOnFailure);
    case (BeginStep, Begin(i)) => BeginCounted(w, n, stopOnFailure, i);
    case (FinishStep(attempt), InStep(i)) =>
      var outcome := RunStep(host, defs[i], db.runtime, attempt);
      RecordCounted(w, n, stopOnFailure, i, outcome, AfterStep(RecordDb(db, i, outcome), i));
    case (SkipRest, Skip(i)) => MarkCounted(w, i + 1, Skipped, SkipDb(db, i), Final(i + 1));
    case (StopRest, Halt(i)) => MarkCounted(w, 0, Stopped, HaltDb(db), Done(i));
    case (UserStop, pc) =>
      if db.run == RunPending {
        MarkCounted(w, 0, Stopped, UserStopDb(db), pc);
      }
    case _ =>
  }

  lemma {:induction false} CountedHolds(host: Host, defs: seq<StepDef>, stopOnFailure: bool, actions: seq<Action>)
    ensures Counted(After(host, defs, stopOnFailure, actions))
  {
    hide Apply, Counted;
    if actions != [] {
      var n := |actions| - 1;
      CountedHolds(host, defs, stopOnFailure, actions[..n]);
      ShapeHolds(host, defs, stopOnFailure, actions[..n]);
      CountedKept(host, defs, After(host, defs, stopOnFailure, actions[..n]), actions[n], stopOnFailure);
    } else {
      InitialCounted(|defs|, stopOnFailure);
    }
  }

  lemma InitialCounted(n: nat, stopOnFailure: bool)
    ensures Counted(Initial(n, stopOnFailure))
  {
    var rows := InitialDb(n, stopOnFailure).rows;
    CountNone(rows, {Passed});
    CountNone(rows, {Failed, Error});
    CountNone(rows, {Skipped, Stopped});
  }

  /**
    Conservation, exactly: in every state any interleaving reaches, the counters agree
    with the rows unless the start commit overwrote a stopped run and a step was
    begun after that; and then they never agree again.
   */
  lemma ConservationExact(host: Host, defs: seq<StepDef>, stopOnFailure: bool, actions: seq<Action>)
    ensures var w := After(host, defs, stopOnFailure, actions);
            Conserved(w.db) <==> !(w.raced && Begun(w.db.rows))
  {
    CountedHolds(host, defs, stopOnFailure, actions);
    ShapeHolds(host, defs, stopOnFailure, actions);
    var w := After(host, defs, stopOnFailure, actions);
    CountAll(w.db.rows, {Skipped, Stopped});
  }

  /** Once a raced run has begun a step, no later action brings the counters back. */
  lemma RacedForever(host: Host, defs: seq<StepDef>, w: World, a: Action, stopOnFailure: bool)
    requires Shape(w, |defs|, stopOnFailure) && w.raced && Begun(w.db.rows)
    ensures Apply(host, defs, w, a).raced && Begun(Apply(host, defs, w, a).db.rows)
  {
    hide RunStep, PendingFrom;
    var j :| 0 <= j < |w.db.rows| && w.db.rows[j].status in {Running, Passed, Failed, Error};
    var next := Apply(host, defs, w, a).db.rows;
    assert next[j].status in {Running, Passed, Failed, Error};
  }

  lemma AfterSnoc(host: Host, defs: seq<StepDef>, stopOnFailure: bool, actions: seq<Action>, a: Action)
    ensures After(host, defs, stopOnFailure, actions + [a]) ==
            Apply(host, defs, After(host, defs, stopOnFailure, actions), a)
  {
    assert (actions + [a])[..|actions|] == actions;
  }

  /** One step, stopped while the task was claimed but not started. */
  lemma StopAfterClaim(host: Host, defs: seq<StepDef>)
    requires |defs| == 1
    ensures After(host, defs, false, [Claim] + [UserStop]) ==
            World(Claimed, Db(TaskCancelled, RunStopped, false, 1, 0, 0, 1, [IDLE_ROW.(status := Stopped)], map[]),
                  false, Some(Claimed))
  {
    var w := Initial(1, false);
    assert w.db.rows == [IDLE_ROW];
    AfterSnoc(host, defs, false, [], Claim);
    AfterSnoc(host, defs, false, [Claim], UserStop);
    assert [] + [Claim] == [Claim];
    assert [IDLE_ROW][..0] == [] && PendingFrom([], 0) == 0 && PendingFrom([IDLE_ROW], 0) == 1;
    assert Mark([IDLE_ROW], 0, Stopped) == [IDLE_ROW.(status := Stopped)];
  }

  /** A stop that commits between the claim and the start commit breaks the counters. */
  lemma {:induction false} RacedStartExample(host: Host, def: StepDef)
    ensures var w := After(host, [def], false, [Claim] + [UserStop] + [Start] + [Look] + [BeginStep]);
            w.raced && w.db.skipped == 1 && w.db.rows == [IDLE_ROW.(status := Running)] && !Conserved(w.db)
  {
    hide After, Conserved, PendingFrom, RunStep;
    var defs, stopped := [def], IDLE_ROW.(status := Stopped);
    StopAfterClaim(host, defs);
    AfterSnoc(host, defs, false, [Claim] + [UserStop], Start);
    AfterSnoc(host, defs, false, [Claim] + [UserStop] + [Start], Look);
    AfterSnoc(host, defs, false, [Claim] + [UserStop] + [Start] + [Look], BeginStep);
    var w := After(host, defs, false, [Claim] + [UserStop] + [Start] + [Look] + [BeginStep]);
    assert w.db.rows == [stopped][0 := stopped.(status := Running)];
    assert w.db.rows[0].status == Running;
    ConservationExact(host, defs, false, [Claim] + [UserStop] + [Start] + [Look] + [BeginStep]);
  }

  /** The five counts of a conserved run add up to its total. */
  lemma ConservedSum(db: Db)
    requires Conserved(db)
    ensures db.passed + db.failed + db.skipped + Count(db.rows, {Pending}) + Count(db.rows, {Running}) == db.total
  {
    CountsPartition(db.rows);
  }

  // -------------------------------------------------------------- finished runs

  /**
    The shape of a finished run.  Completed: an executed prefix and a suffix that was never
    begun, the suffix present only when failures stop the run, and then the last executed
    step is the only one that did not pass; the suffix is skipped, or still stopped in a
    revived run.  Stopped: an executed prefix and a stopped suffix.
   */
  lemma {:induction false} FinishedShape(host: Host, defs: seq<StepDef>, stopOnFailure: bool, actions: seq<Action>)
    ensures var w := After(host, defs, stopOnFailure, actions);
            && (w.db.run == RunCompleted ==>
                  w.pc.Done? && w.db.task == TaskSucceeded && LoopEnded(w.db, w.pc.k, SkipStatus(w.raced)))
            && (w.db.run == RunStopped ==>
                  w.db.task == TaskCancelled && ExecutedAt(w.pc) <= |defs| &&
                  Ran(w.db, ExecutedAt(w.pc)) && Rest(w.db, ExecutedAt(w.pc), Stopped))
  {
    ShapeHolds(host, defs, stopOnFailure, actions);
  }

  // ------------------------------------------ where a stop lands decides the ending

  /** The stop arrived after the last look at the task before step i ended. */
  predicate DuringStep(c: Pc, i: int) {
    i >= 0 && (c == Begin(i) || c == InStep(i))
  }

  predicate BeforeLook(c: Pc, i: nat) { c == Check(i) || DuringStep(c, i - 1) }

  predicate BeforeFinalLook(c: Pc, k: nat) {
    c == Final(k) || DuringStep(c, k - 1) || (k > 0 && c == Skip(k - 1))
  }

  /** What the worker's position says about the moment of the first stop request. */
  ghost predicate Traced(w: World) {
    && (!w.pc.Done? ==> (w.cancelledAt.Some? <==> w.db.task == TaskCancelled))
    && (w.cancelledAt.Some? ==>
          var c := w.cancelledAt.value;
          match w.pc
          case Queued => c == Queued
          case Claimed => c == Queued || c == Claimed
          case Check(i) => BeforeLook(c, i)
          case Begin(i) => c == Begin(i)
          case Halt(i) => BeforeLook(c, i)
          case InStep(i) => DuringStep(c, i)
          case Skip(i) => DuringStep(c, i) || c == Skip(i)
          case Final(k) => BeforeFinalLook(c, k)
          case Complete(k) => c == Complete(k)
          case Done(k) =>
            && (w.db.run == RunCompleted ==> c == Complete(k))
            && (w.db.run == RunRunning ==> BeforeFinalLook(c, k))
            && (w.db.run == RunStopped ==> BeforeLook(c, k)))
    && (w.pc.Done? && w.db.run in {RunRunning, RunStopped} ==> w.cancelledAt.Some?)
  }

  lemma {:induction false} TracedKept(host: Host, defs: seq<StepDef>, w: World, a: Action, stopOnFailure: bool)
    requires Shape(w, |defs|, stopOnFailure) && Traced(w)
    ensures Traced(Apply(host, defs, w, a))
  {
    hide RunStep, Mark, PendingFrom, Ran, Rest;
  }

  lemma {:induction false} TracedHolds(host: Host, defs: seq<StepDef>, stopOnFailure: bool, actions: seq<Action>)
    ensures Traced(After(host, defs, stopOnFailure, actions))
  {
    hide Apply;
    if actions != [] {
      var n := |actions| - 1;
      TracedHolds(host, defs, stopOnFailure, actions[..n]);
      ShapeHolds(host, defs, stopOnFailure, actions[..n]);
      TracedKept(host, defs, After(host, defs, stopOnFailure, actions[..n]), actions[n], stopOnFailure);
    }
  }

  /**
    How a processed run ends, told from where the worker was at the first stop request:
    completed if nobody asked or the request came after the final look; left running
    if it came during the last executed step or later; stopped right after the step
    in flight otherwise.
   */
  function Ending(rows: seq<Row>, stopOnFailure: bool, cancelledAt: Option<Pc>): RunStatus {
    match cancelledAt
    case None => RunCompleted
    case Some(Complete(_)) => RunCompleted
    case Some(Check(i)) => RunStopped
    case Some(Begin(i)) => if LastStep(rows, stopOnFailure, i) then RunRunning else RunStopped
    case Some(InStep(i)) => if LastStep(rows, stopOnFailure, i) then RunRunning else RunStopped
    case Some(_) => RunRunning
  }

  predicate LastStep(rows: seq<Row>, stopOnFailure: bool, i: nat) {
    i + 1 >= |rows| || (stopOnFailure && Failing(rows[i]))
  }

  lemma EndingOf(w: World, n: nat, stopOnFailure: bool)
    requires Shape(w, n, stopOnFailure) && Traced(w) && w.pc.Done? && w.db.run != RunFailed
    ensures w.db.run == Ending(w.db.rows, stopOnFailure, w.cancelledAt)
  {
  }

  /** A cancelled run is stopped, or left running for ever, exactly as `Ending` tells. */
  lemma {:induction false} StopOutcome(host: Host, defs: seq<StepDef>, stopOnFailure: bool, actions: seq<Action>)
    ensures var w := After(host, defs, stopOnFailure, actions);
            w.pc.Done? && w.db.run != RunFailed ==>
              w.db.run == Ending(w.db.rows, stopOnFailure, w.cancelledAt)
  {
    hide After, Shape, Traced, Ending;
    ShapeHolds(host, defs, stopOnFailure, actions);
    TracedHolds(host, defs, stopOnFailure, actions);
    var w := After(host, defs, stopOnFailure, actions);
    if w.pc.Done? && w.db.run != RunFailed {
      EndingOf(w, |defs|, stopOnFailure);
    }
  }

  /**
    So a run the user stopped before it started, revived by the start commit, is completed
    unless a further stop request comes or an internal failure ends it.
   */
  lemma RevivedRunCompletes(host: Host, defs: seq<StepDef>, stopOnFailure: bool, actions: seq<Action>)
    ensures var w := After(host, defs, stopOnFailure, actions);
            w.raced && w.pc.Done? && w.cancelledAt.None? ==> w.db.run == RunCompleted || w.db.run == RunFailed
  {
    StopOutcome(host, defs, stopOnFailure, actions);
    hide After;
  }

  /** Claim, start and begin the only step of a run. */
  lemma OneStepBegun(host: Host, def: StepDef)
    ensures After(host, [def], false, [Claim] + [Start] + [Look] + [BeginStep]) ==
            World(InStep(0), Db(TaskRunning, RunRunning, false, 1, 0, 0, 0, [IDLE_ROW.(status := Running)], map[]), false, None)
  {
    hide After, RunStep;
    var defs := [def];
    assert Initial(1, false).db.rows == [IDLE_ROW];
    assert After(host, defs, false, []) == Initial(1, false) by { NothingDone(host, defs, false); }
    AfterSnoc(host, defs, false, [], Claim);
    AfterSnoc(host, defs, false, [Claim], Start);
    AfterSnoc(host, defs, false, [Claim] + [Start], Look);
    AfterSnoc(host, defs, false, [Claim] + [Start] + [Look], BeginStep);
    assert [] + [Claim] == [Claim];
    assert [IDLE_ROW][0 := IDLE_ROW.(status := Running)] == [IDLE_ROW.(status := Running)];
  }

  lemma NothingDone(host: Host, defs: seq<StepDef>, stopOnFailure: bool)
    ensures After(host, defs, stopOnFailure, []) == Initial(|defs|, stopOnFailure)
  {
  }

  /** A stop request while the only step is in flight: the worker is done and the run stays running. */
  lemma {:induction false} LeftRunningExample(host: Host, def: StepDef, attempt: Attempt)
    ensures var begun := [Claim] + [Start] + [Look] + [BeginStep];
            var w := After(host, [def], false, begun + [UserStop] + [FinishStep(attempt)] + [LookFinal]);
            w.pc == Done(1) && w.db.run == RunRunning && w.db.task == TaskCancelled
  {
    var begun := [Claim] + [Start] + [Look] + [BeginStep];
    OneStepBegun(host, def);
    hide After, RunStep;
    AfterSnoc(host, [def], false, begun, UserStop);
    AfterSnoc(host, [def], false, begun + [UserStop], FinishStep(attempt));
    AfterSnoc(host, [def], false, begun + [UserStop] + [FinishStep(attempt)], LookFinal);
  }

  /** Nothing moves it any more: only a further stop request is accepted, and changes nothing. */
  lemma {:induction false} LeftRunningForever(host: Host, defs: seq<StepDef>, w: World, a: Action)
    requires w.pc.Done? && w.db.run == RunRunning && w.db.task == TaskCancelled && w.cancelledAt.Some?
    ensures Apply(host, defs, w, a) == w
  {
    hide RunStep;
  }
}
