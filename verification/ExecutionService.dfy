/**
  The executor's own form: records updated in place, one method per operation
  (backend/app/modules/executions/service.py).  Each commit is shown to be one
  action of the state machine in `Execution`, so what is proved of every
  interleaving holds of `ProcessExecutionTask`.
 */
module ExecutionService {
  import opened Wrappers
  import opened Json
  import opened Templates
  import opened Suites
  import opened Execution
  import opened Verdicts

  class StepRecord {
    const def: StepDef
    var status: StepStatus
    var error: Option<StepError>
    var extracted: map<string, Json>

    constructor (def: StepDef)
      ensures this.def == def && AsRow() == IDLE_ROW
    {
      this.def := def;
      status, error, extracted := Pending, None, map[];
    }

    function AsRow(): Row
      reads this
    {
      Row(status, error, extracted)
    }
  }

  function RowsOf(steps: seq<StepRecord>): (rows: seq<Row>)
    reads steps
    ensures |rows| == |steps|
    ensures forall i :: 0 <= i < |steps| ==> rows[i] == steps[i].AsRow()
  {
    if steps == [] then []
    else RowsOf(steps[..|steps| - 1]) + [steps[|steps| - 1].AsRow()]
  }

  function DefsOf(steps: seq<StepRecord>): (defs: seq<StepDef>)
    ensures |defs| == |steps|
  {
    seq(|steps|, i requires 0 <= i < |steps| => steps[i].def)
  }

  class RunRecord {
    const total: nat
    const stopOnFailure: bool
    const steps: seq<StepRecord>
    var status: RunStatus
    var passed: int
    var failed: int
    var skipped: int
    var runtime: map<string, Json>

    constructor (steps: seq<StepRecord>, stopOnFailure: bool)
      ensures this.steps == steps && this.stopOnFailure == stopOnFailure && total == |steps|
      ensures status == RunPending && passed == failed == skipped == 0 && runtime == map[]
    {
      this.steps, this.stopOnFailure, total := steps, stopOnFailure, |steps|;
      status, passed, failed, skipped, runtime := RunPending, 0, 0, 0, map[];
    }

    /** No two entries of the list are the same record. */
    ghost predicate DistinctSteps() {
      forall i, j :: 0 <= i < j < |steps| ==> steps[i] != steps[j]
    }

    /**
      The loop of `_skip_remaining_steps` and `_stop_remaining_steps`: pending steps
      from an index on are marked and counted as skipped.
     */
    method MarkRemaining(from: nat, mark: StepStatus)
      requires DistinctSteps()
      modifies this`skipped, steps
      ensures RowsOf(steps) == Mark(old(RowsOf(steps)), from, mark)
      ensures skipped == old(skipped) + PendingFrom(old(RowsOf(steps)), from)
    {
      hide PendingFrom, RowsOf;
      ghost var rows := RowsOf(steps);
      PendingFromNone(from);
      assert rows[..0] == [];
      for i := 0 to |steps|
        invariant forall k :: 0 <= k < i ==> steps[k].AsRow() == Mark(rows, from, mark)[k]
        invariant forall k :: i <= k < |steps| ==> steps[k].AsRow() == rows[k]
        invariant skipped == old(skipped) + PendingFrom(rows[..i], from)
      {
        PendingFromNext(rows, i, from);
        if i >= from && steps[i].status == Pending {
          steps[i].status := mark;
          skipped := skipped + 1;
        }
      }
      assert rows[..|steps|] == rows;
    }
  }

  lemma PendingFromNone(from: nat)
    ensures PendingFrom([], from) == 0
  {
  }

  lemma PendingFromNext(rows: seq<Row>, i: nat, from: nat)
    requires i < |rows|
    ensures PendingFrom(rows[..i + 1], from) ==
            PendingFrom(rows[..i], from) + if i >= from && rows[i].status == Pending then 1 else 0
  {
    assert rows[..i + 1][..i] == rows[..i];
  }

  /** Where an internal failure can strike inside the try block of the executor. */
  datatype FailurePoint =
    | AtLook(i: nat) | AtHalt(i: nat) | AtBegin(i: nat) | DuringStep(i: nat) | AtSkip(i: nat) | AtFinalLook | AtCompletion

  class TaskRecord {
    var status: TaskStatus

    constructor ()
      ensures status == TaskPending
    {
      status := TaskPending;
    }
  }

  /** The worker's session on one task, together with the history of its commits. */
  class Session {
    const host: Host
    const task: TaskRecord
    const run: RunRecord
    ghost var pc: Pc
    ghost var raced: bool
    ghost var cancelledAt: Option<Pc>
    ghost var trace: seq<Action>

    constructor (host: Host, task: TaskRecord, run: RunRecord)
      requires run.DistinctSteps() && run.total == |run.steps|
      requires task.status == TaskPending && run.status == RunPending
      requires run.passed == run.failed == run.skipped == 0 && run.runtime == map[]
      requires forall i :: 0 <= i < |run.steps| ==> run.steps[i].AsRow() == IDLE_ROW
      ensures this.host == host && this.task == task && this.run == run
      ensures Valid() && trace == []
    {
      this.host, this.task, this.run := host, task, run;
      pc, raced, cancelledAt, trace := Queued, false, None, [];
      new;
      assert RowsOf(run.steps) == InitialDb(|run.steps|, run.stopOnFailure).rows;
    }

    function Stored(): Db
      reads task, run, run.steps
    {
      Db(task.status, run.status, run.stopOnFailure, run.total, run.passed, run.failed, run.skipped,
         RowsOf(run.steps), run.runtime)
    }

    ghost function View(): World
      reads this, task, run, run.steps
    {
      World(pc, Stored(), raced, cancelledAt)
    }

    /** The records are what the machine holds after the actions committed so far. */
    ghost predicate Valid()
      reads this, task, run, run.steps
    {
      run.DistinctSteps() && View() == After(host, DefsOf(run.steps), run.stopOnFailure, trace)
    }

    /** The answers that finished a step so far. */
    ghost function Answered(): seq<Attempt>
      reads this
    {
      Answers(host, DefsOf(run.steps), run.stopOnFailure, trace)
    }

    /** Records one committed action. */
    ghost method Commit(a: Action, before: World)
      requires run.DistinctSteps()
      requires before == After(host, DefsOf(run.steps), run.stopOnFailure, trace)
      requires Stored() == Apply(host, DefsOf(run.steps), before, a).db
      modifies this
      ensures Valid() && trace == old(trace) + [a]
      ensures View() == Apply(host, DefsOf(run.steps), before, a)
      ensures Answered() == old(Answered()) + if a.FinishStep? && before.pc.InStep? then [a.attempt] else []
    {
      hide Apply;
      var next := Apply(host, DefsOf(run.steps), before, a);
      pc, raced, cancelledAt := next.pc, next.raced, next.cancelledAt;
      trace := trace + [a];
      assert trace[..|trace| - 1] == old(trace);
    }

    /** `_stop_remaining_steps` and the status that goes with it. */
    method StopRemaining()
      requires run.DistinctSteps()
      modifies run, run.steps
      ensures Stored() == HaltDb(old(Stored())) && run.status == RunStopped
    {
      hide Mark, PendingFrom, RowsOf;
      run.MarkRemaining(0, Stopped);
      run.status := RunStopped;
    }

    /** `request_execution_stop`, as another session would commit it. */
    method RequestExecutionStop() returns (accepted: bool)
      requires Valid()
      modifies this, task, run, run.steps
      ensures Valid() && trace == old(trace) + [UserStop]
      ensures View() == RequestStop(old(View()))
      ensures accepted == old(run.status in {RunPending, RunRunning})
      ensures Answered() == old(Answered())
    {
      hide Work, HaltDb, After;
      ghost var before := View();
      accepted := run.status == RunPending || run.status == RunRunning;
      if accepted {
        task.status := TaskCancelled;
        if run.status == RunPending {
          StopRemaining();
        }
      }
      Commit(UserStop, before);
    }

    /** Other sessions may commit a stop request here, or may not. */
    method Interleave()
      requires Valid()
      modifies this, task, run, run.steps
      ensures Valid() && (View() == old(View()) || View() == RequestStop(old(View())))
      ensures pc == old(pc) && (trace == old(trace) || trace == old(trace) + [UserStop])
      ensures Answered() == old(Answered())
    {
      if * {
        var _ := RequestExecutionStop();
      }
    }

    /** `_fail_run`. */
    method FailRun()
      requires Valid() && (pc.Claimed? || InsideTry(pc))
      modifies this, task, run, run.steps
      ensures Valid() && Stored() == FailDb(old(Stored()))
      ensures trace == old(trace) + [if old(pc).Claimed? then EnvironmentMissing else Abort]
      ensures pc == Done(ExecutedAt(old(pc))) && run.status == RunFailed
      ensures Answered() == old(Answered())
    {
      hide After, RequestStop, RunStep, RecordDb, SkipDb, HaltDb, RowsOf;
      ghost var before := View();
      task.status := TaskFailed;
      run.status := RunFailed;
      Commit(if pc.Claimed? then EnvironmentMissing else Abort, before);
    }

    /** The start commit, which overwrites both statuses without looking at them. */
    method StartRun()
      requires Valid() && pc.Claimed?
      modifies this, task, run
      ensures Valid() && trace == old(trace) + [Start]
      ensures pc == Upcoming(0)
      ensures Answered() == old(Answered())
    {
      hide After, RequestStop, RunStep, RecordDb, SkipDb, HaltDb, RowsOf;
      ghost var before := View();
      task.status := TaskRunning;
      run.status := RunRunning;
      Commit(Start, before);
    }

    /** `session.refresh(task)` before a step or after the loop. */
    method Look(ghost a: Action) returns (cancelled: bool)
      requires Valid()
      requires (a == Action.Look && pc.Check?) || (a == LookFinal && pc.Final?)
      modifies this
      ensures Valid() && trace == old(trace) + [a]
      ensures cancelled == (task.status == TaskCancelled)
      ensures old(pc).Check? ==> pc == if cancelled then Halt(old(pc).i) else Begin(old(pc).i)
      ensures old(pc).Final? ==> pc == if cancelled then Done(old(pc).k) else Complete(old(pc).k)
      ensures Answered() == old(Answered())
    {
      hide After, RequestStop, RunStep, RecordDb, SkipDb, HaltDb, RowsOf;
      ghost var before := View();
      cancelled := task.status == TaskCancelled;
      Commit(a, before);
    }

    method HaltRun()
      requires Valid() && pc.Halt?
      modifies this, run, run.steps
      ensures Valid() && trace == old(trace) + [StopRest]
      ensures pc == Done(old(pc).i) && run.status == RunStopped
      ensures Answered() == old(Answered())
    {
      hide After, RequestStop, HaltDb;
      ghost var before := View();
      StopRemaining();
      Commit(StopRest, before);
    }

    /** The first commit of `_process_step`. */
    method BeginStep(i: nat)
      requires Valid() && pc == Begin(i) && i < |run.steps|
      modifies this, run.steps
      ensures Valid() && trace == old(trace) + [Action.BeginStep]
      ensures pc == InStep(i)
      ensures Answered() == old(Answered())
    {
      hide After, RequestStop, RunStep, RecordDb, SkipDb, HaltDb, RowsOf;
      ghost var before := View();
      run.steps[i].status := Running;
      assert RowsOf(run.steps) == BeginDb(before.db, i).rows;
      Commit(Action.BeginStep, before);
    }

    /** `_record_step_error`, or the verdict of the assertions. */
    method Record(i: nat, outcome: Outcome)
      requires run.DistinctSteps() && i < |run.steps|
      modifies run, run.steps
      ensures Stored() == RecordDb(old(Stored()), i, outcome)
    {
      hide RowsOf;
      ghost var before := Stored();
      var step := run.steps[i];
      match outcome {
        case Judged(passed, extracted) =>
          run.runtime := run.runtime + extracted;
          step.extracted := extracted;
          if passed {
            step.status, step.error := Passed, None;
            run.passed := run.passed + 1;
          } else {
            step.status := Failed;
            step.error := Some(StepError(AssertionFailure, "ASSERTION_FAILED", None));
            run.failed := run.failed + 1;
          }
        case Faulty(error) =>
          step.status, step.error := Error, Some(error);
          run.failed := run.failed + 1;
      }
      assert RowsOf(run.steps) == RecordDb(before, i, outcome).rows;
    }

    /** The top of the loop for step i, or the end of the loop. */
    ghost function Upcoming(i: nat): Pc {
      if i < |run.steps| then Check(i) else Final(i)
    }

    /**
      The rest of `_process_step`, given what the outside world answers: the step takes
      the result its answer explains, and no other step changes.
     */
    method FinishStep(i: nat, attempt: Attempt) returns (failed: bool)
      requires Valid() && pc == InStep(i) && i < |run.steps|
      modifies this, run, run.steps
      ensures Valid() && trace == old(trace) + [Action.FinishStep(attempt)]
      ensures pc == if run.stopOnFailure && failed then Skip(i) else Upcoming(i + 1)
      ensures Answered() == old(Answered()) + [attempt]
      ensures Explains(host, run.steps[i].def, old(run.runtime), attempt, run.steps[i].AsRow())
      ensures failed <==> run.steps[i].status != Passed
      ensures run.runtime == old(run.runtime) + run.steps[i].extracted
      ensures forall j :: 0 <= j < |run.steps| && j != i ==> run.steps[j].AsRow() == old(run.steps[j].AsRow())
    {
      hide After, RequestStop, RunStep, RecordDb, Explains;
      ghost var before := View();
      StepInFlight(i, attempt);
      var outcome := RunStep(host, run.steps[i].def, run.runtime, attempt);
      Record(i, outcome);
      failed := run.steps[i].status == Failed || run.steps[i].status == Error;
      Commit(Action.FinishStep(attempt), before);
    }

    lemma StepInFlight(i: nat, attempt: Attempt)
      requires Valid() && pc == InStep(i) && i < |run.steps|
      ensures var next := RecordDb(Stored(), i, RunStep(host, run.steps[i].def, run.runtime, attempt));
              && |next.rows| == |run.steps|
              && Explains(host, run.steps[i].def, run.runtime, attempt, next.rows[i])
              && Executed(next.rows[i]) && next.runtime == run.runtime + next.rows[i].extracted
              && forall j :: 0 <= j < |run.steps| && j != i ==> next.rows[j] == run.steps[j].AsRow()
    {
      hide RunStep, RecordDb, Explains, After, Executed;
      ShapeHolds(host, DefsOf(run.steps), run.stopOnFailure, trace);
      assert View().pc == InStep(i) && View().db == Stored();
      var outcome := RunStep(host, run.steps[i].def, run.runtime, attempt);
      RecordExplains(host, run.steps[i].def, Stored(), i, attempt);
      RecordOneRow(Stored(), i, outcome);
      ExplainsExecuted(host, run.steps[i].def, run.runtime, attempt, RecordDb(Stored(), i, outcome).rows[i]);
    }

    /** `_skip_remaining_steps` for the steps after the one that failed. */
    method SkipRows(i: nat)
      requires run.DistinctSteps()
      modifies run, run.steps
      ensures Stored() == SkipDb(old(Stored()), i)
    {
      hide Mark, PendingFrom, RowsOf;
      run.MarkRemaining(i + 1, Skipped);
    }

    method SkipRemaining(i: nat)
      requires Valid() && pc == Skip(i)
      modifies this, run, run.steps
      ensures Valid() && trace == old(trace) + [SkipRest]
      ensures pc == Final(i + 1)
      ensures Answered() == old(Answered())
    {
      hide After, RequestStop, RunStep, RecordDb, SkipDb, HaltDb, RowsOf;
      ghost var before := View();
      SkipRows(i);
      Commit(SkipRest, before);
    }

    method CompleteRun()
      requires Valid() && pc.Complete?
      modifies this, task, run
      ensures Valid() && trace == old(trace) + [Action.CompleteRun]
      ensures pc == Done(old(pc).k) && run.status == RunCompleted
      ensures Answered() == old(Answered())
    {
      hide After, RequestStop, RunStep, RecordDb, SkipDb, HaltDb, RowsOf;
      ghost var before := View();
      task.status := TaskSucceeded;
      run.status := RunCompleted;
      Commit(Action.CompleteRun, before);
    }

    /**
      `process_execution_task` on a claimed task, given what the steps answer and where
      internal failures strike.  Wherever stop requests land, the steps executed are a
      prefix in order, each has the result its own answer explains, no later step has
      one, and the run keeps the machine's laws; it fails only for a missing environment
      or an internal failure.
     */
    method ProcessExecutionTask(environmentFound: bool, attempts: seq<Attempt>, failures: FailurePoint -> bool)
      requires Valid() && pc.Claimed? && |attempts| == |run.steps|
      modifies this, task, run, run.steps
      ensures Valid() && pc.Done? && pc.k <= |attempts| && Answered() == attempts[..pc.k]
      ensures forall i :: 0 <= i < pc.k ==>
                Explains(host, run.steps[i].def, Gathered(Stored().rows[..i]), attempts[i], run.steps[i].AsRow())
      ensures forall i :: pc.k <= i < |run.steps| ==> !Executed(run.steps[i].AsRow()) && run.steps[i].extracted == map[]
      ensures run.runtime == Gathered(Stored().rows[..pc.k])
      ensures environmentFound && (forall p :: !failures(p)) ==> run.status != RunFailed
      ensures !environmentFound ==> run.status == RunFailed && pc.k == 0
      ensures Conserved(Stored()) <==> !(raced && Begun(Stored().rows))
      ensures run.status != RunFailed ==>
                run.status == Ending(Stored().rows, run.stopOnFailure, cancelledAt)
    {
      NothingAnswered();
      ProcessSteps(environmentFound, attempts, failures);
      ExplainedRows(attempts);
      ConservationExact(host, DefsOf(run.steps), run.stopOnFailure, trace);
      StopOutcome(host, DefsOf(run.steps), run.stopOnFailure, trace);
    }

    lemma NothingAnswered()
      requires Valid() && pc.Claimed?
      ensures Answered() == []
    {
      hide After, Answers, Explained;
      VerdictsHold(host, DefsOf(run.steps), run.stopOnFailure, trace);
      assert View().pc == pc;
    }

    lemma ExplainedRows(attempts: seq<Attempt>)
      requires Valid() && pc.Done? && pc.k <= |attempts| == |run.steps| && Answered() == attempts[..pc.k]
      ensures forall i :: 0 <= i < pc.k ==>
                Explains(host, run.steps[i].def, Gathered(Stored().rows[..i]), attempts[i], run.steps[i].AsRow())
      ensures forall i :: pc.k <= i < |run.steps| ==> !Executed(run.steps[i].AsRow()) && run.steps[i].extracted == map[]
      ensures run.runtime == Gathered(Stored().rows[..pc.k])
    {
      hide After, Answers, Explains, Gathered, Executed;
      VerdictsHold(host, DefsOf(run.steps), run.stopOnFailure, trace);
      assert View().db == Stored();
    }

    method ProcessSteps(environmentFound: bool, attempts: seq<Attempt>, failures: FailurePoint -> bool)
      requires Valid() && pc.Claimed? && |attempts| == |run.steps|
      modifies this, task, run, run.steps
      ensures Valid() && pc.Done? && pc.k <= |attempts|
      ensures Answered() == old(Answered()) + attempts[..pc.k]
      ensures environmentFound && (forall p :: !failures(p)) ==> run.status != RunFailed
      ensures !environmentFound ==> run.status == RunFailed && pc.k == 0
    {
      assert attempts[..0] == [];
      hide After, RequestStop, Work, Valid, View, Stored, RowsOf, DefsOf, Answered;
      Interleave();
      if !environmentFound {
        FailRun();
        return;
      }
      StartRun();
      var over := ExecuteSteps(attempts, failures);
      if !over {
        Conclude(failures);
      }
    }

    /** The loop over the steps. */
    method ExecuteSteps(attempts: seq<Attempt>, failures: FailurePoint -> bool) returns (over: bool)
      requires Valid() && pc == Upcoming(0) && |attempts| == |run.steps|
      modifies this, task, run, run.steps
      ensures Valid() && if over then pc.Done? else pc.Final?
      ensures pc.k <= |attempts| && Answered() == old(Answered()) + attempts[..pc.k]
      ensures over && run.status == RunFailed ==> exists p :: failures(p)
    {
      ghost var before := Answered();
      hide After, RequestStop, Work, Valid, View, Stored, RowsOf, DefsOf, Answered;
      var i := 0;
      assert attempts[..0] == [];
      while i < |run.steps|
        invariant Valid() && i <= |run.steps| && pc == Upcoming(i)
        invariant Answered() == before + attempts[..i]
      {
        Interleave();
        var failed;
        over, failed := ProcessNext(i, attempts[i], failures);
        if over {
          return;
        }
        i := i + 1;
        assert attempts[..i] == attempts[..i - 1] + [attempts[i - 1]];
        Interleave();
        if run.stopOnFailure && failed {
          if failures(AtSkip(i - 1)) {
            FailRun();
            over := true;
            return;
          }
          SkipRemaining(i - 1);
          break;
        }
      }
      over := false;
    }

    /** The end of the loop: complete the run, unless the task was cancelled by now. */
    method Conclude(failures: FailurePoint -> bool)
      requires Valid() && pc.Final?
      modifies this, task, run, run.steps
      ensures Valid() && pc == Done(old(pc).k)
      ensures run.status == RunFailed ==> exists p :: failures(p)
      ensures Answered() == old(Answered())
    {
      hide After, RequestStop, Work, Valid, View, Stored, RowsOf, DefsOf, Answered;
      Interleave();
      ActiveStatus();
      if failures(AtFinalLook) {
        FailRun();
        return;
      }
      var cancelled := Look(LookFinal);
      if !cancelled {
        Interleave();
        if failures(AtCompletion) {
          FailRun();
          return;
        }
        CompleteRun();
      }
    }

    /** One round of the loop: look at the task, then halt or process the step. */
    method ProcessNext(i: nat, attempt: Attempt, failures: FailurePoint -> bool) returns (over: bool, failed: bool)
      requires Valid() && pc == Check(i) && i < |run.steps|
      modifies this, task, run, run.steps
      ensures Valid()
      ensures over ==> pc == Done(i) && Answered() == old(Answered())
      ensures over && run.status == RunFailed ==> exists p :: failures(p)
      ensures !over ==> pc == if run.stopOnFailure && failed then Skip(i) else Upcoming(i + 1)
      ensures !over ==> Answered() == old(Answered()) + [attempt]
    {
      hide After, RequestStop, Work, Valid, View, Stored, RowsOf, DefsOf, Answered;
      over, failed := true, false;
      if failures(AtLook(i)) {
        FailRun();
        return;
      }
      var cancelled := Look(Action.Look);
      Interleave();
      if failures(if cancelled then AtHalt(i) else AtBegin(i)) {
        FailRun();
        return;
      }
      if cancelled {
        HaltRun();
        return;
      }
      BeginStep(i);
      Interleave();
      if failures(FailurePoint.DuringStep(i)) {
        FailRun();
        return;
      }
      failed := FinishStep(i, attempt);
      over := false;
    }

    lemma ActiveStatus()
      requires Valid() && pc.Final?
      ensures run.status == RunRunning
    {
      ShapeHolds(host, DefsOf(run.steps), run.stopOnFailure, trace);
      assert View().pc == pc && View().db.run == run.status;
    }
  }
}
