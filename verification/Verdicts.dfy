/**
  What the stored result of a step means (`_process_step` in
  backend/app/modules/executions/service.py): every executed row of every reachable
  state is told from the answer its own step got, the definition of the step and what
  the rows before it extracted.
 */
module Verdicts {
  import opened Wrappers
  import opened Json
  import opened Templates
  import opened Extraction
  import opened Assertions
  import opened Suites
  import opened Execution

  // ---------------------------------------------------------------- one step

  function Spaces(attempt: Attempt, runtime: map<string, Json>): Namespaces {
    Namespaces(attempt.env, attempt.secret, runtime)
  }

  /** The request could be built: nothing failed before it was sent. */
  ghost predicate Sendable(def: StepDef, runtime: map<string, Json>, attempt: Attempt) {
    && attempt.namespaceError.None? && attempt.buildError.None?
    && (forall f :: f in Request(def) ==> f.key in SECTIONS)
    && (forall ref :: ref in Occurs(Obj(Request(def))) ==> Lookup(Spaces(attempt, runtime), ref).Some?)
  }

  ghost predicate AllEvaluated(assertions: seq<Assertion>, r: Response) {
    forall a :: a in assertions ==> Evaluate(a, r).Ok?
  }

  ghost predicate AllSatisfied(assertions: seq<Assertion>, r: Response) {
    forall a :: a in assertions ==> Evaluate(a, r).Ok? && Evaluate(a, r).value.passed
  }

  /** A response came in, every assertion could be evaluated on it and every rule gave a value. */
  ghost predicate Judgeable(host: Host, def: StepDef, runtime: map<string, Json>, attempt: Attempt) {
    Sendable(def, runtime, attempt) && attempt.reply.Responded? &&
    AllEvaluated(def.assertions, attempt.reply.response) &&
    forall rule :: rule in def.rules ==> Extract(host, rule, attempt.reply.response).Ok?
  }

  /** An application error is stored under its code, with the category that goes with the code. */
  ghost predicate Coded(error: StepError, code: string) {
    && error.code == code
    && error.category == (if code == "VARIABLE_EXTRACTION_FAILED" then VariableExtraction
                          else if code == "EXECUTION_VARIABLE_MISSING" then Precondition else RequestBuild)
    && (error.missing.Some? ==> code == "EXECUTION_VARIABLE_MISSING")
  }

  function BadAssertionCode(e: AssertError): string {
    match e
    case ConfigInvalid => "ASSERTION_CONFIG_INVALID"
    case PathInvalid => "ASSERTION_JSON_PATH_INVALID"
    case KindUnsupported => "ASSERTION_TYPE_UNSUPPORTED"
  }

  function BadRuleCode(e: ExtractError): string {
    if e == BadPath then "ASSERTION_JSON_PATH_INVALID" else "VARIABLE_EXTRACTION_FAILED"
  }

  /** The error of a response that could not be judged: the first assertion or else the first rule that failed. */
  ghost predicate Unjudged(host: Host, def: StepDef, r: Response, error: StepError) {
    && error.missing.None?
    && if AllEvaluated(def.assertions, r) then
         exists i: nat :: FirstBadRule(host, def.rules, r, i) && Coded(error, BadRuleCode(Extract(host, def.rules[i], r).error))
       else
         exists i: nat :: FirstBadAssertion(def.assertions, r, i) &&
                          Coded(error, BadAssertionCode(Evaluate(def.assertions[i], r).error))
  }

  /** The error stored when a step was not judged: the first thing that went wrong. */
  ghost predicate Causes(host: Host, def: StepDef, runtime: map<string, Json>, attempt: Attempt, error: StepError) {
    var missing := FirstMissing(Occurs(Obj(Request(def))), Spaces(attempt, runtime));
    if attempt.namespaceError.Some? then Coded(error, attempt.namespaceError.value) && error.missing.None?
    else if exists f :: f in Request(def) && f.key !in SECTIONS then
      Coded(error, "REQUEST_TEMPLATE_INVALID")
    else if missing.Some? then Coded(error, "EXECUTION_VARIABLE_MISSING") && error.missing == missing
    else if attempt.buildError.Some? then Coded(error, attempt.buildError.value) && error.missing.None?
    else
      match attempt.reply
      case RunnerFailed(category, code) => error == StepError(category, code, None)
      case Refused(code) => Coded(error, code) && error.missing.None?
      case Crashed => error == StepError(Internal, "EXECUTION_STEP_FAILED", None)
      case Responded(r) => Unjudged(host, def, r, error)
  }

  /**
    What a row must say, given the answer of its step: passed if every assertion holds
    of the response, failed if all could be evaluated and one does not hold, and
    otherwise an error that names the first thing that went wrong.
   */
  ghost predicate Explains(host: Host, def: StepDef, runtime: map<string, Json>, attempt: Attempt, row: Row) {
    if Judgeable(host, def, runtime, attempt) then
      && Verdict(def, attempt.reply.response, row)
      && ExtractAll(host, def.rules, attempt.reply.response) == Ok(row.extracted)
    else row.status == Error && row.extracted == map[] && row.error.Some? &&
         Causes(host, def, runtime, attempt, row.error.value)
  }

  ghost predicate Verdict(def: StepDef, r: Response, row: Row) {
    if AllSatisfied(def.assertions, r) then row.status == Passed && row.error == None
    else row.status == Failed && row.error == Some(StepError(AssertionFailure, "ASSERTION_FAILED", None))
  }

  /** When a step is judged, and when it passes. */
  lemma {:induction false} JudgedExact(host: Host, def: StepDef, runtime: map<string, Json>, attempt: Attempt)
    ensures var outcome := RunStep(host, def, runtime, attempt);
            && (outcome.Judged? <==> Judgeable(host, def, runtime, attempt))
            && (outcome.Judged? ==> (outcome.passed <==> AllSatisfied(def.assertions, attempt.reply.response)))
            && (outcome.Judged? ==> ExtractAll(host, def.rules, attempt.reply.response) == Ok(outcome.extracted))
  {
    RequestExact(host, def, runtime, attempt);
    if attempt.reply.Responded? {
      AllPassedExact(def.assertions, attempt.reply.response);
      ExtractAllExact(host, def.rules, attempt.reply.response);
    }
    hide Request, Resolve, Occurs, AllPassed, ExtractAll, Evaluate, Extract, SectionNames, Lookup;
  }

  lemma {:induction false} RequestExact(host: Host, def: StepDef, runtime: map<string, Json>, attempt: Attempt)
    ensures SectionNames(Request(def)) - SECTIONS == {} <==> forall f :: f in Request(def) ==> f.key in SECTIONS
    ensures var resolved := Resolve(host, Obj(Request(def)), Spaces(attempt, runtime));
            var missing := FirstMissing(Occurs(Obj(Request(def))), Spaces(attempt, runtime));
            (resolved.Ok? <==> missing.None?) && (resolved.Err? ==> missing == Some(resolved.error))
  {
    ResolveExact(host, Obj(Request(def)), Spaces(attempt, runtime));
    hide Request, Resolve, Occurs, FirstMissing, Lookup;
    EmptyDifference(SectionNames(Request(def)), SECTIONS);
    assert forall f :: f in Request(def) ==> f.key in SectionNames(Request(def));
  }

  lemma {:induction false} UnjudgedError(host: Host, def: StepDef, r: Response)
    requires JudgeResponse(host, def, r).Faulty?
    ensures Unjudged(host, def, r, JudgeResponse(host, def, r).error)
  {
    AllPassedExact(def.assertions, r);
    ExtractAllExact(host, def.rules, r);
    hide AllPassed, ExtractAll, Evaluate, Extract, FirstBadAssertion, FirstBadRule;
    if !AllEvaluated(def.assertions, r) {
      AllPassedError(def.assertions, r);
    }
  }

  lemma {:induction false} FaultyExact(host: Host, def: StepDef, runtime: map<string, Json>, attempt: Attempt)
    requires RunStep(host, def, runtime, attempt).Faulty?
    ensures Causes(host, def, runtime, attempt, RunStep(host, def, runtime, attempt).error)
  {
    RequestExact(host, def, runtime, attempt);
    if attempt.reply.Responded? && JudgeResponse(host, def, attempt.reply.response).Faulty? {
      UnjudgedError(host, def, attempt.reply.response);
    }
    hide Request, Resolve, Occurs, SectionNames, FirstMissing, JudgeResponse, Unjudged;
  }

  /** What is recorded for a step in flight is what its answer says. */
  lemma {:induction false} RecordExplains(host: Host, def: StepDef, db: Db, i: nat, attempt: Attempt)
    requires i < |db.rows| && db.rows[i].extracted == map[]
    ensures Explains(host, def, db.runtime, attempt, RecordDb(db, i, RunStep(host, def, db.runtime, attempt)).rows[i])
    ensures var next := RecordDb(db, i, RunStep(host, def, db.runtime, attempt));
            next.runtime == db.runtime + next.rows[i].extracted
  {
    JudgedExact(host, def, db.runtime, attempt);
    if RunStep(host, def, db.runtime, attempt).Faulty? {
      FaultyExact(host, def, db.runtime, attempt);
    }
    hide RunStep, Judgeable, Causes, AllSatisfied, ExtractAll;
  }

  lemma {:induction false} UnjudgedOnce(host: Host, def: StepDef, r: Response, a: StepError, b: StepError)
    requires Unjudged(host, def, r, a) && Unjudged(host, def, r, b)
    ensures a == b
  {
    hide Evaluate, Extract, BadAssertionCode, BadRuleCode;
    if AllEvaluated(def.assertions, r) {
      var i: nat :| FirstBadRule(host, def.rules, r, i) && Coded(a, BadRuleCode(Extract(host, def.rules[i], r).error));
      var j: nat :| FirstBadRule(host, def.rules, r, j) && Coded(b, BadRuleCode(Extract(host, def.rules[j], r).error));
      assert i == j;
    } else {
      var i: nat :| FirstBadAssertion(def.assertions, r, i) && Coded(a, BadAssertionCode(Evaluate(def.assertions[i], r).error));
      var j: nat :| FirstBadAssertion(def.assertions, r, j) && Coded(b, BadAssertionCode(Evaluate(def.assertions[j], r).error));
      assert i == j;
    }
  }

  /** The explanation leaves no choice: one answer, one row. */
  lemma {:induction false} ExplainedOnce(host: Host, def: StepDef, runtime: map<string, Json>, attempt: Attempt, a: Row, b: Row)
    requires Explains(host, def, runtime, attempt, a) && Explains(host, def, runtime, attempt, b)
    ensures a == b
  {
    hide Request, Occurs, FirstMissing, ExtractAll, AllSatisfied, Judgeable, Unjudged;
    if !Judgeable(host, def, runtime, attempt) && attempt.reply.Responded? {
      var r := attempt.reply.response;
      if Unjudged(host, def, r, a.error.value) && Unjudged(host, def, r, b.error.value) {
        UnjudgedOnce(host, def, r, a.error.value, b.error.value);
      }
    }
  }

  // ---------------------------------------------------------- every reachable state

  /** What the given rows extracted, later values over earlier ones. */
  ghost function Gathered(rows: seq<Row>): map<string, Json> {
    if rows == [] then map[] else Gathered(rows[..|rows| - 1]) + rows[|rows| - 1].extracted
  }

  /** The answers that finished a step, in order. */
  ghost function Answers(host: Host, defs: seq<StepDef>, stopOnFailure: bool, actions: seq<Action>): seq<Attempt> {
    if actions == [] then []
    else
      var n := |actions| - 1;
      Answers(host, defs, stopOnFailure, actions[..n]) +
      if actions[n].FinishStep? && After(host, defs, stopOnFailure, actions[..n]).pc.InStep?
      then [actions[n].attempt] else []
  }

  /** The executed rows are the first ones, each explained by its own answer. */
  ghost predicate Explained(host: Host, defs: seq<StepDef>, db: Db, answers: seq<Attempt>) {
    && |answers| <= |defs| == |db.rows|
    && (forall i :: 0 <= i < |answers| ==> Explains(host, defs[i], Gathered(db.rows[..i]), answers[i], db.rows[i]))
    && (forall i :: |answers| <= i < |db.rows| ==> !Executed(db.rows[i]) && db.rows[i].extracted == map[])
    && db.runtime == Gathered(db.rows[..|answers|])
  }

  lemma OthersKeepExecuted(host: Host, defs: seq<StepDef>, w: World, a: Action)
    requires Shape(w, |defs|, w.db.stopOnFailure) && !(a.FinishStep? && w.pc.InStep?)
    ensures var next := Apply(host, defs, w, a);
            && ExecutedAt(next.pc) == ExecutedAt(w.pc) && next.db.runtime == w.db.runtime
            && forall j :: 0 <= j < |w.db.rows| ==>
                 && (Executed(next.db.rows[j]) <==> Executed(w.db.rows[j]))
                 && (Executed(w.db.rows[j]) ==> next.db.rows[j] == w.db.rows[j])
                 && next.db.rows[j].extracted == w.db.rows[j].extracted
  {
    hide RunStep, PendingFrom, LoopEnded, Ran;
  }

  lemma ExplainsExecuted(host: Host, def: StepDef, runtime: map<string, Json>, attempt: Attempt, row: Row)
    requires Explains(host, def, runtime, attempt, row)
    ensures Executed(row)
  {
    hide Judgeable, Causes, AllSatisfied, ExtractAll;
  }

  lemma {:induction false} OthersKeepExplained(host: Host, defs: seq<StepDef>, w: World, a: Action, answers: seq<Attempt>)
    requires Shape(w, |defs|, w.db.stopOnFailure) && !(a.FinishStep? && w.pc.InStep?)
    requires Explained(host, defs, w.db, answers)
    ensures Explained(host, defs, Apply(host, defs, w, a).db, answers)
  {
    hide Shape, Apply, Explains, Executed, Gathered;
    OthersKeepExecuted(host, defs, w, a);
    var rows, next := w.db.rows, Apply(host, defs, w, a).db.rows;
    forall i | 0 <= i < |answers| ensures next[i] == rows[i] {
      ExplainsExecuted(host, defs[i], Gathered(rows[..i]), answers[i], rows[i]);
    }
    forall i: nat | i <= |answers| ensures next[..i] == rows[..i] {
    }
  }

  lemma FinishRecords(host: Host, defs: seq<StepDef>, w: World, attempt: Attempt)
    requires Shape(w, |defs|, w.db.stopOnFailure) && w.pc.InStep?
    ensures w.pc.i < |defs| == |w.db.rows| && w.db.rows[w.pc.i].extracted == map[]
    ensures var next := Apply(host, defs, w, FinishStep(attempt));
            && next.db == RecordDb(w.db, w.pc.i, RunStep(host, defs[w.pc.i], w.db.runtime, attempt))
            && ExecutedAt(next.pc) == w.pc.i + 1
  {
    hide RunStep, RecordDb, Ran, Rest;
  }

  lemma RecordOneRow(db: Db, i: nat, outcome: Outcome)
    requires i < |db.rows|
    ensures |RecordDb(db, i, outcome).rows| == |db.rows|
    ensures forall j :: 0 <= j < |db.rows| && j != i ==> RecordDb(db, i, outcome).rows[j] == db.rows[j]
  {
  }

  lemma {:induction false} FinishExplained(host: Host, defs: seq<StepDef>, w: World, attempt: Attempt, answers: seq<Attempt>)
    requires Shape(w, |defs|, w.db.stopOnFailure) && w.pc.InStep? && |answers| == w.pc.i
    requires Explained(host, defs, w.db, answers)
    ensures var next := Apply(host, defs, w, FinishStep(attempt));
            Explained(host, defs, next.db, answers + [attempt]) && ExecutedAt(next.pc) == w.pc.i + 1
  {
    hide Apply, RunStep, Explains, Shape, RecordDb, Executed, ExecutedAt;
    var i, db := w.pc.i, w.db;
    FinishRecords(host, defs, w, attempt);
    RecordOneRow(db, i, RunStep(host, defs[i], db.runtime, attempt));
    RecordExplains(host, defs[i], db, i, attempt);
    var rows := Apply(host, defs, w, FinishStep(attempt)).db.rows;
    forall j: nat | j <= i ensures rows[..j] == db.rows[..j] {
    }
    assert rows[..i + 1][..i] == db.rows[..i];
  }

  /**
    In every state any interleaving reaches, the rows executed so far are the first ones,
    and each says what the answer to its own step says, given what the rows before it
    extracted; the runtime variables are what those rows extracted.
   */
  lemma {:induction false} VerdictsHold(host: Host, defs: seq<StepDef>, stopOnFailure: bool, actions: seq<Action>)
    ensures var w, answers := After(host, defs, stopOnFailure, actions), Answers(host, defs, stopOnFailure, actions);
            Explained(host, defs, w.db, answers) && |answers| == ExecutedAt(w.pc)
  {
    hide Apply, Explained;
    if actions != [] {
      var n := |actions| - 1;
      var w, a := After(host, defs, stopOnFailure, actions[..n]), actions[n];
      VerdictsHold(host, defs, stopOnFailure, actions[..n]);
      ShapeHolds(host, defs, stopOnFailure, actions[..n]);
      assert w.db.stopOnFailure == stopOnFailure;
      var answers := Answers(host, defs, stopOnFailure, actions[..n]);
      if a.FinishStep? && w.pc.InStep? {
        FinishExplained(host, defs, w, a.attempt, answers);
      } else {
        OthersKeepExplained(host, defs, w, a, answers);
        OthersKeepExecuted(host, defs, w, a);
        assert Answers(host, defs, stopOnFailure, actions) == answers + [] == answers;
      }
    } else {
      NothingExplained(host, defs, stopOnFailure);
    }
  }

  lemma NothingExplained(host: Host, defs: seq<StepDef>, stopOnFailure: bool)
    ensures Explained(host, defs, InitialDb(|defs|, stopOnFailure), [])
  {
  }
}
