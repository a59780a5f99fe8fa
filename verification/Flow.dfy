/**
  Soundness of saved flows: what the static producer check
  (backend/app/modules/test_suites/service.py) buys at run time
  (backend/app/modules/executions/service.py).
 */
module Flow {
  import opened Wrappers
  import opened Json
  import opened Templates
  import opened Extraction
  import opened Assertions
  import opened Suites
  import opened Execution
  import Approval

  /** The step failed because it read a runtime variable that had no value. */
  ghost predicate Lacks(row: Row, x: string) {
    row.error.Some? && row.error.value.missing == Some(VarRef(Runtime, x))
  }

  predicate Produces(row: Row) { row.status == Passed || row.status == Failed }

  /** The producer bound x to null. */
  ghost predicate BoundNull(row: Row, x: string) {
    x in row.extracted && row.extracted[x] == Null
  }

  /** A text rule for x whose capture group can sit out of a match. */
  ghost predicate CanSitOut(host: Host, def: StepDef, x: string) {
    exists rule, r :: rule in def.rules && rule.key == x && GroupSatOut(host, rule, r)
  }

  /** A step with a verdict extracted exactly its keys, any other step nothing. */
  ghost predicate ExtractedKeys(defs: seq<StepDef>, rows: seq<Row>) {
    |rows| == |defs| &&
    forall j :: 0 <= j < |defs| ==>
      rows[j].extracted.Keys == if Produces(rows[j]) then KeySet(defs[j]) else {}
  }

  ghost predicate Holds(runtime: map<string, Json>, extracted: map<string, Json>) {
    forall x :: x in extracted ==> x in runtime && runtime[x] == extracted[x]
  }

  ghost predicate Extracted(rows: seq<Row>, x: string) {
    exists j :: 0 <= j < |rows| && x in rows[j].extracted
  }

  /** The runtime variables are those the executed steps extracted. */
  ghost predicate Bound(defs: seq<StepDef>, db: Db) {
    && ExtractedKeys(defs, db.rows)
    && (forall j :: 0 <= j < |db.rows| ==> Holds(db.runtime, db.rows[j].extracted))
    && (forall x :: x in db.runtime ==> Extracted(db.rows, x))
  }

  /** Whoever lacked a variable can name the earlier step to blame. */
  ghost predicate Blamed(defs: seq<StepDef>, rows: seq<Row>) {
    |rows| == |defs| &&
    forall i, x :: 0 <= i < |rows| && Lacks(rows[i], x) ==>
      exists p :: 0 <= p < i && x in KeySet(defs[p]) && (rows[p].status == Error || BoundNull(rows[p], x))
  }

  /** A null binding always comes from a text rule whose group sat out. */
  ghost predicate NullsExplained(host: Host, defs: seq<StepDef>, rows: seq<Row>) {
    |rows| == |defs| &&
    forall j, x :: 0 <= j < |rows| && BoundNull(rows[j], x) ==> CanSitOut(host, defs[j], x)
  }

  /** When failures stop the run, a step with an error saw every earlier step pass. */
  ghost predicate PassedBefore(db: Db) {
    db.stopOnFailure ==>
      forall p, i :: 0 <= p < i < |db.rows| && db.rows[i].error.Some? ==> db.rows[p].status == Passed
  }

  ghost predicate Sound(host: Host, defs: seq<StepDef>, db: Db) {
    Bound(defs, db) && Blamed(defs, db.rows) && NullsExplained(host, defs, db.rows) && PassedBefore(db)
  }

  // -------------------------------------------------------------- one step at a time

  /** A step that fails for a missing variable reads it, and the runtime map lacks it. */
  lemma MissingIsRead(host: Host, def: StepDef, runtime: map<string, Json>, attempt: Attempt, ref: VarRef)
    requires RunStep(host, def, runtime, attempt).Faulty?
    requires RunStep(host, def, runtime, attempt).error.missing == Some(ref)
    ensures ref in Occurs(Obj(Request(def)))
    ensures Lookup(Namespaces(attempt.env, attempt.secret, runtime), ref).None?
    ensures ref.ns == Runtime ==> ref.key in Reads(def)
  {
    hide AppFailure, JudgeResponse, Resolve, Occurs, Request, FindRuntimeVariables;
    var request := Obj(Request(def));
    var spaces := Namespaces(attempt.env, attempt.secret, runtime);
    ResolveExact(host, request, spaces);
    FindRuntimeExact(request);
    MissingOnlyFromResolve(host, def, runtime, attempt);
  }

  lemma MissingOnlyFromResolve(host: Host, def: StepDef, runtime: map<string, Json>, attempt: Attempt)
    requires RunStep(host, def, runtime, attempt).Faulty?
    requires RunStep(host, def, runtime, attempt).error.missing.Some?
    ensures Resolve(host, Obj(Request(def)), Namespaces(attempt.env, attempt.secret, runtime)) ==
            Err(RunStep(host, def, runtime, attempt).error.missing.value)
  {
    hide Resolve, Request, AllPassed, ExtractAll;
  }

  /**
    Why the error is not the only culprit: a step can pass while a text rule binds its
    variable to null, and the variable is then missing for every reader.
   */
  lemma PassedButUnbound(host: Host, rule: Rule, r: Response, attempt: Attempt)
    requires GroupSatOut(host, rule, r)
    requires attempt == Attempt(map[], map[], None, None, Responded(r))
    ensures var def := StepDef([], [], [rule], []);
            var bound := map[rule.key := Null];
            RunStep(host, def, map[], attempt) == Judged(true, bound) &&
            Lookup(Namespaces(map[], map[], bound), VarRef(Runtime, rule.key)).None?
  {
    hide Extract;
    ExtractsNullIff(host, rule, r);
    assert [rule][..0] == [] && ExtractAll(host, [], r) == Ok(map[]);
    assert ExtractAll(host, [rule], r) == Ok(map[][rule.key := Null]);
    assert SectionNames(Request(StepDef([], [], [rule], []))) - SECTIONS == {};
  }

  lemma JudgedExtracts(host: Host, def: StepDef, runtime: map<string, Json>, attempt: Attempt)
    requires RunStep(host, def, runtime, attempt).Judged? && Distinct(Keys(def))
    ensures RunStep(host, def, runtime, attempt).extracted.Keys == KeySet(def)
    ensures forall x | x in RunStep(host, def, runtime, attempt).extracted ::
              RunStep(host, def, runtime, attempt).extracted[x] == Null ==> CanSitOut(host, def, x)
  {
    hide Resolve, Request, AllPassed, ExtractAll, Extract, GroupSatOut;
    var r := attempt.reply.response;
    var extracted := RunStep(host, def, runtime, attempt).extracted;
    assert ExtractAll(host, def.rules, r) == Ok(extracted);
    assert forall i :: 0 <= i < |def.rules| ==> Keys(def)[i] == def.rules[i].key;
    ExtractAllBinds(host, def.rules, r);
    forall x | x in extracted && extracted[x] == Null ensures CanSitOut(host, def, x) {
      var i :| 0 <= i < |def.rules| && Keys(def)[i] == x;
      ExtractsNullIff(host, def.rules[i], r);
      assert def.rules[i] in def.rules && GroupSatOut(host, def.rules[i], r);
    }
  }

  /** A key with one producer is bound exactly by that producer's verdict. */
  lemma BoundByProducer(defs: seq<StepDef>, db: Db, p: nat, x: string)
    requires Bound(defs, db) && p < |defs| && x in KeySet(defs[p])
    requires forall j :: 0 <= j < |defs| && x in KeySet(defs[j]) ==> j == p
    ensures x in db.runtime <==> Produces(db.rows[p])
    ensures Produces(db.rows[p]) ==> x in db.rows[p].extracted && db.runtime[x] == db.rows[p].extracted[x]
  {
    hide KeySet;
    if x in db.runtime {
      assert Extracted(db.rows, x);
      var j :| 0 <= j < |db.rows| && x in db.rows[j].extracted;
      assert x in db.rows[j].extracted.Keys;
    }
    if Produces(db.rows[p]) {
      assert x in db.rows[p].extracted.Keys && Holds(db.runtime, db.rows[p].extracted);
    }
  }

  /**
    Exactly when a step about to run will find a variable it reads missing: its one
    producer ended in an error, or bound the variable to null.
   */
  lemma MissingIff(defs: seq<StepDef>, w: World, x: string, env: map<string, Json>, secret: map<string, Json>)
    returns (p: nat)
    requires Accepted(defs) && Shape(w, |defs|, w.db.stopOnFailure) && Bound(defs, w.db)
    requires w.pc.InStep? && x in Reads(defs[w.pc.i])
    ensures p < w.pc.i && x in KeySet(defs[p])
    ensures Lookup(Namespaces(env, secret, w.db.runtime), VarRef(Runtime, x)).None? <==>
            w.db.rows[p].status == Error || BoundNull(w.db.rows[p], x)
  {
    hide Reads, KeySet, Bound, Accepted;
    p := UniqueProducer(defs, w.pc.i, x);
    BoundByProducer(defs, w.db, p, x);
    assert Executed(w.db.rows[p]);
    if w.db.rows[p].status == Error {
      assert x !in w.db.runtime;
    }
  }

  /** Rows other than i keep their evidence, and i has none yet. */
  lemma {:induction false} JudgedBound(defs: seq<StepDef>, db: Db, next: Db, i: nat, extracted: map<string, Json>)
    requires Accepted(defs) && Bound(defs, db) && i < |defs| && db.rows[i].extracted == map[]
    requires |next.rows| == |db.rows| && next.runtime == db.runtime + extracted
    requires forall j :: 0 <= j < |defs| && j != i ==> next.rows[j] == db.rows[j]
    requires Produces(next.rows[i]) && next.rows[i].extracted == extracted && extracted.Keys == KeySet(defs[i])
    ensures Bound(defs, next)
  {
    hide Reads, KeySet, Extracted;
    forall j | 0 <= j < |next.rows| ensures Holds(next.runtime, next.rows[j].extracted) {
      if j != i {
        assert Holds(db.runtime, db.rows[j].extracted);
        DisjointKeys(defs, i, j);
        assert db.rows[j].extracted.Keys <= KeySet(defs[j]);
      }
    }
    forall x | x in next.runtime ensures Extracted(next.rows, x) {
      ExtractedGrows(db.rows, next.rows, i, x);
    }
  }

  lemma DisjointKeys(defs: seq<StepDef>, i: nat, j: nat)
    requires Accepted(defs) && i < |defs| && j < |defs| && i != j
    ensures KeySet(defs[i]) !! KeySet(defs[j])
  {
  }

  lemma ExtractedGrows(rows: seq<Row>, next: seq<Row>, i: nat, x: string)
    requires |next| == |rows| && i < |rows| && rows[i].extracted == map[]
    requires forall j :: 0 <= j < |rows| && j != i ==> next[j] == rows[j]
    ensures Extracted(rows, x) || x in next[i].extracted ==> Extracted(next, x)
  {
    if j :| 0 <= j < |rows| && x in rows[j].extracted {
      assert next[j] == rows[j];
    }
  }

  lemma RecordJudged(host: Host, defs: seq<StepDef>, w: World, passed: bool, extracted: map<string, Json>)
    requires Accepted(defs) && Shape(w, |defs|, w.db.stopOnFailure) && Sound(host, defs, w.db) && w.pc.InStep?
    requires extracted.Keys == KeySet(defs[w.pc.i])
    requires forall x :: x in extracted && extracted[x] == Null ==> CanSitOut(host, defs[w.pc.i], x)
    ensures Sound(host, defs, RecordDb(w.db, w.pc.i, Judged(passed, extracted)))
  {
    hide Reads, KeySet, CanSitOut, Accepted, Bound, Blamed;
    var db, i := w.db, w.pc.i;
    var next := RecordDb(db, i, Judged(passed, extracted));
    JudgedBound(defs, db, next, i, extracted) by { assert |db.rows| == |defs|; }
    BlameSurvives(defs, db.rows, next.rows, i);
  }

  /** Blame lies with earlier steps, so a new result at i leaves it where it was. */
  lemma BlameSurvives(defs: seq<StepDef>, rows: seq<Row>, next: seq<Row>, i: nat)
    requires Blamed(defs, rows) && |next| == |rows| && i < |rows|
    requires forall j :: 0 <= j < |rows| && j != i ==> next[j] == rows[j]
    requires forall j :: i < j < |rows| ==> rows[j].error.None?
    requires forall x :: !Lacks(next[i], x)
    ensures Blamed(defs, next)
  {
    forall k, x | 0 <= k < |next| && Lacks(next[k], x)
      ensures exists p :: 0 <= p < k && x in KeySet(defs[p]) && (next[p].status == Error || BoundNull(next[p], x))
    {
      assert k < i && Lacks(rows[k], x);
      var p :| 0 <= p < k && x in KeySet(defs[p]) && (rows[p].status == Error || BoundNull(rows[p], x));
      assert next[p] == rows[p];
    }
  }

  lemma FaultyBound(defs: seq<StepDef>, db: Db, next: Db)
    requires Bound(defs, db) && |next.rows| == |db.rows| && next.runtime == db.runtime
    requires forall j :: 0 <= j < |db.rows| ==>
               next.rows[j].extracted == db.rows[j].extracted && (Produces(next.rows[j]) <==> Produces(db.rows[j]))
    ensures Bound(defs, next)
  {
    hide KeySet;
    forall x | x in next.runtime ensures Extracted(next.rows, x) {
      assert Extracted(db.rows, x);
      var j :| 0 <= j < |db.rows| && x in db.rows[j].extracted;
      assert x in next.rows[j].extracted;
    }
  }

  lemma {:induction false} RecordFaulty(host: Host, defs: seq<StepDef>, w: World, attempt: Attempt)
    requires Accepted(defs) && Shape(w, |defs|, w.db.stopOnFailure) && Sound(host, defs, w.db) && w.pc.InStep?
    requires RunStep(host, defs[w.pc.i], w.db.runtime, attempt).Faulty?
    ensures Sound(host, defs, RecordDb(w.db, w.pc.i, RunStep(host, defs[w.pc.i], w.db.runtime, attempt)))
  {
    FaultyBlamed(host, defs, w, attempt);
    FaultyKeeps(host, defs, w, RunStep(host, defs[w.pc.i], w.db.runtime, attempt).error);
    hide Shape, Accepted, Bound, Blamed, NullsExplained, PassedBefore, RunStep, RecordDb;
  }

  lemma FaultyKeeps(host: Host, defs: seq<StepDef>, w: World, error: StepError)
    requires Shape(w, |defs|, w.db.stopOnFailure) && w.pc.InStep?
    requires Bound(defs, w.db) && NullsExplained(host, defs, w.db.rows) && PassedBefore(w.db)
    ensures var next := RecordDb(w.db, w.pc.i, Faulty(error));
            Bound(defs, next) && NullsExplained(host, defs, next.rows) && PassedBefore(next)
  {
    hide KeySet, CanSitOut;
    FaultyBound(defs, w.db, RecordDb(w.db, w.pc.i, Faulty(error)));
    hide Bound;
  }

  /** A step that failed for a missing variable can blame the producer that `MissingIff` names. */
  lemma FaultyBlamed(host: Host, defs: seq<StepDef>, w: World, attempt: Attempt)
    requires Accepted(defs) && Shape(w, |defs|, w.db.stopOnFailure) && Bound(defs, w.db) && Blamed(defs, w.db.rows) && w.pc.InStep?
    requires RunStep(host, defs[w.pc.i], w.db.runtime, attempt).Faulty?
    ensures Blamed(defs, RecordDb(w.db, w.pc.i, RunStep(host, defs[w.pc.i], w.db.runtime, attempt)).rows)
  {
    hide Reads, KeySet, RunStep, Bound, Accepted;
    var db, i := w.db, w.pc.i;
    var next := RecordDb(db, i, RunStep(host, defs[i], db.runtime, attempt));
    forall k, x | 0 <= k < |next.rows| && Lacks(next.rows[k], x)
      ensures exists p :: 0 <= p < k && x in KeySet(defs[p]) &&
                          (next.rows[p].status == Error || BoundNull(next.rows[p], x))
    {
      if k == i {
        MissingIsRead(host, defs[i], db.runtime, attempt, VarRef(Runtime, x));
        var p := MissingIff(defs, w, x, attempt.env, attempt.secret);
        assert next.rows[p] == db.rows[p];
      } else {
        assert Lacks(db.rows[k], x) && k < i;
        var p :| 0 <= p < k && x in KeySet(defs[p]) && (db.rows[p].status == Error || BoundNull(db.rows[p], x));
        assert next.rows[p] == db.rows[p];
      }
    }
  }

  /** Actions other than finishing a step keep errors, extractions and produced rows. */
  lemma OthersKeepSound(host: Host, defs: seq<StepDef>, w: World, a: Action)
    requires Shape(w, |defs|, w.db.stopOnFailure) && Sound(host, defs, w.db)
    requires !(a.FinishStep? && w.pc.InStep?)
    ensures Sound(host, defs, Apply(host, defs, w, a).db)
  {
    var db, next := w.db, Apply(host, defs, w, a).db;
    OthersKeepRows(host, defs, w, a);
    SoundFromRows(host, defs, db, next);
  }

  lemma OthersKeepRows(host: Host, defs: seq<StepDef>, w: World, a: Action)
    requires Shape(w, |defs|, w.db.stopOnFailure) && !(a.FinishStep? && w.pc.InStep?)
    ensures SameEvidence(w.db, Apply(host, defs, w, a).db)
  {
    hide RunStep, PendingFrom, LoopEnded;
  }

  /** Nothing that soundness looks at has changed. */
  ghost predicate SameEvidence(db: Db, next: Db) {
    && |next.rows| == |db.rows| && next.runtime == db.runtime && next.stopOnFailure == db.stopOnFailure
    && forall j :: 0 <= j < |db.rows| ==>
         && next.rows[j].error == db.rows[j].error && next.rows[j].extracted == db.rows[j].extracted
         && (Produces(next.rows[j]) <==> Produces(db.rows[j]))
         && (db.rows[j].status == Error ==> next.rows[j].status == Error)
         && (db.rows[j].status == Passed ==> next.rows[j].status == Passed)
  }

  lemma SoundFromRows(host: Host, defs: seq<StepDef>, db: Db, next: Db)
    requires Sound(host, defs, db) && SameEvidence(db, next)
    ensures Sound(host, defs, next)
  {
    hide KeySet, CanSitOut;
    forall i, x | 0 <= i < |next.rows| && Lacks(next.rows[i], x)
      ensures exists p :: 0 <= p < i && x in KeySet(defs[p]) &&
                          (next.rows[p].status == Error || BoundNull(next.rows[p], x))
    {
      assert Lacks(db.rows[i], x);
      var p :| 0 <= p < i && x in KeySet(defs[p]) && (db.rows[p].status == Error || BoundNull(db.rows[p], x));
      assert next.rows[p].status == Error || BoundNull(next.rows[p], x);
    }
    FaultyBound(defs, db, next);
    forall j, x | 0 <= j < |next.rows| && BoundNull(next.rows[j], x) ensures CanSitOut(host, defs[j], x) {
      assert BoundNull(db.rows[j], x);
    }
  }

  lemma {:induction false} SoundKept(host: Host, defs: seq<StepDef>, w: World, a: Action)
    requires Accepted(defs) && Shape(w, |defs|, w.db.stopOnFailure) && Sound(host, defs, w.db)
    ensures Sound(host, defs, Apply(host, defs, w, a).db)
  {
    hide RunStep, Sound, Accepted, RecordDb, Distinct;
    if a.FinishStep? && w.pc.InStep? {
      var i := w.pc.i;
      var outcome := RunStep(host, defs[i], w.db.runtime, a.attempt);
      assert Apply(host, defs, w, a).db == RecordDb(w.db, i, outcome);
      if outcome.Judged? {
        AcceptedKeys(defs, i);
        JudgedExtracts(host, defs[i], w.db.runtime, a.attempt);
        RecordJudged(host, defs, w, outcome.passed, outcome.extracted);
      } else {
        RecordFaulty(host, defs, w, a.attempt);
      }
    } else {
      OthersKeepSound(host, defs, w, a);
    }
  }

  lemma AcceptedKeys(defs: seq<StepDef>, i: nat)
    requires Accepted(defs) && i < |defs|
    ensures Distinct(Keys(defs[i]))
  {
  }

  lemma {:induction false} SoundHolds(host: Host, defs: seq<StepDef>, stopOnFailure: bool, actions: seq<Action>)
    requires Accepted(defs)
    ensures Sound(host, defs, After(host, defs, stopOnFailure, actions).db)
  {
    hide Apply, Accepted;
    if actions != [] {
      hide Sound;
      var n := |actions| - 1;
      SoundHolds(host, defs, stopOnFailure, actions[..n]);
      ShapeHolds(host, defs, stopOnFailure, actions[..n]);
      var w := After(host, defs, stopOnFailure, actions[..n]);
      SameSetting(w, |defs|, stopOnFailure);
      SoundKept(host, defs, w, actions[n]);
    }
  }

  lemma SameSetting(w: World, n: nat, stopOnFailure: bool)
    requires Shape(w, n, stopOnFailure)
    ensures Shape(w, n, w.db.stopOnFailure)
  {
  }

  // ------------------------------------------------------------------- theorems

  /**
    Blame: in a flow the static check accepted, whatever the responses and however
    stop requests interleave, a step that lacked runtime.x has one earlier producer of
    x, and that producer ended in an error or bound x to null through a text rule
    whose capture group took no part in the match.
   */
  lemma {:induction false} FlowBlame(host: Host, defs: seq<StepDef>, stopOnFailure: bool, actions: seq<Action>, i: nat, x: string)
    returns (p: nat)
    requires Accepted(defs) && i < |defs|
    requires Lacks(After(host, defs, stopOnFailure, actions).db.rows[i], x)
    ensures var rows := After(host, defs, stopOnFailure, actions).db.rows;
            && p < i && x in KeySet(defs[p])
            && (forall j :: 0 <= j < |defs| && x in KeySet(defs[j]) ==> j == p)
            && (rows[p].status == Error || (BoundNull(rows[p], x) && CanSitOut(host, defs[p], x)))
            && (stopOnFailure ==> rows[p].status == Passed)
  {
    hide CanSitOut, KeySet, Reads;
    SoundHolds(host, defs, stopOnFailure, actions);
    ShapeHolds(host, defs, stopOnFailure, actions);
    var rows := After(host, defs, stopOnFailure, actions).db.rows;
    p :| 0 <= p < i && x in KeySet(defs[p]) && (rows[p].status == Error || BoundNull(rows[p], x));
  }

  /** With failures stopping the run, only a text rule can leave a variable unbound. */
  lemma StopOnFailureBlamesText(host: Host, defs: seq<StepDef>, actions: seq<Action>, i: nat, x: string)
    returns (p: nat, rule: Rule)
    requires Accepted(defs) && i < |defs|
    requires Lacks(After(host, defs, true, actions).db.rows[i], x)
    ensures p < i && rule in defs[p].rules && rule.key == x && rule.source.Text?
  {
    hide Accepted, Reads, KeySet;
    p := FlowBlame(host, defs, true, actions, i, x);
    var r;
    rule, r :| rule in defs[p].rules && rule.key == x && GroupSatOut(host, rule, r);
  }

  /** So a variable whose producers have no such rule is never lacked. */
  lemma {:induction false} StopOnFailureNeverLacks(host: Host, defs: seq<StepDef>, actions: seq<Action>, i: nat, x: string)
    requires Accepted(defs) && i < |defs|
    requires forall j :: 0 <= j < i && x in KeySet(defs[j]) ==> !CanSitOut(host, defs[j], x)
    ensures !Lacks(After(host, defs, true, actions).db.rows[i], x)
  {
    hide Accepted, Reads, KeySet, CanSitOut;
    if Lacks(After(host, defs, true, actions).db.rows[i], x) {
      var _ := FlowBlame(host, defs, true, actions, i, x);
    }
  }

  // -------------------------------------------------- the flow saved is the flow executed

  /** The stored cases as saving a flow and executing it read them. */
  function Infos(s: Approval.State): map<CaseId, CaseInfo> {
    map id | id in s.cases ::
      CaseInfo(s.cases[id].status == Approval.Approved, s.cases[id].content.template, s.cases[id].content.assertions)
  }

  /**
    A flow that could be saved has the same steps at any later moment: whatever was
    generated, edited, reviewed or restarted in between, its cases are approved and frozen.
   */
  lemma {:induction false} SavedFlowIsExecuted(operations: seq<Approval.Operation>, later: seq<Approval.Operation>, items: seq<SuiteItem>)
    requires Saved(Infos(Approval.After(operations)), items).Ok?
    ensures Saved(Infos(Approval.After(operations + later)), items) == Saved(Infos(Approval.After(operations)), items)
  {
    var before, now := Infos(Approval.After(operations)), Infos(Approval.After(operations + later));
    forall i | 0 <= i < |items| ensures items[i].caseId in before && items[i].caseId in now && now[items[i].caseId] == before[items[i].caseId] {
      Approval.FrozenForever(operations, later, items[i].caseId);
    }
    hide Verdict, Infos, Approval.After;
    assert DefineAll(now, items) == DefineAll(before, items);
  }

  // ----------------------------------------------------------- the check at start

  /** The placeholder bindings `create_suite_execution_run` resolves every request with. */
  function PrecheckRuntime(defs: seq<StepDef>): map<string, Json> {
    map k | k in Produced(defs) :: Str("__flow_precheck__")
  }

  /** Every request of the flow resolves against the environment and the placeholders. */
  ghost predicate Prechecked(host: Host, defs: seq<StepDef>, env: map<string, Json>, secret: map<string, Json>) {
    forall i :: 0 <= i < |defs| ==>
      Resolve(host, Obj(Request(defs[i])), Namespaces(env, secret, PrecheckRuntime(defs))).Ok?
  }

  /** No step was recorded as missing an environment or secret variable. */
  ghost predicate EnvironmentSuffices(rows: seq<Row>) {
    forall i :: 0 <= i < |rows| && rows[i].error.Some? && rows[i].error.value.missing.Some? ==>
      rows[i].error.value.missing.value.ns == Runtime
  }

  /** The environment read while the flow runs is the one it was started with. */
  ghost predicate SameEnvironment(actions: seq<Action>, env: map<string, Json>, secret: map<string, Json>) {
    forall a :: a in actions && a.FinishStep? ==> a.attempt.env == env && a.attempt.secret == secret
  }

  lemma PrecheckedStep(host: Host, defs: seq<StepDef>, i: nat, runtime: map<string, Json>, attempt: Attempt, ref: VarRef)
    requires Prechecked(host, defs, attempt.env, attempt.secret) && i < |defs|
    requires RunStep(host, defs[i], runtime, attempt).Faulty?
    requires RunStep(host, defs[i], runtime, attempt).error.missing == Some(ref)
    ensures ref.ns == Runtime
  {
    hide RunStep, Resolve, Occurs, Request;
    MissingIsRead(host, defs[i], runtime, attempt, ref);
    ResolveExact(host, Obj(Request(defs[i])), Namespaces(attempt.env, attempt.secret, PrecheckRuntime(defs)));
  }

  lemma EnvironmentKept(host: Host, defs: seq<StepDef>, w: World, a: Action, env: map<string, Json>, secret: map<string, Json>)
    requires Shape(w, |defs|, w.db.stopOnFailure) && EnvironmentSuffices(w.db.rows)
    requires Prechecked(host, defs, env, secret) && SameEnvironment([a], env, secret)
    ensures EnvironmentSuffices(Apply(host, defs, w, a).db.rows)
  {
    hide RunStep, Prechecked, Sound;
    assert a in [a];
    if a.FinishStep? && w.pc.InStep? {
      var i := w.pc.i;
      var outcome := RunStep(host, defs[i], w.db.runtime, a.attempt);
      var next := Apply(host, defs, w, a).db.rows;
      assert next == RecordDb(w.db, i, outcome).rows;
      if outcome.Faulty? && outcome.error.missing.Some? {
        PrecheckedStep(host, defs, i, w.db.runtime, a.attempt, outcome.error.missing.value);
      }
      assert forall j :: 0 <= j < |next| && j != i ==> next[j] == w.db.rows[j];
    } else {
      OthersKeepRows(host, defs, w, a);
    }
  }

  lemma {:induction false} EnvironmentHolds(host: Host, defs: seq<StepDef>, stopOnFailure: bool, actions: seq<Action>,
                                            env: map<string, Json>, secret: map<string, Json>)
    requires Prechecked(host, defs, env, secret) && SameEnvironment(actions, env, secret)
    ensures EnvironmentSuffices(After(host, defs, stopOnFailure, actions).db.rows)
  {
    hide Apply, Prechecked;
    if actions != [] {
      var n := |actions| - 1;
      assert forall a :: a in actions[..n] ==> a in actions;
      EnvironmentHolds(host, defs, stopOnFailure, actions[..n], env, secret);
      ShapeHolds(host, defs, stopOnFailure, actions[..n]);
      var w := After(host, defs, stopOnFailure, actions[..n]);
      SameSetting(w, |defs|, stopOnFailure);
      assert actions[n] in actions;
      EnvironmentKept(host, defs, w, actions[n], env, secret);
    }
  }

  /**
    Accepted flows do not get stuck: accepted when saved, prechecked when started, no text
    rule whose group can sit out of a match, failures stopping the run and the environment
    left alone, no step is ever recorded as missing any variable.
   */
  lemma {:induction false} AcceptedFlowsDoNotGetStuck(host: Host, defs: seq<StepDef>, actions: seq<Action>, i: nat,
                                   env: map<string, Json>, secret: map<string, Json>)
    requires Accepted(defs) && i < |defs|
    requires Prechecked(host, defs, env, secret) && SameEnvironment(actions, env, secret)
    requires forall j, x :: 0 <= j < |defs| && x in KeySet(defs[j]) ==> !CanSitOut(host, defs[j], x)
    ensures var error := After(host, defs, true, actions).db.rows[i].error;
            error.Some? ==> error.value.missing.None?
  {
    hide Accepted, Prechecked, Reads, KeySet, CanSitOut;
    EnvironmentHolds(host, defs, true, actions, env, secret);
    ShapeHolds(host, defs, true, actions);
    var error := After(host, defs, true, actions).db.rows[i].error;
    if error.Some? && error.value.missing.Some? {
      StopOnFailureNeverLacks(host, defs, actions, i, error.value.missing.value.key);
    }
  }
}
