/**
  Saving a test flow (backend/app/modules/test_suites/service.py): the request
  override merge and the static check of who produces and who reads each variable.
 */
module Suites {
  import opened Wrappers
  import opened Json
  import opened Templates
  import opened Extraction
  import opened Assertions

  /** One step of a flow, with the approved case it runs. */
  datatype StepDef = StepDef(template: Fields, override: Fields, rules: seq<Rule>, assertions: seq<Assertion>)

  type CaseId = nat

  datatype CaseInfo = CaseInfo(approved: bool, template: Fields, assertions: seq<Assertion>)

  datatype SuiteItem = SuiteItem(caseId: CaseId, override: Fields, rules: seq<Rule>)

  datatype SuiteError =
    | TestCaseNotFound
    | TestCaseNotApproved
    | OverrideInvalid(position: nat)
    | ProducerMissing(position: nat, missing: set<string>)
    | VariableDuplicated(position: nat)

  const SECTIONS := {"path", "query", "headers", "body", "auth"}
  const MERGED_SECTIONS := {"path", "query", "headers", "body"}

  // --------------------------------------------------------------------- merging

  function MergeSection(merged: Fields, section: string, value: Json): Fields {
    var base := Find(merged, section);
    if section in MERGED_SECTIONS && value.Obj? && base.Some? && base.value.Obj?
    then Put(merged, section, Obj(Update(base.value.fields, value.fields)))
    else Put(merged, section, value)
  }

  function Merge(template: Fields, override: Fields): Fields
    decreases override
  {
    if override == [] then template
    else Merge(MergeSection(template, override[0].key, override[0].value), override[1..])
  }

  /** `_merge_template`; `_merge_request_template` of the executor is the same loop. */
  method MergeTemplate(template: Fields, override: Fields) returns (merged: Fields)
    ensures merged == Merge(template, override)
  {
    merged := template;
    for i := 0 to |override|
      invariant Merge(merged, override[i..]) == Merge(template, override)
    {
      assert override[i..][0] == override[i] && override[i..][1..] == override[i + 1..];
      merged := MergeSection(merged, override[i].key, override[i].value);
    }
  }

  /** What a section of the merged request is, in terms of the two sides. */
  function MergedSection(base: Option<Json>, over: Option<Json>, section: string): Option<Json> {
    if over.None? then base
    else if section in {"path", "query", "headers", "body"} && over.value.Obj? && base.Some? && base.value.Obj?
    then Some(Obj(Update(base.value.fields, over.value.fields)))
    else over
  }

  /** Merging works section by section: no section of the case is lost or moved. */
  lemma {:induction false} MergeBySection(template: Fields, override: Fields, section: string)
    requires DistinctKeys(override)
    ensures Find(Merge(template, override), section) ==
            MergedSection(Find(template, section), Find(override, section), section)
    decreases override
  {
    if override != [] {
      var key, value := override[0].key, override[0].value;
      var next := MergeSection(template, key, value);
      MergeBySection(next, override[1..], section);
      var base := Find(template, key);
      if key in MERGED_SECTIONS && value.Obj? && base.Some? && base.value.Obj? {
        FindPut(template, key, Obj(Update(base.value.fields, value.fields)), section);
      } else {
        FindPut(template, key, value, section);
      }
      if key == section {
        FindNone(override[1..], section);
      }
    }
  }

  /** Inside a merged section an overridden field wins and every other field survives. */
  lemma MergeByField(template: Fields, override: Fields, section: string, base: Fields, over: Fields, key: string)
    requires DistinctKeys(override) && DistinctKeys(over) && section in {"path", "query", "headers", "body"}
    requires Find(template, section) == Some(Obj(base)) && Find(override, section) == Some(Obj(over))
    ensures Find(Merge(template, override), section) == Some(Obj(Update(base, over)))
    ensures Find(Update(base, over), key) == if Find(over, key).Some? then Find(over, key) else Find(base, key)
  {
    MergeBySection(template, override, section);
    FindUpdate(base, over, key);
  }

  // ------------------------------------------------------- producers and readers

  function Request(def: StepDef): Fields { Merge(def.template, def.override) }

  /** Runtime keys the merged request of a step reads. */
  function Reads(def: StepDef): set<string> { FindRuntimeVariables(Obj(Request(def))) }

  function Keys(def: StepDef): seq<string> { RuleKeys(def.rules) }

  function KeySet(def: StepDef): set<string> { set k | k in Keys(def) }

  function SectionNames(fields: Fields): set<string> { KeysOf(fields) }

  predicate Distinct(keys: seq<string>) {
    forall i, j :: 0 <= i < j < |keys| ==> keys[i] != keys[j]
  }

  function Produced(defs: seq<StepDef>): set<string> {
    if defs == [] then {} else Produced(defs[..|defs| - 1]) + KeySet(defs[|defs| - 1])
  }

  /** The checks of one loop round, in their order. */
  function CheckStep(def: StepDef, produced: set<string>, position: nat): Option<SuiteError> {
    if SectionNames(def.override) - SECTIONS != {} then Some(OverrideInvalid(position))
    else if Reads(def) - produced != {} then Some(ProducerMissing(position, Reads(def) - produced))
    else if !Distinct(Keys(def)) || KeySet(def) * produced != {} then Some(VariableDuplicated(position))
    else None
  }

  /** The first problem met, positions counting from 1. */
  function Verdict(defs: seq<StepDef>): Option<SuiteError> {
    if defs == [] then None
    else
      var n := |defs|;
      var earlier := Verdict(defs[..n - 1]);
      if earlier.Some? then earlier else CheckStep(defs[n - 1], Produced(defs[..n - 1]), n)
  }

  function Define(cases: map<CaseId, CaseInfo>, item: SuiteItem): StepDef
    requires item.caseId in cases
  {
    StepDef(cases[item.caseId].template, item.override, item.rules, cases[item.caseId].assertions)
  }

  function DefineAll(cases: map<CaseId, CaseInfo>, items: seq<SuiteItem>): seq<StepDef>
    requires forall i :: 0 <= i < |items| ==> items[i].caseId in cases
  {
    seq(|items|, i requires 0 <= i < |items| => Define(cases, items[i]))
  }

  /** What saving a flow answers. */
  function Saved(cases: map<CaseId, CaseInfo>, items: seq<SuiteItem>): Result<seq<StepDef>, SuiteError> {
    if exists i :: 0 <= i < |items| && items[i].caseId !in cases then Err(TestCaseNotFound)
    else if exists i :: 0 <= i < |items| && !cases[items[i].caseId].approved then Err(TestCaseNotApproved)
    else
      match Verdict(DefineAll(cases, items))
      case Some(e) => Err(e)
      case None => Ok(DefineAll(cases, items))
  }

  lemma {:induction false} VerdictOfPrefix(defs: seq<StepDef>, n: nat)
    requires n <= |defs| && Verdict(defs[..n]).Some?
    ensures Verdict(defs) == Verdict(defs[..n])
    decreases |defs|
  {
    if n == |defs| {
      assert defs[..n] == defs;
    } else {
      var shorter := defs[..|defs| - 1];
      assert shorter[..n] == defs[..n];
      VerdictOfPrefix(shorter, n);
    }
  }

  /** `_replace_steps`: the loop grows the set of produced keys step by step. */
  method ReplaceSteps(cases: map<CaseId, CaseInfo>, items: seq<SuiteItem>)
    returns (r: Result<seq<StepDef>, SuiteError>)
    ensures r == Saved(cases, items)
  {
    hide CheckStep, KeySet;
    if exists i :: 0 <= i < |items| && items[i].caseId !in cases {
      return Err(TestCaseNotFound);
    }
    if exists i :: 0 <= i < |items| && !cases[items[i].caseId].approved {
      return Err(TestCaseNotApproved);
    }
    ghost var defs := DefineAll(cases, items);
    var produced: set<string> := {};
    var steps: seq<StepDef> := [];
    for i := 0 to |items|
      invariant steps == defs[..i]
      invariant produced == Produced(steps) && Verdict(steps) == None
    {
      var step := Define(cases, items[i]);
      assert step == defs[i] && defs[..i + 1] == steps + [step];
      assert (steps + [step])[..i] == steps;
      var problem := CheckStep(step, produced, i + 1);
      if problem.Some? {
        VerdictOfPrefix(defs, i + 1);
        return Err(problem.value);
      }
      steps := steps + [step];
      produced := produced + KeySet(step);
    }
    assert defs[..|items|] == defs;
    return Ok(steps);
  }

  // ------------------------------------------------------- what acceptance means

  /**
    A flow is sound on paper: only known sections are overridden, no key has two
    producers, and whatever a step reads is produced strictly before it.
   */
  ghost predicate Accepted(defs: seq<StepDef>) {
    && (forall i :: 0 <= i < |defs| ==> SectionNames(defs[i].override) <= {"path", "query", "headers", "body", "auth"})
    && (forall i :: 0 <= i < |defs| ==> Distinct(Keys(defs[i])))
    && (forall i, j, x :: 0 <= i < j < |defs| && x in KeySet(defs[i]) ==> x !in KeySet(defs[j]))
    && (forall i, x :: 0 <= i < |defs| && x in Reads(defs[i]) ==> exists j :: 0 <= j < i && x in KeySet(defs[j]))
  }

  lemma {:induction false} ProducedExact(defs: seq<StepDef>, x: string)
    ensures x in Produced(defs) <==> exists j :: 0 <= j < |defs| && x in KeySet(defs[j])
  {
    if defs != [] {
      var n := |defs| - 1;
      var front := defs[..n];
      ProducedExact(front, x);
      assert forall j :: 0 <= j < n ==> front[j] == defs[j];
    }
  }

  ghost predicate StepSound(def: StepDef, produced: set<string>) {
    SectionNames(def.override) <= SECTIONS && Reads(def) <= produced &&
    Distinct(Keys(def)) && KeySet(def) !! produced
  }

  lemma CheckStepExact(def: StepDef, produced: set<string>, position: nat)
    ensures CheckStep(def, produced, position).None? <==> StepSound(def, produced)
  {
    EmptyDifference(SectionNames(def.override), SECTIONS);
    EmptyDifference(Reads(def), produced);
  }

  lemma EmptyDifference<T>(a: set<T>, b: set<T>)
    ensures a - b == {} <==> a <= b
  {
    if a - b == {} {
      forall x | x in a ensures x in b {
        assert x !in a - b;
      }
    }
  }

  lemma AcceptedStep(defs: seq<StepDef>, n: nat)
    requires |defs| == n + 1
    ensures Accepted(defs) <==> Accepted(defs[..n]) && StepSound(defs[n], Produced(defs[..n]))
  {
    hide Reads, KeySet, Distinct, SectionNames, Produced;
    var front, last := defs[..n], defs[n];
    assert forall j :: 0 <= j < n ==> front[j] == defs[j];
    forall x ensures x in Produced(front) <==> exists j :: 0 <= j < n && x in KeySet(defs[j]) {
      ProducedExact(front, x);
      if j :| 0 <= j < n && x in KeySet(defs[j]) {
        assert x in KeySet(front[j]);
      }
    }
  }

  /** The incremental check accepts exactly the flows that are sound on paper. */
  lemma {:induction false} VerdictExact(defs: seq<StepDef>)
    ensures Verdict(defs).None? <==> Accepted(defs)
  {
    if defs != [] {
      var n := |defs| - 1;
      VerdictExact(defs[..n]);
      AcceptedStep(defs, n);
      CheckStepExact(defs[n], Produced(defs[..n]), n + 1);
    }
  }

  ghost predicate ProducedBefore(defs: seq<StepDef>, k: nat, x: string)
    requires k <= |defs|
  {
    exists j :: 0 <= j < k && x in KeySet(defs[j])
  }

  /** What is wrong with step k of a flow that is sound up to it, told with its position from 1. */
  ghost predicate Problem(defs: seq<StepDef>, k: nat, e: SuiteError)
    requires k < |defs|
  {
    var def := defs[k];
    if !(SectionNames(def.override) <= SECTIONS) then e == OverrideInvalid(k + 1)
    else if exists x :: x in Reads(def) && !ProducedBefore(defs, k, x) then
      e.ProducerMissing? && e.position == k + 1 &&
      forall x :: x in e.missing <==> x in Reads(def) && !ProducedBefore(defs, k, x)
    else
      e == VariableDuplicated(k + 1) && (!Distinct(Keys(def)) || exists x :: x in KeySet(def) && ProducedBefore(defs, k, x))
  }

  lemma CheckStepProblem(defs: seq<StepDef>, k: nat)
    requires k < |defs| && CheckStep(defs[k], Produced(defs[..k]), k + 1).Some?
    ensures Problem(defs, k, CheckStep(defs[k], Produced(defs[..k]), k + 1).value)
  {
    var def, produced := defs[k], Produced(defs[..k]);
    forall x ensures x in produced <==> ProducedBefore(defs, k, x) {
      ProducedExact(defs[..k], x);
    }
    EmptyDifference(SectionNames(def.override), SECTIONS);
    EmptyDifference(Reads(def), produced);
    hide Reads, KeySet, Keys, Distinct, SectionNames, Produced, ProducedBefore;
  }

  /** A flow is refused for the first step that is not sound. */
  lemma {:induction false} VerdictIsFirstProblem(defs: seq<StepDef>) returns (k: nat)
    requires Verdict(defs).Some?
    ensures k < |defs| && Accepted(defs[..k]) && Problem(defs, k, Verdict(defs).value)
  {
    hide CheckStep, Accepted, Problem;
    var n := |defs| - 1;
    if Verdict(defs[..n]).Some? {
      k := VerdictIsFirstProblem(defs[..n]);
      assert defs[..n][..k] == defs[..k];
      ProblemOfPrefix(defs, n, k, Verdict(defs).value);
    } else {
      k := n;
      VerdictExact(defs[..n]);
      CheckStepProblem(defs, n);
    }
  }

  lemma ProblemOfPrefix(defs: seq<StepDef>, n: nat, k: nat, e: SuiteError)
    requires k < n <= |defs| && Problem(defs[..n], k, e)
    ensures Problem(defs, k, e)
  {
    hide Reads, KeySet, Keys, Distinct, SectionNames;
    forall x ensures ProducedBefore(defs, k, x) <==> ProducedBefore(defs[..n], k, x) {
      if j :| 0 <= j < k && x in KeySet(defs[j]) {
        assert defs[..n][j] == defs[j];
      }
    }
    hide ProducedBefore;
  }

  /**
    What saving a flow answers: a missing case first, an unapproved one next, then the
    first step that is not sound; else one step for each item, in order, with
    the item's override and rules and its case's template and assertions.
   */
  lemma SavedExact(cases: map<CaseId, CaseInfo>, items: seq<SuiteItem>)
    ensures Saved(cases, items) == Err(TestCaseNotFound) <==> exists i :: 0 <= i < |items| && items[i].caseId !in cases
    ensures Saved(cases, items) == Err(TestCaseNotApproved) <==>
            (forall i :: 0 <= i < |items| ==> items[i].caseId in cases) &&
            (exists i :: 0 <= i < |items| && !cases[items[i].caseId].approved)
    ensures match Saved(cases, items)
            case Ok(steps) =>
              && Accepted(steps) && |steps| == |items|
              && forall i :: 0 <= i < |items| ==>
                   && items[i].caseId in cases && cases[items[i].caseId].approved
                   && steps[i].override == items[i].override && steps[i].rules == items[i].rules
                   && steps[i].template == cases[items[i].caseId].template
                   && steps[i].assertions == cases[items[i].caseId].assertions
            case Err(TestCaseNotFound) => true
            case Err(TestCaseNotApproved) => true
            case Err(e) =>
              && (forall i :: 0 <= i < |items| ==> items[i].caseId in cases)
              && exists k: nat :: k < |items| && Accepted(DefineAll(cases, items)[..k]) && Problem(DefineAll(cases, items), k, e)
  {
    hide Accepted, Problem, Verdict;
    if forall i :: 0 <= i < |items| ==> items[i].caseId in cases && cases[items[i].caseId].approved {
      var defs := DefineAll(cases, items);
      VerdictExact(defs);
      if Verdict(defs).Some? {
        var k := VerdictIsFirstProblem(defs);
        assert Verdict(defs).value != TestCaseNotFound && Verdict(defs).value != TestCaseNotApproved by {
          ProblemKind(defs, k, Verdict(defs).value);
        }
      }
    }
  }

  lemma ProblemKind(defs: seq<StepDef>, k: nat, e: SuiteError)
    requires k < |defs| && Problem(defs, k, e)
    ensures e != TestCaseNotFound && e != TestCaseNotApproved
  {
    hide Reads, KeySet, Keys, Distinct, SectionNames, ProducedBefore;
  }

  /** In an accepted flow each variable read has one producer, and it comes earlier. */
  lemma UniqueProducer(defs: seq<StepDef>, i: nat, x: string) returns (p: nat)
    requires Accepted(defs) && i < |defs| && x in Reads(defs[i])
    ensures p < i && x in KeySet(defs[p])
    ensures forall j :: 0 <= j < |defs| && x in KeySet(defs[j]) ==> j == p
  {
    p :| p < i && x in KeySet(defs[p]);
  }
}
