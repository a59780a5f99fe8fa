/**
  Execution reports (backend/app/modules/reports/service.py) and the retry of failed
  cases: counters recomputed from the steps against the counters kept by the run.
 */
module Reports {
  import opened Wrappers
  import opened Json
  import opened Templates
  import opened Suites
  import opened Execution

  datatype Counter = Counter(total: nat, passed: nat, failed: nat, skipped: nat)

  const ZERO := Counter(0, 0, 0, 0)

  /** Why a step failed; a step without an error reports no category and "UNKNOWN". */
  datatype Reason = Reason(category: Option<ErrorCategory>, code: string)

  /** `_increment_counter`. */
  function Increment(c: Counter, status: StepStatus): Counter {
    var counted := c.(total := c.total + 1);
    match status
    case Passed => counted.(passed := c.passed + 1)
    case Failed => counted.(failed := c.failed + 1)
    case Error => counted.(failed := c.failed + 1)
    case Skipped => counted.(skipped := c.skipped + 1)
    case Stopped => counted.(skipped := c.skipped + 1)
    case _ => counted
  }

  /** A `defaultdict(ReportCounter)` after the steps with a label have been counted. */
  function Tally(labels: seq<Option<string>>, rows: seq<Row>): map<string, Counter>
    requires |labels| == |rows|
  {
    if rows == [] then map[]
    else
      var n := |rows| - 1;
      var earlier := Tally(labels[..n], rows[..n]);
      if labels[n].None? then earlier
      else
        var key := labels[n].value;
        earlier[key := Increment(if key in earlier then earlier[key] else ZERO, rows[n].status)]
  }

  function ReasonOf(row: Row): Reason {
    match row.error
    case Some(e) => Reason(Some(e.category), if e.code == "" then "UNKNOWN" else e.code)
    case None => Reason(None, "UNKNOWN")
  }

  /** The failure-reason counter over the steps whose case still exists. */
  function Reasons(present: seq<bool>, rows: seq<Row>): map<Reason, nat>
    requires |present| == |rows|
  {
    if rows == [] then map[]
    else
      var n := |rows| - 1;
      var earlier := Reasons(present[..n], rows[..n]);
      var reason := ReasonOf(rows[n]);
      if !present[n] || !Failing(rows[n]) then earlier
      else earlier[reason := 1 + if reason in earlier then earlier[reason] else 0]
  }

  datatype CaseLabels = CaseLabels(category: string, api: nat)

  function CategoryOf(cases: map<CaseId, CaseLabels>, id: CaseId): Option<string> {
    if id in cases then Some(cases[id].category) else None
  }

  /** The API label needs both the case and its API definition to exist. */
  function ApiOf(cases: map<CaseId, CaseLabels>, apis: map<nat, string>, id: CaseId): Option<string> {
    if id in cases && cases[id].api in apis then Some(apis[cases[id].api]) else None
  }

  function Categories(cases: map<CaseId, CaseLabels>, ids: seq<CaseId>): seq<Option<string>> {
    seq(|ids|, i requires 0 <= i < |ids| => CategoryOf(cases, ids[i]))
  }

  function Apis(cases: map<CaseId, CaseLabels>, apis: map<nat, string>, ids: seq<CaseId>): seq<Option<string>> {
    seq(|ids|, i requires 0 <= i < |ids| => ApiOf(cases, apis, ids[i]))
  }

  function Present(cases: map<CaseId, CaseLabels>, ids: seq<CaseId>): seq<bool> {
    seq(|ids|, i requires 0 <= i < |ids| => ids[i] in cases)
  }

  /** The aggregation loop of `get_report`. */
  method GetReport(rows: seq<Row>, ids: seq<CaseId>, cases: map<CaseId, CaseLabels>, apis: map<nat, string>)
    returns (byCategory: map<string, Counter>, byApi: map<string, Counter>, reasons: map<Reason, nat>)
    requires |ids| == |rows|
    ensures byCategory == Tally(Categories(cases, ids), rows)
    ensures byApi == Tally(Apis(cases, apis, ids), rows)
    ensures reasons == Reasons(Present(cases, ids), rows)
  {
    hide Increment, ReasonOf;
    byCategory, byApi, reasons := map[], map[], map[];
    for i := 0 to |rows|
      invariant byCategory == Tally(Categories(cases, ids)[..i], rows[..i])
      invariant byApi == Tally(Apis(cases, apis, ids)[..i], rows[..i])
      invariant reasons == Reasons(Present(cases, ids)[..i], rows[..i])
    {
      TallyNext(Categories(cases, ids), rows, i);
      TallyNext(Apis(cases, apis, ids), rows, i);
      ReasonsNext(Present(cases, ids), rows, i);
      var status := rows[i].status;
      if ids[i] in cases {
        var labels := cases[ids[i]];
        var counter := if labels.category in byCategory then byCategory[labels.category] else ZERO;
        byCategory := byCategory[labels.category := Increment(counter, status)];
        if labels.api in apis {
          var api := apis[labels.api];
          counter := if api in byApi then byApi[api] else ZERO;
          byApi := byApi[api := Increment(counter, status)];
        }
        if status == Failed || status == Error {
          var reason := ReasonOf(rows[i]);
          reasons := reasons[reason := 1 + if reason in reasons then reasons[reason] else 0];
        }
      }
    }
    assert rows[..|rows|] == rows && Categories(cases, ids)[..|rows|] == Categories(cases, ids);
    assert Apis(cases, apis, ids)[..|rows|] == Apis(cases, apis, ids);
    assert Present(cases, ids)[..|rows|] == Present(cases, ids);
  }

  lemma TallyNext(labels: seq<Option<string>>, rows: seq<Row>, i: nat)
    requires |labels| == |rows| && i < |rows|
    ensures var earlier := Tally(labels[..i], rows[..i]);
            Tally(labels[..i + 1], rows[..i + 1]) ==
            if labels[i].None? then earlier
            else earlier[labels[i].value := Increment(
                   if labels[i].value in earlier then earlier[labels[i].value] else ZERO, rows[i].status)]
  {
    assert labels[..i + 1][..i] == labels[..i] && rows[..i + 1][..i] == rows[..i];
  }

  lemma ReasonsNext(present: seq<bool>, rows: seq<Row>, i: nat)
    requires |present| == |rows| && i < |rows|
    ensures var earlier := Reasons(present[..i], rows[..i]);
            var reason := ReasonOf(rows[i]);
            Reasons(present[..i + 1], rows[..i + 1]) ==
            if !present[i] || !Failing(rows[i]) then earlier
            else earlier[reason := 1 + if reason in earlier then earlier[reason] else 0]
  {
    assert present[..i + 1][..i] == present[..i] && rows[..i + 1][..i] == rows[..i];
  }

  // ------------------------------------------------------- what a counter holds

  const ALL := {Pending, Running, Passed, Failed, Error, Skipped, Stopped}

  /** Number of steps with the given label and one of the given statuses. */
  function Labelled(labels: seq<Option<string>>, rows: seq<Row>, key: string, statuses: set<StepStatus>): nat
    requires |labels| == |rows|
  {
    if rows == [] then 0
    else
      var n := |rows| - 1;
      Labelled(labels[..n], rows[..n], key, statuses) +
      if labels[n] == Some(key) && rows[n].status in statuses then 1 else 0
  }

  /** Each dimension counts exactly its own steps. */
  lemma {:induction false} TallyExact(labels: seq<Option<string>>, rows: seq<Row>, key: string)
    requires |labels| == |rows|
    ensures key in Tally(labels, rows) <==> Some(key) in labels
    ensures key in Tally(labels, rows) ==>
              Tally(labels, rows)[key] == Counter(Labelled(labels, rows, key, ALL),
                                                  Labelled(labels, rows, key, {Passed}),
                                                  Labelled(labels, rows, key, {Failed, Error}),
                                                  Labelled(labels, rows, key, {Skipped, Stopped}))
    ensures key !in Tally(labels, rows) ==>
              forall s | s in {ALL, {Passed}, {Failed, Error}, {Skipped, Stopped}} :: Labelled(labels, rows, key, s) == 0
  {
    if rows != [] {
      var n := |rows| - 1;
      TallyExact(labels[..n], rows[..n], key);
      assert labels == labels[..n] + [labels[n]];
      InAll(rows[n].status);
    }
  }

  /** A step counts for the category of its stored case, and for that case's API while it exists. */
  lemma ReportKeys(rows: seq<Row>, ids: seq<CaseId>, cases: map<CaseId, CaseLabels>, apis: map<nat, string>, key: string)
    requires |ids| == |rows|
    ensures key in Tally(Categories(cases, ids), rows) <==> exists id :: id in ids && id in cases && cases[id].category == key
    ensures key in Tally(Apis(cases, apis, ids), rows) <==>
            exists id :: id in ids && id in cases && cases[id].api in apis && apis[cases[id].api] == key
  {
    TallyExact(Categories(cases, ids), rows, key);
    TallyExact(Apis(cases, apis, ids), rows, key);
    hide Tally, Labelled;
    if id :| id in ids && id in cases && cases[id].category == key {
      var i :| 0 <= i < |ids| && ids[i] == id;
      assert Categories(cases, ids)[i] == Some(key);
    }
    if id :| id in ids && id in cases && cases[id].api in apis && apis[cases[id].api] == key {
      var i :| 0 <= i < |ids| && ids[i] == id;
      assert Apis(cases, apis, ids)[i] == Some(key);
    }
  }

  /** A failed step whose case exists counts under its error's category and code, "UNKNOWN" where it has none. */
  ghost predicate FailsFor(present: bool, row: Row, reason: Reason) {
    && present && (row.status == Failed || row.status == Error)
    && match row.error
       case Some(e) => reason.category == Some(e.category) && reason.code == (if e.code != "" then e.code else "UNKNOWN")
       case None => reason.category == None && reason.code == "UNKNOWN"
  }

  /** The steps that failed for a reason. */
  ghost function FailedFor(present: seq<bool>, rows: seq<Row>, reason: Reason): set<nat>
    requires |present| == |rows|
  {
    set i: nat | i < |rows| && FailsFor(present[i], rows[i], reason)
  }

  lemma FailedForNext(present: seq<bool>, rows: seq<Row>, n: nat, reason: Reason)
    requires |present| == |rows| == n + 1
    ensures n !in FailedFor(present[..n], rows[..n], reason)
    ensures FailedFor(present, rows, reason) ==
            FailedFor(present[..n], rows[..n], reason) + if FailsFor(present[n], rows[n], reason) then {n} else {}
  {
    hide FailsFor;
  }

  /** Each reason is listed if some step failed for it, with the number of those steps. */
  lemma {:induction false} ReasonsExact(present: seq<bool>, rows: seq<Row>, reason: Reason)
    requires |present| == |rows|
    ensures reason in Reasons(present, rows) <==> FailedFor(present, rows, reason) != {}
    ensures reason in Reasons(present, rows) ==> Reasons(present, rows)[reason] == |FailedFor(present, rows, reason)|
  {
    if rows != [] {
      var n := |rows| - 1;
      ReasonsExact(present[..n], rows[..n], reason);
      FailedForNext(present, rows, n, reason);
      assert FailsFor(present[n], rows[n], reason) <==> present[n] && Failing(rows[n]) && ReasonOf(rows[n]) == reason;
      hide FailsFor, ReasonOf, FailedFor;
    }
  }

  // ---------------------------------------------------------------------- sums

  ghost function Sum<K(!new)>(m: map<K, nat>): nat
    decreases |m|
  {
    if m == map[] then 0 else var k :| k in m; m[k] + Sum(m - {k})
  }

  lemma {:induction false} SumRemove<K(!new)>(m: map<K, nat>, k: K)
    requires k in m
    ensures Sum(m) == m[k] + Sum(m - {k})
    decreases |m|
  {
    var p :| p in m && Sum(m) == m[p] + Sum(m - {p});
    if p != k {
      SumRemove(m - {p}, k);
      SumRemove(m - {k}, p);
      assert m - {p} - {k} == m - {k} - {p};
    }
  }

  lemma SumPut<K(!new)>(m: map<K, nat>, k: K, v: nat)
    ensures Sum(m[k := v]) == Sum(m) + v - (if k in m then m[k] else 0)
  {
    var put := m[k := v];
    SumRemove(put, k);
    if k in m {
      SumRemove(m, k);
      assert put - {k} == m - {k};
    } else {
      assert put - {k} == m;
    }
  }

  /** One column of a table of counters. */
  function Column(m: map<string, Counter>, f: Counter -> nat): map<string, nat> {
    map k | k in m :: f(m[k])
  }

  function TotalOf(c: Counter): nat { c.total }

  function PassedOf(c: Counter): nat { c.passed }

  function FailedOf(c: Counter): nat { c.failed }

  function SkippedOf(c: Counter): nat { c.skipped }

  /** Number of labelled steps with one of the given statuses. */
  function LabelledAny(labels: seq<Option<string>>, rows: seq<Row>, statuses: set<StepStatus>): nat
    requires |labels| == |rows|
  {
    if rows == [] then 0
    else
      var n := |rows| - 1;
      LabelledAny(labels[..n], rows[..n], statuses) +
      if labels[n].Some? && rows[n].status in statuses then 1 else 0
  }

  lemma ColumnPut(m: map<string, Counter>, f: Counter -> nat, key: string, c: Counter)
    ensures Sum(Column(m[key := c], f)) == Sum(Column(m, f)) + f(c) - (if key in m then f(m[key]) else 0)
  {
    assert Column(m[key := c], f) == Column(m, f)[key := f(c)];
    SumPut(Column(m, f), key, f(c));
  }

  lemma SumOfNothing(f: Counter -> nat)
    ensures Sum(Column(map[], f)) == 0
  {
    assert Column(map[], f) == map[];
  }

  lemma SumsAfterPut(m: map<string, Counter>, key: string, status: StepStatus)
    ensures var put := m[key := Increment(if key in m then m[key] else ZERO, status)];
            && Sum(Column(put, TotalOf)) == Sum(Column(m, TotalOf)) + 1
            && Sum(Column(put, PassedOf)) == Sum(Column(m, PassedOf)) + (if status == Passed then 1 else 0)
            && Sum(Column(put, FailedOf)) == Sum(Column(m, FailedOf)) + (if status in {Failed, Error} then 1 else 0)
            && Sum(Column(put, SkippedOf)) == Sum(Column(m, SkippedOf)) + (if status in {Skipped, Stopped} then 1 else 0)
  {
    hide Sum, Column;
    var next := Increment(if key in m then m[key] else ZERO, status);
    ColumnPut(m, TotalOf, key, next);
    ColumnPut(m, PassedOf, key, next);
    ColumnPut(m, FailedOf, key, next);
    ColumnPut(m, SkippedOf, key, next);
  }

  lemma InAll(status: StepStatus)
    ensures status in ALL
  {
    match status
    case Pending => case Running => case Passed => case Failed =>
    case Error => case Skipped => case Stopped =>
  }

  /** Whatever the labels, the dimensions together count each labelled step once. */
  lemma {:induction false} TallySums(labels: seq<Option<string>>, rows: seq<Row>)
    requires |labels| == |rows|
    ensures var m := Tally(labels, rows);
            && Sum(Column(m, TotalOf)) == LabelledAny(labels, rows, ALL)
            && Sum(Column(m, PassedOf)) == LabelledAny(labels, rows, {Passed})
            && Sum(Column(m, FailedOf)) == LabelledAny(labels, rows, {Failed, Error})
            && Sum(Column(m, SkippedOf)) == LabelledAny(labels, rows, {Skipped, Stopped})
  {
    hide Sum, Column, Increment;
    if rows == [] {
      SumOfNothing(TotalOf);
      SumOfNothing(PassedOf);
      SumOfNothing(FailedOf);
      SumOfNothing(SkippedOf);
    } else {
      var n := |rows| - 1;
      TallySums(labels[..n], rows[..n]);
      if labels[n].Some? {
        SumsAfterPut(Tally(labels[..n], rows[..n]), labels[n].value, rows[n].status);
      }
    }
  }

  lemma {:induction false} AllLabelled(labels: seq<Option<string>>, rows: seq<Row>, statuses: set<StepStatus>)
    requires |labels| == |rows|
    ensures LabelledAny(labels, rows, statuses) <= Count(rows, statuses)
    ensures (forall i :: 0 <= i < |labels| ==> labels[i].Some?) ==>
              LabelledAny(labels, rows, statuses) == Count(rows, statuses)
    ensures LabelledAny(labels, rows, ALL) == |rows| ==> forall i :: 0 <= i < |labels| ==> labels[i].Some?
  {
    if rows != [] {
      var n := |rows| - 1;
      AllLabelled(labels[..n], rows[..n], statuses);
      AllLabelledBound(labels[..n], rows[..n]);
      assert forall i :: 0 <= i < n ==> labels[..n][i] == labels[i];
    }
  }

  lemma {:induction false} AllLabelledBound(labels: seq<Option<string>>, rows: seq<Row>)
    requires |labels| == |rows|
    ensures LabelledAny(labels, rows, ALL) <= |rows|
  {
    if rows != [] {
      AllLabelledBound(labels[..|rows| - 1], rows[..|rows| - 1]);
    }
  }

  lemma {:induction false} CountEverything(rows: seq<Row>)
    ensures Count(rows, ALL) == |rows|
  {
    if rows != [] {
      var n := |rows| - 1;
      CountEverything(rows[..n]);
      InAll(rows[n].status);
    }
  }

  /** The columns of a report count the labelled steps, and with every label present all steps. */
  lemma {:induction false} ColumnsCount(labels: seq<Option<string>>, rows: seq<Row>)
    requires |labels| == |rows|
    ensures var m := Tally(labels, rows);
            && (Sum(Column(m, TotalOf)) == |rows| <==> forall i :: 0 <= i < |labels| ==> labels[i].Some?)
            && ((forall i :: 0 <= i < |labels| ==> labels[i].Some?) ==>
                  && Sum(Column(m, PassedOf)) == Count(rows, {Passed})
                  && Sum(Column(m, FailedOf)) == Count(rows, {Failed, Error})
                  && Sum(Column(m, SkippedOf)) == Count(rows, {Skipped, Stopped}))
  {
    TallySums(labels, rows);
    AllLabelled(labels, rows, ALL);
    AllLabelled(labels, rows, {Passed});
    AllLabelled(labels, rows, {Failed, Error});
    AllLabelled(labels, rows, {Skipped, Stopped});
    CountEverything(rows);
  }

  /**
    The report against the run, at every commit of every interleaving: the dimensions sum
    to the run's total exactly when no step has lost its label.  Then the passed and failed
    columns always sum to the run's counters, and the skipped column does exactly when the
    run was not revived by the start commit with a step begun since.
   */
  lemma {:induction false} ReportAgrees(host: Host, defs: seq<StepDef>, stopOnFailure: bool, actions: seq<Action>, labels: seq<Option<string>>)
    requires |labels| == |defs|
    ensures var w := After(host, defs, stopOnFailure, actions);
            var m := Tally(labels, w.db.rows);
            && (Sum(Column(m, TotalOf)) == w.db.total <==> forall i :: 0 <= i < |labels| ==> labels[i].Some?)
            && (Sum(Column(m, TotalOf)) == w.db.total ==>
                  && Sum(Column(m, PassedOf)) == w.db.passed
                  && Sum(Column(m, FailedOf)) == w.db.failed
                  && (Sum(Column(m, SkippedOf)) == w.db.skipped <==> !(w.raced && Begun(w.db.rows))))
  {
    CountedHolds(host, defs, stopOnFailure, actions);
    ShapeHolds(host, defs, stopOnFailure, actions);
    ConservationExact(host, defs, stopOnFailure, actions);
    var w := After(host, defs, stopOnFailure, actions);
    ColumnsCount(labels, w.db.rows);
    assert w.db.total == |defs|;
    hide Tally, Sum, Column, Count, After, Begun, AtMostOneRunning;
  }

  /** In a revived run whose step has begun, the report shows nothing skipped where the run counts one. */
  lemma RevivedReportDisagrees(host: Host, def: StepDef, key: string)
    ensures var w := After(host, [def], false, [Claim] + [UserStop] + [Start] + [Look] + [BeginStep]);
            w.db.skipped == 1 && Sum(Column(Tally([Some(key)], w.db.rows), SkippedOf)) == 0
  {
    RacedStartExample(host, def);
    hide After;
    var rows := [IDLE_ROW.(status := Running)];
    ColumnsCount([Some(key)], rows);
    assert rows[..0] == [] && Count(rows, {Skipped, Stopped}) == 0;
    hide Tally, Column, Sum;
  }

  /** The failure reasons count the failed steps whose case is present: all of them, or fewer. */
  lemma {:induction false} ReasonsCount(present: seq<bool>, rows: seq<Row>)
    requires |present| == |rows|
    ensures Sum(Reasons(present, rows)) <= Count(rows, {Failed, Error})
    ensures Sum(Reasons(present, rows)) == Count(rows, {Failed, Error}) <==>
            forall i :: 0 <= i < |rows| && Failing(rows[i]) ==> present[i]
  {
    if rows != [] {
      var n := |rows| - 1;
      ReasonsCount(present[..n], rows[..n]);
      var earlier := Reasons(present[..n], rows[..n]);
      var reason := ReasonOf(rows[n]);
      SumPut(earlier, reason, 1 + if reason in earlier then earlier[reason] else 0);
      hide ReasonOf, Sum;
      assert forall i :: 0 <= i < n ==> rows[..n][i] == rows[i] && present[..n][i] == present[i];
    }
  }

  /** At every commit the failure reasons sum to the run's failed count exactly when no failed step has lost its case. */
  lemma {:induction false} ReasonsSum(host: Host, defs: seq<StepDef>, stopOnFailure: bool, actions: seq<Action>, present: seq<bool>)
    requires |present| == |defs|
    ensures var db := After(host, defs, stopOnFailure, actions).db;
            Sum(Reasons(present, db.rows)) == db.failed <==>
              forall i :: 0 <= i < |db.rows| && Failing(db.rows[i]) ==> present[i]
  {
    CountedHolds(host, defs, stopOnFailure, actions);
    ReasonsCount(present, After(host, defs, stopOnFailure, actions).db.rows);
    hide After, Reasons, Sum, Count;
  }

  // ---------------------------------------------------------------------- retry

  datatype RetryError =
    | RetryNotAvailable | EnvironmentNotFound
    | CaseDuplicated | CaseNotFound | CaseNotApproved
    | EnvironmentRefused(code: string)
    | TemplateInvalid(at: CaseId)
    | VariableMissing(at: CaseId, ref: VarRef)
    | RequestRefused(at: CaseId, code: string)
    | ConfirmationRefused(code: string)

  /**
    What creating a run finds besides the cases: the environment's variables, and what the
    checks outside this model answer (an unreadable secret or a missing API definition,
    the request checks after its variables are resolved, the write confirmation).
   */
  datatype Surroundings = Surroundings(
    environmentFound: bool, env: map<string, Json>, secret: map<string, Json>,
    environmentError: Option<string>, requestError: CaseId -> Option<string>, confirmationError: Option<string>)

  /** Case ids of the failed steps, in step order. */
  function RetryIds(rows: seq<Row>, ids: seq<CaseId>): seq<CaseId>
    requires |ids| == |rows|
  {
    if rows == [] then []
    else
      var n := |rows| - 1;
      RetryIds(rows[..n], ids[..n]) + if Failing(rows[n]) then [ids[n]] else []
  }

  predicate DistinctIds(ids: seq<CaseId>) {
    forall i, j :: 0 <= i < j < |ids| ==> ids[i] != ids[j]
  }

  /** `build_request` on a case's own template, with no runtime variables. */
  function CheckRequest(host: Host, world: Surroundings, cases: map<CaseId, CaseInfo>, id: CaseId): Option<RetryError>
    requires id in cases
  {
    var template := cases[id].template;
    if SectionNames(template) - SECTIONS != {} then Some(TemplateInvalid(id))
    else
      match Resolve(host, Obj(template), Namespaces(world.env, world.secret, map[]))
      case Err(ref) => Some(VariableMissing(id, ref))
      case Ok(_) =>
        match world.requestError(id)
        case Some(code) => Some(RequestRefused(id, code))
        case None => None
  }

  /** The loop that builds every request before anything is stored: the first refusal, if any. */
  function CheckRequests(host: Host, world: Surroundings, cases: map<CaseId, CaseInfo>, ids: seq<CaseId>): Option<RetryError>
    requires forall id :: id in ids ==> id in cases
  {
    if ids == [] then None
    else
      var first := CheckRequest(host, world, cases, ids[0]);
      if first.Some? then first else CheckRequests(host, world, cases, ids[1..])
  }

  /** `create_execution_run`; the result lists the steps it creates. */
  function CreateRun(host: Host, world: Surroundings, cases: map<CaseId, CaseInfo>, ids: seq<CaseId>): Result<seq<CaseId>, RetryError> {
    if !world.environmentFound then Err(EnvironmentNotFound)
    else if !DistinctIds(ids) then Err(CaseDuplicated)
    else if exists id :: id in ids && id !in cases then Err(CaseNotFound)
    else if exists id :: id in ids && !cases[id].approved then Err(CaseNotApproved)
    else if world.environmentError.Some? then Err(EnvironmentRefused(world.environmentError.value))
    else
      var refusal := CheckRequests(host, world, cases, ids);
      if refusal.Some? then Err(refusal.value)
      else if world.confirmationError.Some? then Err(ConfirmationRefused(world.confirmationError.value))
      else Ok(ids)
  }

  /** `retry_failed_execution`. */
  function Retry(host: Host, world: Surroundings, cases: map<CaseId, CaseInfo>, rows: seq<Row>, ids: seq<CaseId>)
    : Result<seq<CaseId>, RetryError>
    requires |ids| == |rows|
  {
    var retried := RetryIds(rows, ids);
    if retried == [] then Err(RetryNotAvailable) else CreateRun(host, world, cases, retried)
  }

  /** Indices of the failed steps, ascending. */
  function FailingAt(rows: seq<Row>): (at: seq<nat>)
    ensures forall k :: 0 <= k < |at| ==> at[k] < |rows|
    ensures forall k, l :: 0 <= k < l < |at| ==> at[k] < at[l]
  {
    if rows == [] then []
    else
      var n := |rows| - 1;
      if Failing(rows[n]) then FailingAt(rows[..n]) + [n] else FailingAt(rows[..n])
  }

  /** It lists every failed step and no other. */
  lemma {:induction false} FailingAtExact(rows: seq<Row>, i: nat)
    requires i < |rows|
    ensures i in FailingAt(rows) <==> Failing(rows[i])
  {
    var n := |rows| - 1;
    var earlier := FailingAt(rows[..n]);
    if i < n {
      FailingAtExact(rows[..n], i);
      assert i in earlier + [n] <==> i in earlier;
    } else {
      assert n !in earlier && n in earlier + [n];
    }
  }

  /** The retried cases are those of the failed steps, one each, in the original order. */
  lemma {:induction false} RetryIdsExact(rows: seq<Row>, ids: seq<CaseId>)
    requires |ids| == |rows|
    ensures |RetryIds(rows, ids)| == |FailingAt(rows)| == Count(rows, {Failed, Error})
    ensures forall k :: 0 <= k < |FailingAt(rows)| ==> RetryIds(rows, ids)[k] == ids[FailingAt(rows)[k]]
  {
    if rows != [] {
      var n := |rows| - 1;
      RetryIdsExact(rows[..n], ids[..n]);
      var earlier, at := FailingAt(rows[..n]), FailingAt(rows);
      assert at == if Failing(rows[n]) then earlier + [n] else earlier;
      forall k | 0 <= k < |at| ensures RetryIds(rows, ids)[k] == ids[at[k]] {
        if k < |earlier| {
          assert at[k] == earlier[k] && RetryIds(rows[..n], ids[..n])[k] == ids[..n][earlier[k]];
        }
      }
    }
  }

  /** A case that can be run by itself, outside the flow or run it failed in. */
  ghost predicate StandsAlone(world: Surroundings, cases: map<CaseId, CaseInfo>, id: CaseId) {
    && id in cases && cases[id].approved
    && SectionNames(cases[id].template) <= SECTIONS
    && (forall ref :: ref in Occurs(Obj(cases[id].template)) ==>
          ref.ns != Runtime && Lookup(Namespaces(world.env, world.secret, map[]), ref).Some?)
    && world.requestError(id).None?
  }

  lemma CheckRequestExact(host: Host, world: Surroundings, cases: map<CaseId, CaseInfo>, id: CaseId)
    requires id in cases && cases[id].approved
    ensures CheckRequest(host, world, cases, id).None? <==> StandsAlone(world, cases, id)
  {
    var request, spaces := Obj(cases[id].template), Namespaces(world.env, world.secret, map[]);
    ResolveExact(host, request, spaces);
    EmptyDifference(SectionNames(cases[id].template), SECTIONS);
    assert forall ref :: Lookup(spaces, ref).Some? ==> ref.ns != Runtime;
    hide Resolve, Occurs, SectionNames;
  }

  lemma {:induction false} CheckRequestsExact(host: Host, world: Surroundings, cases: map<CaseId, CaseInfo>, ids: seq<CaseId>)
    requires forall id :: id in ids ==> id in cases && cases[id].approved
    ensures CheckRequests(host, world, cases, ids).None? <==> forall id :: id in ids ==> StandsAlone(world, cases, id)
  {
    if ids != [] {
      CheckRequestExact(host, world, cases, ids[0]);
      CheckRequestsExact(host, world, cases, ids[1..]);
      hide CheckRequest, StandsAlone;
      assert ids == [ids[0]] + ids[1..];
    }
  }

  /** Nothing but the cases and their variables stands against a new run. */
  predicate Willing(world: Surroundings) {
    world.environmentFound && world.environmentError.None? && world.confirmationError.None?
  }

  /** A run is created exactly from distinct cases that all stand alone, when nothing else refuses it. */
  lemma CreateRunExact(host: Host, world: Surroundings, cases: map<CaseId, CaseInfo>, ids: seq<CaseId>)
    ensures CreateRun(host, world, cases, ids).Ok? <==>
              && DistinctIds(ids) && (forall id :: id in ids ==> StandsAlone(world, cases, id))
              && Willing(world)
    ensures CreateRun(host, world, cases, ids).Ok? ==> CreateRun(host, world, cases, ids).value == ids
  {
    if forall id :: id in ids ==> id in cases && cases[id].approved {
      CheckRequestsExact(host, world, cases, ids);
    }
    hide CheckRequests, DistinctIds;
  }

  /** No two failed steps run the same case. */
  ghost predicate NoSharedCase(rows: seq<Row>, ids: seq<CaseId>)
    requires |ids| == |rows|
  {
    forall i, j :: 0 <= i < j < |rows| && Failing(rows[i]) && Failing(rows[j]) ==> ids[i] != ids[j]
  }

  /** Every failed step's case can be run without the variables other steps extracted. */
  ghost predicate FailedStandAlone(world: Surroundings, cases: map<CaseId, CaseInfo>, rows: seq<Row>, ids: seq<CaseId>)
    requires |ids| == |rows|
  {
    forall i :: 0 <= i < |rows| && Failing(rows[i]) ==> StandsAlone(world, cases, ids[i])
  }

  /** Where the case of a failed step stands among the retried ones. */
  lemma RetriedAt(rows: seq<Row>, ids: seq<CaseId>, i: nat) returns (k: nat)
    requires |ids| == |rows| && i < |rows| && Failing(rows[i])
    ensures k < |RetryIds(rows, ids)| == |FailingAt(rows)|
    ensures FailingAt(rows)[k] == i && RetryIds(rows, ids)[k] == ids[i]
  {
    RetryIdsExact(rows, ids);
    FailingAtExact(rows, i);
    hide FailingAt, RetryIds;
    k :| 0 <= k < |FailingAt(rows)| && FailingAt(rows)[k] == i;
  }

  lemma RetriedFrom(rows: seq<Row>, ids: seq<CaseId>, k: nat)
    requires |ids| == |rows| && k < |RetryIds(rows, ids)|
    ensures |RetryIds(rows, ids)| == |FailingAt(rows)|
    ensures Failing(rows[FailingAt(rows)[k]]) && RetryIds(rows, ids)[k] == ids[FailingAt(rows)[k]]
  {
    RetryIdsExact(rows, ids);
    FailingAtExact(rows, FailingAt(rows)[k]);
    hide FailingAt, RetryIds;
  }

  /** The retried cases are distinct exactly when no two failed steps share a case. */
  lemma RetriedDistinct(rows: seq<Row>, ids: seq<CaseId>)
    requires |ids| == |rows|
    ensures DistinctIds(RetryIds(rows, ids)) <==> NoSharedCase(rows, ids)
  {
    hide FailingAt, RetryIds, Failing;
    var retried, at := RetryIds(rows, ids), FailingAt(rows);
    if NoSharedCase(rows, ids) {
      forall k: nat, l: nat | k < l < |retried| ensures retried[k] != retried[l] {
        RetriedFrom(rows, ids, k);
        RetriedFrom(rows, ids, l);
      }
    }
    if DistinctIds(retried) {
      forall i: nat, j: nat | i < j < |rows| && Failing(rows[i]) && Failing(rows[j]) ensures ids[i] != ids[j] {
        var k := RetriedAt(rows, ids, i);
        var l := RetriedAt(rows, ids, j);
        assert k < l || l < k;
      }
    }
  }

  lemma {:induction false} RetriedStandAlone(world: Surroundings, cases: map<CaseId, CaseInfo>, rows: seq<Row>, ids: seq<CaseId>)
    requires |ids| == |rows|
    ensures (forall id :: id in RetryIds(rows, ids) ==> StandsAlone(world, cases, id)) <==> FailedStandAlone(world, cases, rows, ids)
  {
    hide FailingAt, RetryIds, Failing, StandsAlone;
    var retried := RetryIds(rows, ids);
    if FailedStandAlone(world, cases, rows, ids) {
      forall k: nat | k < |retried| ensures StandsAlone(world, cases, retried[k]) {
        RetriedFrom(rows, ids, k);
      }
    }
    if forall id :: id in retried ==> StandsAlone(world, cases, id) {
      forall i: nat | i < |rows| && Failing(rows[i]) ensures StandsAlone(world, cases, ids[i]) {
        var k := RetriedAt(rows, ids, i);
        assert retried[k] in retried;
      }
    }
  }

  /** The retried cases are the cases of the failed steps. */
  lemma {:induction false} RetriedCases(world: Surroundings, cases: map<CaseId, CaseInfo>, rows: seq<Row>, ids: seq<CaseId>)
    requires |ids| == |rows|
    ensures DistinctIds(RetryIds(rows, ids)) <==> NoSharedCase(rows, ids)
    ensures (forall id :: id in RetryIds(rows, ids) ==> StandsAlone(world, cases, id)) <==> FailedStandAlone(world, cases, rows, ids)
  {
    hide *;
    RetriedDistinct(rows, ids);
    RetriedStandAlone(world, cases, rows, ids);
  }

  /** The request checks answer with errors of their own. */
  lemma {:induction false} CheckRequestsErrors(host: Host, world: Surroundings, cases: map<CaseId, CaseInfo>, ids: seq<CaseId>)
    ensures (forall id :: id in ids ==> id in cases) && CheckRequests(host, world, cases, ids).Some? ==>
              var e := CheckRequests(host, world, cases, ids).value;
              e.TemplateInvalid? || e.VariableMissing? || e.RequestRefused?
  {
    if ids != [] {
      CheckRequestsErrors(host, world, cases, ids[1..]);
      assert ids == [ids[0]] + ids[1..];
      hide Resolve, SectionNames;
    }
  }

  /** Which refusal a start meets first: no environment, a case twice, one missing, one not approved. */
  lemma CreateRefusedWith(host: Host, world: Surroundings, cases: map<CaseId, CaseInfo>, ids: seq<CaseId>)
    ensures var r := CreateRun(host, world, cases, ids);
            && (r == Err(EnvironmentNotFound) <==> !world.environmentFound)
            && (r == Err(CaseDuplicated) <==> world.environmentFound && !DistinctIds(ids))
            && (r == Err(CaseNotFound) <==> world.environmentFound && DistinctIds(ids) && exists id :: id in ids && id !in cases)
            && (r == Err(CaseNotApproved) <==>
                  && world.environmentFound && DistinctIds(ids) && (forall id :: id in ids ==> id in cases)
                  && exists id :: id in ids && !cases[id].approved)
            && r != Err(RetryNotAvailable)
  {
    CheckRequestsErrors(host, world, cases, ids);
    hide CheckRequests, DistinctIds;
  }

  /** Before that a retry asks for a failed step. */
  lemma RetryRefusedWith(host: Host, world: Surroundings, cases: map<CaseId, CaseInfo>, rows: seq<Row>, ids: seq<CaseId>)
    requires |ids| == |rows|
    ensures Retry(host, world, cases, rows, ids) == Err(RetryNotAvailable) <==> forall i :: 0 <= i < |rows| ==> !Failing(rows[i])
  {
    CreateRefusedWith(host, world, cases, RetryIds(rows, ids));
    RetryIdsExact(rows, ids);
    if i :| 0 <= i < |rows| && Failing(rows[i]) {
      var k := RetriedAt(rows, ids, i);
    } else if RetryIds(rows, ids) != [] {
      RetriedFrom(rows, ids, 0);
    }
    hide CreateRun, RetryIds, FailingAt;
  }

  /**
    Retrying a run creates one step per counted failure, in the original order, exactly
    when something failed, no two failed steps share a case, every failed step's case is
    stored, approved and resolvable without runtime variables, and nothing outside the
    model refuses it.
   */
  lemma RetryExact(host: Host, world: Surroundings, db: Db, cases: map<CaseId, CaseInfo>, ids: seq<CaseId>)
    requires db.failed == Count(db.rows, {Failed, Error}) && |ids| == |db.rows|
    ensures Retry(host, world, cases, db.rows, ids).Ok? <==>
              && db.failed > 0 && NoSharedCase(db.rows, ids) && FailedStandAlone(world, cases, db.rows, ids)
              && Willing(world)
    ensures Retry(host, world, cases, db.rows, ids).Ok? ==>
              var at := FailingAt(db.rows);
              && |Retry(host, world, cases, db.rows, ids).value| == db.failed
              && Retry(host, world, cases, db.rows, ids).value == seq(|at|, k requires 0 <= k < |at| => ids[at[k]])
  {
    var at, retried := FailingAt(db.rows), RetryIds(db.rows, ids);
    RetryIdsExact(db.rows, ids);
    RetriedCases(world, cases, db.rows, ids);
    CreateRunExact(host, world, cases, retried);
    hide CreateRun, RetryIds, FailingAt, NoSharedCase, FailedStandAlone, DistinctIds, StandsAlone, Count;
    assert |retried| == |at| ==> (retried == [] <==> |at| == 0);
    assert retried == seq(|at|, k requires 0 <= k < |at| => ids[at[k]]);
  }

  /**
    A run started from a list of distinct cases, in any state it reaches: its retry is
    created exactly when the run counts a failure, every failed case stands alone and
    nothing outside the model refuses it.
   */
  lemma {:induction false} RetryOfCases(host: Host, world: Surroundings, cases: map<CaseId, CaseInfo>, ids: seq<CaseId>,
                     defs: seq<StepDef>, stopOnFailure: bool, actions: seq<Action>)
    requires |ids| == |defs| && DistinctIds(ids)
    ensures var db := After(host, defs, stopOnFailure, actions).db;
            Retry(host, world, cases, db.rows, ids).Ok? <==>
              db.failed > 0 && FailedStandAlone(world, cases, db.rows, ids) && Willing(world)
  {
    var db := After(host, defs, stopOnFailure, actions).db;
    CountedHolds(host, defs, stopOnFailure, actions);
    RetryExact(host, world, db, cases, ids);
    assert NoSharedCase(db.rows, ids);
    hide Retry, After, FailedStandAlone, Count;
  }

  /**
    So a failed step of a flow that reads a variable another step extracts cannot be
    retried by itself: the runtime variables are not copied.
   */
  lemma RuntimeReaderIsRefused(host: Host, world: Surroundings, cases: map<CaseId, CaseInfo>, rows: seq<Row>, ids: seq<CaseId>,
                               i: nat, x: string)
    requires |ids| == |rows| && i < |rows| && Failing(rows[i]) && ids[i] in cases
    requires x in FindRuntimeVariables(Obj(cases[ids[i]].template))
    ensures Retry(host, world, cases, rows, ids).Err?
  {
    FindRuntimeExact(Obj(cases[ids[i]].template));
    assert !StandsAlone(world, cases, ids[i]);
    RetriedCases(world, cases, rows, ids);
    CreateRunExact(host, world, cases, RetryIds(rows, ids));
    hide CreateRun, RetryIds, StandsAlone, Occurs, FindRuntimeVariables, NoSharedCase, DistinctIds;
  }

  const TOKEN_CASE := CaseInfo(true, [Field("body", Str("{{runtime.token}}"))], [])

  /** One approved case whose body is `{{runtime.token}}`, failed in its flow. */
  lemma TokenReaderIsRefused(host: Host, world: Surroundings, row: Row)
    requires Failing(row) && Willing(world)
    ensures Retry(host, world, map[7 := TOKEN_CASE], [row], [7]) == Err(VariableMissing(7, VarRef(Runtime, "token")))
  {
    TokenCheck(host, world);
    OneRetried(row, 7);
    hide RetryIds, CheckRequest;
    assert DistinctIds([7]) && [7][0] == 7;
  }

  lemma OneRetried(row: Row, id: CaseId)
    requires Failing(row)
    ensures RetryIds([row], [id]) == [id]
  {
    assert [row][..0] == [] && [id][..0] == [] && RetryIds([], []) == [];
  }

  lemma TokenCheck(host: Host, world: Surroundings)
    ensures CheckRequest(host, world, map[7 := TOKEN_CASE], 7) == Some(VariableMissing(7, VarRef(Runtime, "token")))
  {
    var ref, template := VarRef(Runtime, "token"), TOKEN_CASE.template;
    var spaces := Namespaces(world.env, world.secret, map[]);
    TokenResolves(host, spaces, ref);
    assert template[0] == Field("body", Str("{{runtime.token}}"));
    FirstFieldFails(host, template, spaces, ref);
    hide Resolve, ResolveFields;
    assert SectionNames(template) - SECTIONS == {};
  }

  lemma FirstFieldFails(host: Host, fields: Fields, spaces: Namespaces, ref: VarRef)
    requires fields != [] && Resolve(host, fields[0].value, spaces) == Err(ref)
    ensures Resolve(host, Obj(fields), spaces) == Err(ref)
  {
  }

  lemma TokenResolves(host: Host, spaces: Namespaces, ref: VarRef)
    requires ref == VarRef(Runtime, "token") && spaces.runtime == map[]
    ensures Resolve(host, Str("{{runtime.token}}"), spaces) == Err(ref)
  {
    var s := "{{runtime.token}}";
    TokenText(ref);
    MatchVarIsPrefixTest(s, ref, |s|);
    hide MatchVar, Print;
    assert ResolveString(host, s, spaces) == Err(ref);
  }

  lemma TokenText(ref: VarRef)
    requires ref == VarRef(Runtime, "token")
    ensures Print(ref) == "{{runtime.token}}" && IsIdent(ref.key)
  {
    assert Opening(Runtime) == "{{runtime.";
    assert "token" + "}}" == "token}}";
    assert "{{runtime." + "token}}" == "{{runtime.token}}";
  }
}
