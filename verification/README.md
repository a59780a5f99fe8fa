# A verified model of the API testing platform

The platform reads Java sources and an OpenAPI document, lets an agent draft API test
cases, has a person approve them, and then runs approved cases and saved flows with a
deterministic executor. This project models the parts of its backend where a mistake
would be silent, and proves what they promise for every input, every interleaving and
every sequence of operations.

## Modules

| Module | What it is about |
|---|---|
| `Json`, `Wrappers`, `Sorting` | JSON values with ordered objects, Option and Result, the host's stable sort |
| `Templates` | the `{{ns.key}}` scanner, template resolution, the runtime variables of a template |
| `PathParameters` | filling the `{name}` parameters of a request path with percent-encoded values |
| `JsonPath` | the JSONPath subset: tokenizer, frontier evaluator, printed locations |
| `Extraction`, `Assertions` | reading runtime variables from a response, judging it |
| `Suites` | saving a flow: section merge, the static check of producers and readers |
| `Execution`, `ExecutionService` | a run as a state machine over commits, and the executor's records and methods that refine it |
| `Verdicts` | what the stored result of a step means, from the answer the step got |
| `Flow` | what the static check of `Suites` buys while `Execution` runs |
| `Reports` | report aggregation and the retry of failed cases |
| `Approval` | generation, editing, review, restart and enqueueing of test cases |
| `SymbolGraph`, `HybridRetrieval` | bounded expansion over symbols; merging, ranking and cutting retrieved chunks |
| `Embedding`, `Chunker` | the retry-bounded embedding queue; the bracket scanner behind SQL chunks |
| `RelationResolution`, `RouteMerge`, `PathNormalizers` | turning a scan into edges and API definitions; the merge keys |

## How to read the model

- A database commit is one atomic step. `Execution` has one action for each commit and
  each re-read of the task status; a user's stop request may land between any two.
  `ExecutionService` gives the same steps as methods on records, and each method is tied
  to its action, so the theorems about all action sequences hold of
  `ProcessExecutionTask`. `EmbeddingStore` is tied to the queue machine in the same way.
- Loops that update variables are methods with invariants, proved against a function or
  against a declarative statement. Records updated in place are classes
  (`StepRecord`, `RunRecord`, `TaskRecord`, `Store`, `EmbeddingStore`, `ApiDefinition`,
  `Merge`); pure code is functions and lemmas.
- The host language is a value `Host`: the text of a non-string value, lower-casing and
  regular expression search are uninterpreted functions. HTTP answers, provider answers,
  secrets and missing environments arrive as parameters.

## What the proofs found

- **Start overwrites a stop.** The start commit does not look at the run status. If a stop
  commits between the claim and the start, the run is revived with its skipped counter
  full, and the counters disagree with the steps from the first step on
  (`RacedStartExample`); in every other state they agree (`ConservationExact`).
- **Reports of revived runs disagree.** The report counts the steps, so in such a run its
  skipped column falls short of the run's counter (`RevivedReportDisagrees`) while total,
  passed and failed still agree (`ReportAgrees`).
- **Cancelled runs that stay running.** A stop that lands during the last executed step
  leaves the run RUNNING with a CANCELLED task (`LeftRunningExample`) for ever
  (`LeftRunningForever`); `StopOutcome` tells from the moment of the request how a run ends.
- **Flow steps cannot be retried alone.** A retry builds every request again without runtime
  variables, so a failed step that reads one makes it refused (`TokenReaderIsRefused`);
  `RetryExact` says exactly when a retry is created.
- **An approved run can become failed.** If the review commits while the generating call is
  still returning, that call finds an unexpected status and marks the run failed
  (`ApprovedRunFails`); the decision is final exactly when that call has ended
  (`ReviewFinalIff`). The cases keep their decision (`FrozenForever`).
- **Cases no review can reach.** A run that fails after its cases were marked leaves them in
  pending review for ever (`FailedRunStrandsPending`, `FailedRunStrands`).
- **A passed step can leave its variable unbound.** A text rule whose capture group took no
  part in the match binds null, so an error in the producer is not the only culprit
  (`PassedButUnbound`); `FlowBlame` names both.
- **Routes only the document has fail the scan.** A definition created for such a route has
  no request definition before it is inserted, and the comparison reads it. With an
  unassigned attribute reading as None, the merge goes through exactly when the document
  names no route the source lacks (`DocumentOnlyRoutesFail`). The design document asks
  for a merge of both sides; the model follows the code.
- **A marked difference can be unmarked.** Two operations that normalise to one route are
  merged one after the other, and the second is compared with an already merged
  definition. Both request definitions are kept (`BothSidesAreKept`), but the conflict
  mark of the first may vanish (`MarkIsLost`, exactly when: `MarkExact`).
- **Drafts of a failed generation are stored.** The failure handler commits what was
  flushed before the error, so a failed run can own draft cases (`FailedRunOwnsDraft`); the
  lifecycle invariant holds with them (`LifecycleInvariant`).
- **A null root answers before its path is read**, so composing path texts works exactly
  with a non-empty tail or no null among the head's results (`ValuesConcat`,
  `NullElementIsLost`).
- **A stray brace refuses a complete path.** After the parameters are filled the path is
  searched again. A path such as `{{a}}` is refused for some values of a
  (`StrayBraceIsRefused`); the refusal means a missing value exactly for paths without a
  brace that values can close (`RefusalExact`), so a segment
  such as `{id:\d+}` is harmless (`PatternPathIsSturdy`).
- **A value can remove path segments.** Encoding keeps the number of segments
  (`SegmentsAreKept`), but it leaves "." and ".." as they are, and joining the path to the
  base URL resolves them (`ParentValueExample`); a segment is one exactly when its literals
  and values spell it (`DotSegmentIff`).
- **An absent business code equals an empty list.** A path that selects nothing compares as
  the empty list, so the business assertion passes on a body without `code` when an empty
  list is expected (`BusinessExact`).
- **From distance one on nearness decides nothing.** All such vector scores are zero, and the
  line number ranks the chunks (`NearerRanksFirst`).
- **The merge keys differ on doubled slashes.** The Java normaliser keeps a doubled slash
  inside a part, the OpenAPI one does not (`KeysCoincideIff`, `DoubledSlashDiffers`).
- **Stranded chunks.** An answer that is not JSON raises an exception `embed` does not turn
  into an embedding error. The batch stays in processing, as after a crash, and is never
  claimed again (`StrandedByBadAnswer`, `StrandedByCrash`, `StrandedStays`). The same
  exception makes a retrieval fail although exact hits were found
  (`RetrieveHybridContext`).
- **Exact hits first, down to -1/16.** The ranking puts exact chunks first for every
  non-negative distance, and the bound is sharp (`ThresholdSharp`).

## Model

| member | source | states |
|---|---|---|
| Templates.MatchVarIsPrefixTest | backend/app/modules/executions/variables.py:11 | the pattern matches at a position exactly when the printed text of a variable with an identifier key stands there |
| Templates.FlattenScan | backend/app/modules/executions/variables.py:36-44 | scanning a string into literals and variables and printing them gives the string back |
| Templates.ResolveExact | backend/app/modules/executions/variables.py:27-44 | a template resolves exactly when every variable occurring in it has a non-null value; otherwise the variable reported is the first missing one in reading order |
| Templates.FindRuntimeExact | backend/app/modules/executions/variables.py:47-56 | the runtime variables found are exactly the runtime keys among the occurrences resolution reads |
| Templates.Coincidence | backend/app/modules/executions/variables.py:27-44 | namespaces that agree on the occurring variables give equal results |
| Templates.GrowingRuntimeIsStable | backend/app/modules/executions/variables.py:119-123 | adding runtime bindings never changes a template that already resolves |
| Templates.SelfBindingIsIdentity | backend/app/modules/executions/variables.py:36-44 | with every variable bound to its own text, resolution is the identity on any JSON template: substitution is single-pass |
| Templates.InsertedVerbatim | backend/app/modules/executions/variables.py:36-44 | wherever a variable stands in a string, its value's text (the string itself, else the host's spelling of it) reaches the output unscanned, between what the text before and after it gives; alone, it keeps its type |
| Templates.ResolvedAt | backend/app/modules/executions/variables.py:27-44 | at every place of the template: objects keep their keys in order, arrays their length, other scalars their value; a string that is one variable becomes the value itself, any other string the text of its parts, where a value that is not a string appears as the host spells it |
| Templates.NamespaceTexts | backend/app/modules/executions/variables.py:11-44 | {{env.k}}, {{secret.k}} and {{runtime.k}} give the value of k in the namespace of that name, and name that variable as missing when it is absent or null there |
| PathParameters.MissingIsRefused | backend/app/modules/executions/variables.py:79-81 | for any path, a parameter without a value leads to the refusal |
| PathParameters.RefusedIffMissing | backend/app/modules/executions/variables.py:79-81 | for a path that is not fragile and any values, a request is refused for its path if and only if some parameter has no value |
| PathParameters.RefusalExact | backend/app/modules/executions/variables.py:79-81 | the refusal means a missing value for all values if and only if the path is not fragile: no opening brace outside a parameter is led up to a closing one by word characters and parameters |
| PathParameters.StrayBraceIsRefused | backend/app/modules/executions/variables.py:79-81 | the path {{a}} with a set to x is refused although it has all its values |
| PathParameters.PatternPathIsSturdy | backend/app/modules/executions/variables.py:12 | a parameter written with a pattern after its name, after any text without an opening brace, leaves a path exactly as fragile as the rest of it is |
| PathParameters.SegmentsAreKept | backend/app/modules/executions/variables.py:79-81 | before it is joined to the base URL the filled path has the segments of the path, in order, each filled with its own literals and encoded values |
| PathParameters.DotSegmentIff | backend/app/modules/executions/variables.py:79-97 | a segment of the filled path is "." or "..", which joining removes, if and only if its literals and values spell it |
| PathParameters.DotValueIff | backend/app/modules/executions/variables.py:134-138 | encoding yields a dot segment exactly from the values "." and ".." |
| PathParameters.QuoteRoundTrip | backend/app/modules/executions/variables.py:134-138 | decoding the percent-encoded value, two hexadecimal digits to an octet and UTF-8 octets to a character, gives the value back |
| PathParameters.ParentValueExample | backend/app/modules/executions/variables.py:79-97 | the path {id} filled with two dots is accepted and consists of a dot segment |
| PathParameters.ScanKeepsText | backend/app/modules/executions/variables.py:79 | with no values the path stays as it is: parameters without a value are left in place |
| JsonPath.JsonPathValues | backend/app/modules/executions/assertion_engine.py:99-121 | the loop that tokenizes and keeps a frontier returns or raises what the list-bind semantics of the token list says |
| JsonPath.EvalConcat | backend/app/modules/executions/assertion_engine.py:104-121 | evaluating a concatenated token list is evaluating the tail on each result of the head, in document order |
| JsonPath.WildcardSelectsItems | backend/app/modules/executions/assertion_engine.py:115-116 | a wildcard selects the items of a list in order, and nothing from any other value |
| JsonPath.EvalLocates | backend/app/modules/executions/assertion_engine.py:104-121 | for any path the values are the nodes at its instances, every wildcard replaced by an index: each instance that leads to a node once, in the order of the indices |
| JsonPath.TokenizeConcat | backend/app/modules/executions/assertion_engine.py:9 | concatenating two valid path texts concatenates their token lists |
| JsonPath.ValuesConcat | backend/app/modules/executions/assertion_engine.py:99-121 | composition on path texts holds if and only if the tail is non-empty or the head finds no null |
| JsonPath.NullElementIsLost | backend/app/modules/executions/assertion_engine.py:99-121 | on a list holding null, the path to its element followed by the root path answers nothing |
| JsonPath.WildFreeSelectsAtMostOne | backend/app/modules/executions/assertion_engine.py:104-121 | a path without wildcard selects at most one value |
| JsonPath.EvalLocation | backend/app/modules/executions/assertion_engine.py:104-121 | in well-formed JSON a node is at a location if and only if evaluating the location returns that node alone |
| JsonPath.LocationRoundTrip | backend/app/modules/executions/assertion_engine.py:99-121 | printing the location of any node under a non-null root and evaluating the text returns exactly that node |
| JsonPath.AddressableIffPrintable | backend/app/modules/executions/assertion_engine.py:9 | a location has a path text if and only if its names are non-empty and quote-free |
| Extraction.ExtractsNullIff | backend/app/modules/executions/extractions.py:10-35 | extraction yields null in exactly one situation: a text rule whose only group took no part in the match |
| Extraction.ExtractAtLocation | backend/app/modules/executions/extractions.py:44-47 | extracting at the printed location of a node yields the node, and fails for a null node |
| Extraction.ExtractBySource | backend/app/modules/executions/extractions.py:10-41 | the status rule yields the status, the header rule the first header of that name in any case, the text rule its one group unless it matched the empty text, within the length limits; every rule but the status one needs an expression |
| Extraction.ExtractAllExact | backend/app/modules/executions/service.py:670-688 | the step's extraction succeeds exactly when every rule does, and otherwise fails as the first rule that fails |
| Extraction.ExtractStepVariables | backend/app/modules/executions/service.py:670-688 | the loop evaluates the rules in order and stops at the first failure |
| Extraction.ExtractAllBinds | backend/app/modules/executions/service.py:670-688 | a successful extraction binds exactly the keys of the rules, each to the value of its own rule |
| Assertions.AllPassedExact | backend/app/modules/executions/service.py:414-424 | the step verdict errs when some assertion errs and passes exactly when all of them pass |
| Assertions.AllPassedError | backend/app/modules/executions/service.py:414-424 | the error of the verdict is that of the first assertion that has one |
| Assertions.AssertAtLocation | backend/app/modules/executions/assertion_engine.py:24-76 | equality, type and existence assertions at the printed location of a node test that node |
| Assertions.ExistsIffNode | backend/app/modules/executions/assertion_engine.py:43-48 | the existence assertions pass exactly when the path, wildcards replaced by indices, leads to some node, or to none |
| Assertions.StatusExact | backend/app/modules/executions/assertion_engine.py:35-36 | the status assertion passes exactly for a number, or a boolean standing for one, equal to the status |
| Assertions.BusinessExact | backend/app/modules/executions/assertion_engine.py:37-39 | without a path the field code of the body is compared; a body object without it passes exactly for an expected empty list |
| Assertions.TextExact | backend/app/modules/executions/assertion_engine.py:56-62 | the text assertions pass exactly when the expected text stands, or does not stand, somewhere in the body |
| Assertions.RangeAtLocation | backend/app/modules/executions/assertion_engine.py:63-71 | at the location of a node the range assertion passes exactly for a number that is no boolean and within the bounds that are set |
| Assertions.TimeExact | backend/app/modules/executions/assertion_engine.py:72-75 | the time assertion passes exactly for a whole number that is not negative and above the duration, booleans counting as 0 and 1 |
| Assertions.KindsExact | backend/app/modules/executions/assertion_engine.py:11-76 | exactly the thirteen known kinds are supported, and the three older names mean the current ones |
| Assertions.ConfigInvalidIff | backend/app/modules/executions/assertion_engine.py:56-59 | exactly when an assertion is misconfigured: no expected text, or a path that is no text or is absent without a default; and exactly when its path does not parse |
| Assertions.PyEqReflexive | backend/app/modules/executions/assertion_engine.py:86-89 | every well-formed JSON value equals itself under the comparison assertions use |
| Assertions.PyEqExact | backend/app/modules/executions/assertion_engine.py:86-89 | equal are numbers and booleans of one value, lists equal item by item, objects with the same keys and equal values in any order, and no two values of different kinds |
| Suites.MergeTemplate | backend/app/modules/test_suites/service.py:106-114 | the merge loop computes the section-wise merge |
| Suites.MergeBySection | backend/app/modules/executions/service.py:658-667 | each section of the merged request is determined by that section of the case and of the override alone |
| Suites.MergeByField | backend/app/modules/test_suites/service.py:106-114 | inside a merged section an overridden field wins and every other field survives |
| Suites.ReplaceSteps | backend/app/modules/test_suites/service.py:79-103 | the loop answers with the first problem in order, or with the steps |
| Suites.VerdictExact | backend/app/modules/test_suites/service.py:87-103 | the incremental check accepts exactly the flows with known sections, one producer for each key, and every key read produced strictly earlier |
| Suites.SavedExact | backend/app/modules/test_suites/service.py:79-103 | the answer to saving a flow: a missing case first, an unapproved one next, then the problem of the first step that is not sound, with its position and the variables missing; else one step for each item in order with the item's override and rules and its case's template and assertions |
| Suites.UniqueProducer | backend/app/modules/test_suites/service.py:87-103 | in an accepted flow each variable a step reads has one producer, and it comes earlier |
| Execution.ShapeHolds | backend/app/modules/executions/service.py:182-226 | in every state any interleaving reaches, statuses, steps and the worker's position fit together |
| Execution.CountedHolds | backend/app/modules/executions/service.py:373-507 | at every commit the passed and failed counters equal the numbers of such steps and at most one step runs, even in a revived run |
| Execution.ConservationExact | backend/app/modules/executions/service.py:182-249 | at every commit the counters agree with the steps if and only if the run was not revived by the start commit with a step begun since |
| Execution.ConservedSum | backend/app/modules/executions/service.py:444-507 | in a conserved state passed, failed, skipped, pending and running add up to the total |
| Verdicts.JudgedExact | backend/app/modules/executions/service.py:387-452 | a step is judged exactly when its request could be built, a response came, every assertion could be evaluated and every rule gave a value; it passes exactly when every assertion holds of the response |
| Verdicts.FaultyExact | backend/app/modules/executions/service.py:453-475 | a step that is not judged is stored with the first thing that went wrong, its code and the category of that code |
| Verdicts.ExplainedOnce | backend/app/modules/executions/service.py:387-475 | definition, runtime variables and answer of a step leave exactly one possible row |
| Verdicts.VerdictsHold | backend/app/modules/executions/service.py:204-216 | in every state any interleaving reaches, the executed steps are the first ones, each says what its own answer says given what the steps before it extracted, and the runtime variables are what those steps extracted |
| Execution.RacedForever | backend/app/modules/executions/service.py:197-201 | once a revived run has begun a step, no later action repairs the counters |
| Execution.RacedStartExample | backend/app/modules/executions/service.py:197-201 | claim, stop, start, look, begin: an interleaving after which the counters are wrong |
| Execution.FinishedShape | backend/app/modules/executions/service.py:204-223 | a completed run is an executed prefix and a suffix never begun, the suffix only under stop-on-failure and after the only step that did not pass; the suffix is skipped, or still stopped in a revived run; a stopped run is an executed prefix and a stopped suffix |
| Execution.TracedHolds | backend/app/modules/executions/service.py:229-249 | at every commit, of revived runs too, the worker's position bounds the moment of the first stop request since the start |
| Execution.StopOutcome | backend/app/modules/executions/service.py:204-223 | how any processed run ends is determined by where the worker was at the first stop request since the start: completed, stopped after the step in flight, or left running |
| Execution.RevivedRunCompletes | backend/app/modules/executions/service.py:197-223 | a run stopped before its start and revived by it is completed unless a further stop comes or an internal failure ends it |
| Execution.LeftRunningExample | backend/app/modules/executions/service.py:217-223 | a stop request while the only step is in flight: the worker is done, the task cancelled and the run running |
| Execution.LeftRunningForever | backend/app/modules/executions/service.py:229-249 | no later action, a further stop request included, changes such a run |
| ExecutionService.RunRecord.MarkRemaining | backend/app/modules/executions/service.py:478-495 | pending steps from a position on take the mark and are counted, all others stay |
| ExecutionService.Session.RequestExecutionStop | backend/app/modules/executions/service.py:229-249 | one stop request commits exactly the stop action and is refused once the run has ended |
| ExecutionService.Session.StartRun | backend/app/modules/executions/service.py:197-201 | the start commit, which overwrites both statuses |
| ExecutionService.Session.FinishStep | backend/app/modules/executions/service.py:373-475 | the second commit of a step gives it the result its own answer explains: passed exactly if every assertion holds of the response, failed if all could be evaluated and some does not hold, else the first thing that went wrong; its variables join the run's and no other step changes |
| ExecutionService.Session.FailRun | backend/app/modules/executions/service.py:498-507 | an internal failure changes the two statuses and nothing else |
| ExecutionService.Session.ProcessExecutionTask | backend/app/modules/executions/service.py:182-226 | whatever the steps answer, wherever stops land and at whichever point of the try block a failure strikes, the executed steps are a prefix in order, step i with the result that answer i explains given what the steps before it extracted, and no later step has one; the run fails only for a missing environment or such a failure, and ends as the moment of the stop determines |
| Flow.MissingIff | backend/app/modules/executions/variables.py:119-123 | a step about to run finds a variable it reads missing if and only if its one producer ended in an error or bound it to null |
| Flow.FlowBlame | backend/app/modules/test_suites/service.py:87-103 | in an accepted flow, for any responses and stops, a step that lacked a runtime variable has one earlier producer of it, which ended in an error or bound it to null through a text rule |
| Flow.StopOnFailureBlamesText | backend/app/modules/executions/service.py:204-216 | under stop-on-failure only a text rule of an earlier step can leave a variable unbound |
| Flow.StopOnFailureNeverLacks | backend/app/modules/executions/service.py:204-216 | so a runtime variable that no earlier text rule can leave unbound is lacked by no step of any run |
| Flow.PassedButUnbound | backend/app/modules/executions/extractions.py:30-34 | a step can pass and still leave its variable missing for every reader |
| Flow.EnvironmentHolds | backend/app/modules/executions/service.py:139-152 | with the request check at start passed and the environment unchanged, no step is recorded as missing an environment or secret variable |
| Flow.AcceptedFlowsDoNotGetStuck | backend/app/modules/executions/service.py:387-452 | accepted, prechecked flows without a text rule whose group can sit out of a match, under stop-on-failure and an unchanged environment, never miss any variable |
| Flow.SavedFlowIsExecuted | backend/app/modules/test_suites/service.py:79-103 | a flow that could be saved has the same steps, templates and assertions included, after any further operations on the cases |
| Reports.GetReport | backend/app/modules/reports/service.py:28-50 | the aggregation loop computes the three tallies |
| Reports.TallyExact | backend/app/modules/reports/service.py:106-113 | each category or API counts exactly its own steps, by total, passed, failed and skipped |
| Reports.ReportKeys | backend/app/modules/reports/service.py:36-49 | the categories listed are those of the stored cases, the APIs those of stored cases whose API exists |
| Reports.ReportAgrees | backend/app/modules/reports/service.py:36-49 | at every commit of every interleaving the dimensions sum to the run's total if and only if no step has lost its label; then the passed and failed columns sum to the run's counters, and the skipped column does if and only if the run was not revived by the start commit with a step begun since |
| Reports.RevivedReportDisagrees | backend/app/modules/reports/service.py:36-49 | in a revived run whose only step has begun the report shows nothing skipped where the run counts one |
| Reports.ReasonsSum | backend/app/modules/reports/service.py:36-49 | at every commit the failure reasons sum to the run's failed count if and only if no failed step has lost its case |
| Reports.ReasonsExact | backend/app/modules/reports/service.py:36-49 | each reason is listed exactly if some failed step with a stored case failed for it, with the number of those steps |
| Reports.RetryIdsExact | backend/app/modules/executions/service.py:266-284 | the retried cases are those of the failed steps, one each, in the original order |
| Reports.RetryExact | backend/app/modules/executions/service.py:252-284 | a retry is created if and only if something failed, no two failed steps share a case, every failed case is stored, approved and resolvable with the environment alone, and no check outside the model refuses; then it has exactly the failed count of steps, in order |
| Reports.RetryRefusedWith | backend/app/modules/executions/service.py:252-275 | a retry is not available exactly when no step failed |
| Reports.RetryOfCases | backend/app/modules/executions/service.py:252-284 | for a run of distinct cases, in any state it reaches, the retry is created if and only if the run counts a failure, every failed case is approved and resolvable with the environment alone, and no check outside the model refuses |
| Reports.CreateRunExact | backend/app/modules/executions/service.py:45-89 | a run is created exactly from distinct approved cases whose every variable is bound without runtime variables |
| Reports.CreateRefusedWith | backend/app/modules/executions/service.py:45-70 | which refusal a start meets first: no environment, a case twice, one that is not stored, one that is not approved |
| Reports.RuntimeReaderIsRefused | backend/app/modules/executions/service.py:75-88 | a failed step whose case reads a runtime variable makes every retry of its run refused |
| Reports.TokenReaderIsRefused | backend/app/modules/executions/service.py:75-88 | a failed case whose body is {{runtime.token}}: the retry is refused for that variable |
| Approval.LifecycleInvariant | backend/app/modules/agents/service.py:21-151 | after any sequence of operations the cases of a run share a status that fits the run's, and a run in or after review has cases |
| Approval.CasesShareStatus | backend/app/modules/agents/tools.py:269-333 | all cases of one agent run share a status at every commit |
| Approval.ReviewGuardSuffices | backend/app/modules/agents/service.py:101-107 | once the run is in review, the two later refusals of the review never fire |
| Approval.ReviewDecides | backend/app/modules/agents/service.py:96-116 | a run in review whose cases are all pending is decided: run and cases take the approved or the disabled status, the cases one version later with their content as it was, and no other run, no other case and no queue entry changes; any other review changes nothing |
| Approval.ReviewRefusedWith | backend/app/modules/agents/service.py:96-107 | which refusal a review meets: an unknown run, a run not in review, a run without cases |
| Approval.FrozenForever | backend/app/modules/testcases/service.py:46-69 | a case approved or disabled once is the same in every part after any further operations |
| Approval.EnqueuedIsExecuted | backend/app/modules/executions/service.py:602-619 | the version, template and assertions snapshotted when a list of cases or a flow is enqueued are those stored at any later moment |
| Approval.EnqueueSnapshots | backend/app/modules/executions/service.py:602-619 | a start queues one snapshot for each case in the order asked, with version and content of the stored case, exactly when all are approved and, outside flows, distinct; otherwise nothing changes |
| Approval.EnqueueRefusedWith | backend/app/modules/executions/service.py:54-60 | which refusal a start meets: a case twice, then one that is not stored, then one that is not approved; for a flow only the last |
| Approval.ReviewFinalIff | backend/app/modules/agents/service.py:76-131 | a review decision stays the status of the run over all later operations if and only if the call that generated its cases has ended, by returning or with its process |
| Approval.ApprovedRunFails | backend/app/modules/agents/service.py:70-84 | create, persist, approve, conclude: an approved run becomes failed while its case stays approved |
| Approval.FailedRunOwnsDraft | backend/app/modules/agents/service.py:134-151 | an error after the drafts were flushed leaves a failed run with a draft case |
| Approval.FailedRunStrands | backend/app/modules/agents/service.py:96-151 | the cases of a run that failed for good keep their owner and status over all later operations |
| Approval.FailedRunStrandsPending | backend/app/modules/agents/service.py:96-151 | an error after the drafts were marked leaves a case in pending review whose run can never be reviewed |
| Approval.Store.SaveCaseDrafts | backend/app/modules/agents/tools.py:269-320 | appends one draft of version one for each structured draft and changes no other case |
| Approval.Store.MarkDraftsPendingReview | backend/app/modules/agents/tools.py:322-333 | the loop moves exactly the drafts of the run to pending review |
| Approval.Store.PersistDrafts | backend/app/modules/agents/graph.py:225-250 | saving, marking and the status change as one commit, or what an error in between leaves committed |
| Approval.PersistAdds | backend/app/modules/agents/graph.py:225-250 | saving adds one case for each draft as far as it gets, pending once marked, and changes no other case or run; the run is in review if the save got through and failed otherwise |
| Approval.GenerationEnds | backend/app/modules/agents/service.py:70-84 | a clean end leaves a run in review there, every other end of the generating call fails it, and no case changes |
| Approval.Store.ReviewAgentRun | backend/app/modules/agents/service.py:87-116 | the loop changes all cases and the run as decided, approved or disabled, or nothing at all, with the refusal the guards give |
| Approval.Store.UpdateTestCase | backend/app/modules/testcases/service.py:37-76 | only drafts and pending cases are edited, the parts left out stay, the version rises by one |
| Approval.EditChanges | backend/app/modules/testcases/service.py:37-76 | an edit of a draft or pending case raises its version by one, replaces exactly the parts it names and touches nothing else; any other edit is refused and changes nothing |
| Approval.Store.FailInterruptedAgentRuns | backend/app/modules/agents/service.py:119-131 | exactly the generating runs fail when a process starts, and their number is returned; calls of dead processes are over |
| Approval.RestartFailsGenerating | backend/app/modules/agents/service.py:119-131 | a restart changes the status of exactly the generating runs, to failed |
| SymbolGraph.ExpandSymbolIds | backend/app/modules/knowledge/exact_retrieval.py:68-89 | for any depth the result holds exactly the symbols that a walk of at most that many relations joins to a seed or a seed's parent |
| SymbolGraph.BallStable | backend/app/modules/knowledge/exact_retrieval.py:85-86 | once a round adds nothing, no larger depth adds anything: the early break is sound |
| SymbolGraph.AddParents | backend/app/modules/knowledge/exact_retrieval.py:69-75 | the loop adds exactly the parents of the seeds |
| Embedding.RestoreExact | backend/app/modules/knowledge/embedding.py:78-85 | a provider answer is accepted if and only if it is some permutation of one right-sized vector for each input, and result i is the vector with index i |
| Embedding.RestoreErrors | backend/app/modules/knowledge/embedding.py:78-84 | an answer is invalid exactly if no order of it has one vector for each input, and mismatched exactly if such an order has a vector of the wrong dimension |
| Embedding.OutcomeErrors | backend/app/modules/knowledge/embedding.py:51-84 | which of the six errors a call for at least one text ends in |
| Embedding.QueueInvHolds | backend/app/modules/knowledge/repository.py:27-48 | over any claims, successes, failures and crashes of any workers, attempts stay within the maximum and no chunk is held twice |
| Embedding.SettledForever | backend/app/modules/knowledge/embedding.py:113-181 | an embedded chunk is never claimed or changed again, and neither is a chunk whose worker crashed |
| Embedding.RetriesAreBounded | backend/app/modules/knowledge/repository.py:27-56 | attempts recorded are claims made, so no history hands out more than chunks times maximum attempts |
| Embedding.EmbeddingStore.ProcessEmbeddingTask | backend/app/modules/knowledge/embedding.py:113-162 | one task ends and claims each chunk at most once; on success nothing is claimable and it has counted what it completed; every completed chunk holds the vector a call gave for its own text; it fails exactly with the error of its last call, which stands on the last batch, except that a batch is left in processing if and only if that call raised something that is no embedding error; its commits are events of its worker in the queue machine, which keeps its invariant |
| Embedding.StrandedStays | backend/app/modules/knowledge/embedding.py:140-181 | a chunk left in processing by a task that is over stays so, whatever tasks come later |
| Embedding.EmbeddingStore.EmbedBatches | backend/app/modules/knowledge/embedding.py:124-162 | every chunk the loop touched was claimable, cost one attempt, and is completed, failed with the error of the last call, or left as claimed by an exception; every call but the last succeeded |
| Embedding.EmbeddingStore.ClaimEmbeddingChunks | backend/app/modules/knowledge/repository.py:27-48 | claims the first claimable chunks up to the batch size, one attempt each, as one claim event of the queue machine |
| Embedding.ClaimsFirst | backend/app/modules/knowledge/repository.py:27-48 | a row is claimed exactly if it is claimable and fewer claimable rows than the batch size stand before it |
| Embedding.EmbeddingStore.SettleBatch | backend/app/modules/knowledge/embedding.py:139-181 | one commit settles the batch: all its chunks completed, or all failed with one error, or all left as claimed |
| Embedding.StrandedByBadAnswer | backend/app/modules/knowledge/embedding.py:67-75 | one pending chunk and one answer that is not JSON: the chunk stays in processing for ever |
| Embedding.StrandedByCrash | backend/app/modules/knowledge/embedding.py:123-129 | a claim and a crash of its worker strand the batch in the same way |
| Embedding.ClaimedOnce | backend/app/modules/knowledge/repository.py:27-48 | under any interleaving of tasks, a chunk claimed by a task that has not ended is claimed again by none |
| Embedding.EmbeddingStore.StoreVectors | backend/app/modules/knowledge/embedding.py:157-160 | chunk k of the batch gets vector k, and no other chunk changes |
| Embedding.EmbeddingStore.MarkEmbeddingFailed | backend/app/modules/knowledge/embedding.py:165-181 | exactly the claimed batch fails with the error, and the task with it |
| Chunker.AnnotationEnd | backend/app/modules/knowledge/chunker.py:126-146 | the loop over depth, string and escape flags computes the scan of the text from the opening parenthesis |
| Chunker.ScanExact | backend/app/modules/knowledge/chunker.py:126-146 | the scan ends at n if and only if the first n characters are a parenthesised group of text balanced outside string literals with escapes |
| Chunker.AnnotationUnique | backend/app/modules/knowledge/chunker.py:126-146 | no shorter or longer prefix is such a group |
| Chunker.SpansExact | backend/app/modules/knowledge/chunker.py:102-106 | the spans found are exactly the closed annotations of the text, in the order of their starts: none is stepped over |
| Chunker.SqlChunks | backend/app/modules/knowledge/chunker.py:100-123 | the loop yields one chunk for each of those spans, in order |
| Chunker.MatchSqlExact | backend/app/modules/knowledge/chunker.py:9 | the pattern matches exactly at an at sign, one of the four keywords, white space and an opening parenthesis |
| Chunker.ChunkLines | backend/app/modules/knowledge/chunker.py:107-112 | each chunk is the whole annotation text; it starts on the line after as many line breaks as stand in front of it, and has one line more than its content has line breaks, within the file |
| RelationResolution.ResolveRelations | backend/app/workers/task_worker.py:145-180 | edges are pairwise distinct and without self-loops, each leads to the only non-field, non-method symbol of its name and required kind and carries the metadata of the first relation that stands for it, and every relation that stands for an edge has it stored |
| RelationResolution.EdgeExact | backend/app/workers/task_worker.py:152-170 | a relation yields an edge if and only if its source is stored, its target is the only non-field, non-method symbol of that name and of the required kind, and the two differ |
| RelationResolution.GroupByName | backend/app/workers/task_worker.py:145-149 | the dictionary lists for each name exactly its non-field, non-method symbols, in order |
| RouteMerge.DiscoveredExact | backend/app/workers/task_worker.py:182-202 | every route of the source is listed exactly once, with its first definition |
| RouteMerge.DiscoverRoutes | backend/app/workers/task_worker.py:182-202 | the loop builds those definitions, or fails exactly when one of them names an unknown symbol |
| RouteMerge.MergeExact | backend/app/workers/task_worker.py:206-228 | the OpenAPI loop succeeds exactly when every operation has a definition to start from; then routes stay distinct and in place, and under each route stands its own definition with its own operations in order |
| RouteMerge.DocumentOnlyRoutesFail | backend/app/workers/task_worker.py:206-218 | with unassigned attributes reading as None, the loop goes through exactly when the document names no route the source lacks |
| RouteMerge.BothSidesAreKept | backend/app/workers/task_worker.py:217-223 | the merged request definition can be taken apart into the source's and every operation's, in order |
| RouteMerge.CompareExact | backend/app/modules/source_scans/openapi_parser.py:145-177 | a comparison reports the parameters exactly when both sides bind some and not the same, then the body exactly when one side alone has one, nothing twice, each with what the two sides say |
| RouteMerge.BindingsExact | backend/app/modules/source_scans/openapi_parser.py:150-161 | a pair is bound exactly if some object entry of the parameter list has that location and that name; in the source bindingName is the name unless the host takes it for false |
| RouteMerge.MarkExact | backend/app/modules/source_scans/openapi_parser.py:145-177 | with one operation the conflicts are its difference to the source; with more, the route is marked exactly when the last operation has a body |
| RouteMerge.MarkIsLost | backend/app/workers/task_worker.py:206-228 | two operations for one route after which a marked difference is unmarked |
| RouteMerge.MergeOperations | backend/app/workers/task_worker.py:203-228 | list and dictionary hold the same objects, source objects first, holding the values of the merge |
| RouteMerge.MergeRoutes | backend/app/workers/task_worker.py:182-228 | both loops together: exactly when they go through, and then one object for each route of source or document, in list and dictionary alike |
| HybridRetrieval.Merge.AddExactChunks | backend/app/modules/knowledge/hybrid_retrieval.py:87-104 | the dictionaries hold exactly the exact hits, each with the score of its kind |
| HybridRetrieval.Merge.AddVectorChunks | backend/app/modules/knowledge/hybrid_retrieval.py:128-132 | the dictionaries hold exactly the identifiers hit, each with its best score and its origins |
| HybridRetrieval.BestIsMaximum | backend/app/modules/knowledge/hybrid_retrieval.py:131-132 | the kept score is the largest of the exact score and the candidates' scores, and is one of them |
| HybridRetrieval.RankedExact | backend/app/modules/knowledge/hybrid_retrieval.py:56-59 | the ranking is the merged chunks, each once, by score, line and identifier |
| HybridRetrieval.ExactFirst | backend/app/modules/knowledge/hybrid_retrieval.py:56-59 | with distances above -1/16, so with any non-negative distance, every exact chunk ranks before every chunk found by vector only |
| HybridRetrieval.ThresholdSharp | backend/app/modules/knowledge/hybrid_retrieval.py:56-59 | an exact chunk ranks strictly before a vector-only one, whatever the two are, if and only if the distance is above -1/16 |
| HybridRetrieval.CloserRanksFirst | backend/app/modules/knowledge/hybrid_retrieval.py:93-104 | among exact chunks the handler's rank before the controller's and those before the rest, whatever vector hits there are at distances above -1/16 |
| HybridRetrieval.NearerRanksFirst | backend/app/modules/knowledge/hybrid_retrieval.py:128-132 | of two chunks found by vector only, the nearer ranks first if its distance is below one; from there on both scores are zero |
| HybridRetrieval.RankedByScore | backend/app/modules/knowledge/hybrid_retrieval.py:56-59 | the larger score comes first, of equal scores the earlier line, then the smaller identifier |
| HybridRetrieval.ApplyContextBudget | backend/app/modules/knowledge/hybrid_retrieval.py:143-185 | what is served concatenates to the first characters, up to the budget, of the first ranked chunks up to the limit and the first empty one; truncation flags are exact and only the last may be cut |
| HybridRetrieval.RetrieveHybridContext | backend/app/modules/knowledge/hybrid_retrieval.py:21-84 | merging, ranking and cutting put together, with, without and failing vector search: nothing is answered exactly when an exception escapes the search |
| PathNormalizers.OpenApiIdempotent | backend/app/modules/source_scans/openapi_parser.py:132-134 | normalising a document path twice is normalising it once |
| PathNormalizers.JavaIdempotent | backend/app/modules/source_scans/java_parser.py:468-470 | a normalised Java path is unchanged as a class path and as a method path |
| PathNormalizers.NormalisersAgree | backend/app/modules/source_scans/java_parser.py:468-470 | normalising the Java path as a document path equals normalising class path, slash, method path |
| PathNormalizers.KeysCoincideIff | backend/app/modules/source_scans/openapi_parser.py:132-134 | the two merge keys coincide if and only if neither stripped part has a doubled slash |
| PathNormalizers.DoubledSlashDiffers | backend/app/modules/source_scans/java_parser.py:468-470 | the class path a//b gets two different keys |

## Left out

- HTTP sending, DNS, TLS, size limits and error mapping of the runner: an answer is a parameter of a step.
- Authentication, base URL, header and body checks of `build_request`: with the path check one possible error of a step in `Execution`, since the URL library decides most of them.
- Language model calls, graph wiring and prompts: only the commits they lead to are modelled.
- SQL, row locks and migrations: tables are maps and sequences, a transaction is one step, and a claim may take any subset of the claimable rows.
- Crash recovery of an execution run: the model has one worker for a run, and a process that dies between commits is a finite prefix of the actions; nothing is claimed about liveness.
- Redaction, traceability contents, messages, timestamps and durations: evidence copies that no modelled decision reads; a step's extracted variables are kept unredacted.
- Project and user scoping, permissions and write confirmation: checks in front of the modelled operations.
- Decimal digits outside ASCII in a JSONPath index, the host's limit on integer length, NaN and floating-point rounding: an index is ASCII digits, scores and numbers are reals.
- Malformed stored extraction rules in `_extract_step_variables`: saved flows hold validated rules only.
- Regular expression internals, lower-casing and the text of non-string values: uninterpreted host functions.
- The agent's read tools, checkpoints and confirmed business rules: queries and notes that no status depends on.
- Java parsing, source file discovery and the parsing of OpenAPI documents: their results are parameters; of the Java parser only the path normaliser is modelled.
- Class and method chunks and their line ranges: slices at positions the Java parser gives.
- Source file paths, symbol names and rounded scores in the retrieval response: lookups beside the served text.
- The source definition stored with a discovered route: copied once and read by no modelled step.
- Joining the filled path to the base URL: URL library behaviour; what is proved of paths is proved before it.
- SSE, routers, serialisation, encryption, authentication and the frontend.
