/**
  Merging the routes found in the source with the operations of an OpenAPI document
  (backend/app/workers/task_worker.py, `process_next`, and `compare_request_definitions`
  of backend/app/modules/source_scans/openapi_parser.py).
 */
module RouteMerge {
  import opened Wrappers
  import opened Json

  datatype Route = Route(httpMethod: string, path: string)

  type SymbolId = nat

  // ------------------------------------------------------ comparing request definitions

  type Binding = (string, string)

  datatype Conflict =
    | Parameters(source: set<Binding>, openapi: set<Binding>)
    | RequestBody(inSource: bool, inOpenapi: bool)

  /** `bool(value)`. */
  predicate Truthy(v: Json) {
    match v
    case Null => false
    case Bool(b) => b
    case Int(i) => i != 0
    case Float(r) => r != 0.0
    case Str(s) => s != ""
    case Arr(items) => items != []
    case Obj(fields) => fields != []
  }

  /** `fields.get(key)`, where an absent key reads as null. */
  function Get(fields: Fields, key: string): Json {
    match Find(fields, key) case Some(v) => v case None => Null
  }

  /** The bindings of the parameter list, if there is one; entries that are no objects are left out. */
  function Bindings(definition: Fields, binding: Fields -> Binding): set<Binding> {
    match Get(definition, "parameters")
    case Arr(items) => set p | p in items && p.Obj? :: binding(p.fields)
    case _ => {}
  }

  function SourceBinding(str: Json -> string): Fields -> Binding {
    (p: Fields) =>
      var name := if Truthy(Get(p, "bindingName")) then Get(p, "bindingName") else Get(p, "name");
      (str(Get(p, "source")), str(name))
  }

  function OpenApiBinding(str: Json -> string): Fields -> Binding {
    (p: Fields) => (str(Get(p, "in")), str(Get(p, "name")))
  }

  /** `compare_request_definitions`. */
  function Compare(str: Json -> string, source: Fields, openapi: Fields): seq<Conflict> {
    var mine, theirs := Bindings(source, SourceBinding(str)), Bindings(openapi, OpenApiBinding(str));
    var hasBody, needsBody := exists b :: b in mine && b.0 == "body", Truthy(Get(openapi, "requestBody"));
    (if mine != {} && theirs != {} && mine != theirs then [Parameters(mine, theirs)] else [])
    + (if hasBody != needsBody then [RequestBody(hasBody, needsBody)] else [])
  }

  /** One of the parameters a definition lists; entries that are no objects are none. */
  ghost predicate Lists(definition: Fields, p: Fields) {
    exists items :: Find(definition, "parameters") == Some(Arr(items)) && Obj(p) in items
  }

  /** The source binds a parameter under this location and name: `bindingName` unless it is empty, else `name`. */
  ghost predicate SourceBinds(str: Json -> string, definition: Fields, b: Binding) {
    exists p :: Lists(definition, p) && b.0 == str(Get(p, "source")) &&
      (if Truthy(Get(p, "bindingName")) then b.1 == str(Get(p, "bindingName")) else b.1 == str(Get(p, "name")))
  }

  ghost predicate DocumentBinds(str: Json -> string, definition: Fields, b: Binding) {
    exists p :: Lists(definition, p) && b.0 == str(Get(p, "in")) && b.1 == str(Get(p, "name"))
  }

  ghost predicate BodyInSource(str: Json -> string, source: Fields) {
    exists b: Binding :: SourceBinds(str, source, b) && b.0 == "body"
  }

  ghost predicate BodyInDocument(openapi: Fields) {
    Find(openapi, "requestBody").Some? && Find(openapi, "requestBody").value !in FALSY
  }

  /** The values the host language takes for false. */
  const FALSY: set<Json> := {Null, Bool(false), Int(0), Float(0.0), Str(""), Arr([]), Obj([])}

  lemma TruthyExact(v: Json)
    ensures Truthy(v) <==> v !in FALSY
  {
  }

  lemma BindingsExact(str: Json -> string, definition: Fields, b: Binding)
    ensures b in Bindings(definition, SourceBinding(str)) <==> SourceBinds(str, definition, b)
    ensures b in Bindings(definition, OpenApiBinding(str)) <==> DocumentBinds(str, definition, b)
  {
    hide Truthy, Find;
    var list := Get(definition, "parameters");
    assert forall p :: Lists(definition, p) <==> list.Arr? && Obj(p) in list.items;
    var mine, theirs := SourceBinding(str), OpenApiBinding(str);
    if b in Bindings(definition, mine) {
      var p :| p in list.items && p.Obj? && mine(p.fields) == b;
      assert Lists(definition, p.fields);
    }
    if b in Bindings(definition, theirs) {
      var p :| p in list.items && p.Obj? && theirs(p.fields) == b;
      assert Lists(definition, p.fields);
    }
    if SourceBinds(str, definition, b) {
      var p :| Lists(definition, p) && b.0 == str(Get(p, "source")) &&
        (if Truthy(Get(p, "bindingName")) then b.1 == str(Get(p, "bindingName")) else b.1 == str(Get(p, "name")));
      assert mine(Obj(p).fields) == b;
    }
    if DocumentBinds(str, definition, b) {
      var p :| Lists(definition, p) && b.0 == str(Get(p, "in")) && b.1 == str(Get(p, "name"));
      assert theirs(Obj(p).fields) == b;
    }
  }

  /** Both sides bind parameters, and not the same ones. */
  ghost predicate ParametersDiffer(str: Json -> string, source: Fields, openapi: Fields) {
    && (exists b: Binding :: SourceBinds(str, source, b))
    && (exists b: Binding :: DocumentBinds(str, openapi, b))
    && (exists b: Binding :: SourceBinds(str, source, b) != DocumentBinds(str, openapi, b))
  }

  /** A conflict shows what each side says, the source first. */
  ghost predicate Shows(str: Json -> string, source: Fields, openapi: Fields, c: Conflict) {
    match c
    case Parameters(mine, theirs) =>
      (forall b: Binding :: b in mine <==> SourceBinds(str, source, b)) &&
      (forall b: Binding :: b in theirs <==> DocumentBinds(str, openapi, b))
    case RequestBody(inSource, inOpenapi) =>
      inSource == BodyInSource(str, source) && inOpenapi == BodyInDocument(openapi)
  }

  ghost predicate ParametersFirst(found: seq<Conflict>) {
    forall i, j :: 0 <= i < j < |found| ==> found[i].Parameters? && found[j].RequestBody?
  }

  /**
    What a comparison reports: the parameters if and only if both sides bind some and they
    do not bind the same, then the request body if and only if exactly one side has one;
    nothing twice, and each conflict with what the two sides say.
   */
  lemma CompareExact(str: Json -> string, source: Fields, openapi: Fields)
    ensures var found := Compare(str, source, openapi);
            && ((exists c :: c in found && c.Parameters?) <==> ParametersDiffer(str, source, openapi))
            && ((exists c :: c in found && c.RequestBody?) <==> BodyInSource(str, source) != BodyInDocument(openapi))
            && (forall c :: c in found ==> Shows(str, source, openapi, c))
            && ParametersFirst(found)
  {
    CompareSets(str, source, openapi);
    BindingsShown(str, source, openapi);
    hide *;
  }

  lemma BindingsShown(str: Json -> string, source: Fields, openapi: Fields)
    ensures var mine, theirs := Bindings(source, SourceBinding(str)), Bindings(openapi, OpenApiBinding(str));
            var inSource, inOpenapi := exists b: Binding :: b in mine && b.0 == "body", Truthy(Get(openapi, "requestBody"));
            && Shows(str, source, openapi, Parameters(mine, theirs))
            && Shows(str, source, openapi, RequestBody(inSource, inOpenapi))
            && inSource == BodyInSource(str, source) && inOpenapi == BodyInDocument(openapi)
            && (ParametersDiffer(str, source, openapi) <==> mine != {} && theirs != {} && mine != theirs)
  {
    TruthyExact(Get(openapi, "requestBody"));
    assert BodyInDocument(openapi) <==> Truthy(Get(openapi, "requestBody"));
    var mine, theirs := Bindings(source, SourceBinding(str)), Bindings(openapi, OpenApiBinding(str));
    hide Bindings, SourceBinding, OpenApiBinding, Truthy, Find, BodyInDocument, SourceBinds, DocumentBinds;
    forall b: Binding
      ensures b in mine <==> SourceBinds(str, source, b)
      ensures b in theirs <==> DocumentBinds(str, openapi, b)
    {
      BindingsExact(str, source, b);
      BindingsExact(str, openapi, b);
    }
    DifferBySets(str, source, openapi, mine, theirs);
    hide ParametersDiffer;
  }

  lemma DifferBySets(str: Json -> string, source: Fields, openapi: Fields, mine: set<Binding>, theirs: set<Binding>)
    requires forall b: Binding :: b in mine <==> SourceBinds(str, source, b)
    requires forall b: Binding :: b in theirs <==> DocumentBinds(str, openapi, b)
    ensures ParametersDiffer(str, source, openapi) <==> mine != {} && theirs != {} && mine != theirs
  {
    hide SourceBinds, DocumentBinds;
    SetsDiffer(mine, theirs);
  }

  lemma CompareSets(str: Json -> string, source: Fields, openapi: Fields)
    ensures var mine, theirs := Bindings(source, SourceBinding(str)), Bindings(openapi, OpenApiBinding(str));
            var inSource, inOpenapi := exists b: Binding :: b in mine && b.0 == "body", Truthy(Get(openapi, "requestBody"));
            var found := Compare(str, source, openapi);
            && ((exists c :: c in found && c.Parameters?) <==> mine != {} && theirs != {} && mine != theirs)
            && ((exists c :: c in found && c.RequestBody?) <==> inSource != inOpenapi)
            && (forall c :: c in found ==> c == Parameters(mine, theirs) || c == RequestBody(inSource, inOpenapi))
            && ParametersFirst(found)
  {
    hide Bindings, SourceBinding, OpenApiBinding, Truthy, Find;
    var mine, theirs := Bindings(source, SourceBinding(str)), Bindings(openapi, OpenApiBinding(str));
    var inSource, inOpenapi := exists b: Binding :: b in mine && b.0 == "body", Truthy(Get(openapi, "requestBody"));
    var found := Compare(str, source, openapi);
    assert mine != {} && theirs != {} && mine != theirs ==> found[0] == Parameters(mine, theirs);
    assert inSource != inOpenapi ==> found[|found| - 1] == RequestBody(inSource, inOpenapi);
  }

  lemma SetsDiffer(a: set<Binding>, b: set<Binding>)
    ensures a != {} <==> exists x: Binding :: x in a
    ensures b != {} <==> exists x: Binding :: x in b
    ensures a != b <==> exists x: Binding :: (x in a) != (x in b)
  {
  }

  // --------------------------------------------------------------------- API definitions

  /** What an operation of the document brings. */
  datatype Operation =
    Operation(route: Route, operationId: Option<string>, request: Fields, response: Fields, security: Fields, document: Fields)

  /** What the document has said about a route. */
  datatype Documented = Documented(operationId: Option<string>, response: Fields, security: Fields, document: Fields)

  /** The state of one API definition; an unassigned request definition reads as None. */
  datatype Definition = Definition(
    route: Route, symbols: Option<(SymbolId, SymbolId)>, request: Option<Fields>, documented: Option<Documented>,
    conflicts: seq<Conflict>, isConflicted: bool)

  class ApiDefinition {
    const route: Route
    const symbols: Option<(SymbolId, SymbolId)>
    var request: Option<Fields>
    var documented: Option<Documented>
    var conflicts: seq<Conflict>
    var isConflicted: bool

    constructor (route: Route, symbols: Option<(SymbolId, SymbolId)>, request: Option<Fields>)
      ensures AsValue() == Definition(route, symbols, request, None, [], false)
    {
      this.route, this.symbols, this.request := route, symbols, request;
      documented, conflicts, isConflicted := None, [], false;
    }

    function AsValue(): Definition
      reads this
    {
      Definition(route, symbols, request, documented, conflicts, isConflicted)
    }

    /** The body of the OpenAPI loop for one definition; it fails on an unassigned request definition. */
    method Apply(str: Json -> string, op: Operation) returns (ok: bool)
      modifies this
      ensures ok <==> old(request).Some?
      ensures ok ==> AsValue() == Merged(str, old(AsValue()), op)
      ensures ok ==> documented == Some(Documented(op.operationId, op.response, op.security, op.document))
      ensures ok ==> conflicts == Compare(str, old(request).value, op.request) && (isConflicted <==> conflicts != [])
      ensures !ok ==> AsValue() == old(AsValue())
    {
      var sourceRequest := request;
      if sourceRequest.None? {
        return false;
      }
      var found := Compare(str, sourceRequest.value, op.request);
      documented := Some(Documented(op.operationId, op.response, op.security, op.document));
      request := Some(Both(sourceRequest.value, op.request));
      conflicts := found;
      isConflicted := found != [];
      return true;
    }
  }

  /** The request definition that keeps what was there beside what the document says. */
  function Both(source: Fields, openapi: Fields): Fields {
    [Field("source", Obj(source)), Field("openapi", Obj(openapi))]
  }

  function Merged(str: Json -> string, d: Definition, op: Operation): Definition
    requires d.request.Some?
  {
    var found := Compare(str, d.request.value, op.request);
    d.(request := Some(Both(d.request.value, op.request)),
       documented := Some(Documented(op.operationId, op.response, op.security, op.document)),
       conflicts := found, isConflicted := found != [])
  }

  function ValuesOf(definitions: seq<ApiDefinition>): (values: seq<Definition>)
    reads definitions
    ensures |values| == |definitions|
    ensures forall i :: 0 <= i < |values| ==> values[i] == definitions[i].AsValue()
  {
    seq(|definitions|, i requires 0 <= i < |definitions| reads definitions => definitions[i].AsValue())
  }

  // ----------------------------------------------------------------- routes of the source

  datatype ParsedRoute = ParsedRoute(route: Route, controller: string, handler: string, request: Fields)

  predicate HasRoute(routes: seq<ParsedRoute>, route: Route) {
    exists i :: 0 <= i < |routes| && routes[i].route == route
  }

  /** The first definition of every route, in order. */
  function Discovered(parsed: seq<ParsedRoute>): seq<ParsedRoute> {
    if parsed == [] then []
    else
      var n := |parsed| - 1;
      var earlier := Discovered(parsed[..n]);
      if HasRoute(earlier, parsed[n].route) then earlier else earlier + [parsed[n]]
  }

  predicate Known(symbols: map<string, SymbolId>, p: ParsedRoute) { p.controller in symbols && p.handler in symbols }

  function Defined(symbols: map<string, SymbolId>, p: ParsedRoute): Definition
    requires Known(symbols, p)
  {
    Definition(p.route, Some((symbols[p.controller], symbols[p.handler])), Some(p.request), None, [], false)
  }

  lemma DiscoveredStep(parsed: seq<ParsedRoute>, k: nat)
    requires k < |parsed|
    ensures var (earlier, p) := (Discovered(parsed[..k]), parsed[k]);
            && Discovered(parsed[..k + 1]) == (if HasRoute(earlier, p.route) then earlier else earlier + [p])
            && forall route :: HasRoute(Discovered(parsed[..k + 1]), route) <==> HasRoute(earlier, route) || route == p.route
  {
    assert parsed[..k + 1][..k] == parsed[..k];
    var earlier, p := Discovered(parsed[..k]), parsed[k];
    var after := Discovered(parsed[..k + 1]);
    hide Discovered;
    forall route ensures HasRoute(after, route) <==> HasRoute(earlier, route) || route == p.route {
      if HasRoute(earlier, route) {
        var i :| 0 <= i < |earlier| && earlier[i].route == route;
        assert after[i].route == route;
      }
      assert |after| > |earlier| ==> after[|earlier|].route == p.route;
    }
  }

  /** The first definition in the source of its route. */
  predicate FirstAt(parsed: seq<ParsedRoute>, k: int, p: ParsedRoute) {
    0 <= k < |parsed| && parsed[k] == p && forall m :: 0 <= m < k ==> parsed[m].route != p.route
  }

  lemma FirstAtStep(parsed: seq<ParsedRoute>, n: nat, p: ParsedRoute)
    requires n == |parsed| - 1
    ensures (exists k :: FirstAt(parsed, k, p)) <==>
            (exists k :: FirstAt(parsed[..n], k, p)) || (p == parsed[n] && !HasRoute(parsed[..n], p.route))
  {
    if k :| FirstAt(parsed[..n], k, p) {
      assert FirstAt(parsed, k, p);
    }
    if p == parsed[n] && !HasRoute(parsed[..n], p.route) {
      assert forall m :: 0 <= m < n ==> parsed[m] == parsed[..n][m];
      assert FirstAt(parsed, n, p);
    }
    if k :| FirstAt(parsed, k, p) {
      if k < n {
        assert FirstAt(parsed[..n], k, p);
      }
    }
  }

  predicate DistinctRoutes(routes: seq<ParsedRoute>) {
    forall i, j :: 0 <= i < j < |routes| ==> routes[i].route != routes[j].route
  }

  /** Every discovered route exactly once, and with it the first definition of that route. */
  lemma {:induction false} DiscoveredExact(parsed: seq<ParsedRoute>)
    ensures DistinctRoutes(Discovered(parsed))
    ensures forall p :: p in Discovered(parsed) <==> exists k :: FirstAt(parsed, k, p)
    ensures forall route :: HasRoute(Discovered(parsed), route) <==> HasRoute(parsed, route)
  {
    if parsed != [] {
      var n := |parsed| - 1;
      DiscoveredExact(parsed[..n]);
      DiscoveredStep(parsed, n);
      assert parsed[..n + 1] == parsed;
      forall p ensures p in Discovered(parsed) <==> exists k :: FirstAt(parsed, k, p) {
        FirstAtStep(parsed, n, p);
        hide Discovered, HasRoute, FirstAt, DistinctRoutes;
      }
      HasRouteStep(parsed, n);
      var found := Discovered(parsed[..n]);
      hide Discovered, FirstAt;
      assert !HasRoute(found, parsed[n].route) ==> forall i :: 0 <= i < |found| ==> found[i].route != parsed[n].route;
      hide HasRoute;
    }
  }

  lemma HasRouteStep(parsed: seq<ParsedRoute>, n: nat)
    requires n == |parsed| - 1
    ensures forall route :: HasRoute(parsed, route) <==> HasRoute(parsed[..n], route) || route == parsed[n].route
  {
    forall route | HasRoute(parsed[..n], route) ensures HasRoute(parsed, route) {
      var i :| 0 <= i < n && parsed[..n][i].route == route;
      assert parsed[i].route == route;
    }
    forall route | HasRoute(parsed, route) && route != parsed[n].route ensures HasRoute(parsed[..n], route) {
      var i :| 0 <= i < |parsed| && parsed[i].route == route;
      assert parsed[..n][i].route == route;
    }
  }

  lemma {:induction false} DiscoveredPrefix(parsed: seq<ParsedRoute>, k: nat)
    requires k <= |parsed|
    ensures Discovered(parsed[..k]) <= Discovered(parsed)
    decreases |parsed| - k
  {
    if k == |parsed| {
      assert parsed[..k] == parsed;
    } else {
      DiscoveredPrefix(parsed, k + 1);
      DiscoveredStep(parsed, k);
      hide Discovered, HasRoute;
    }
  }

  lemma NothingDiscovered(parsed: seq<ParsedRoute>)
    ensures parsed[..0] == [] && Discovered([]) == [] <= Discovered(parsed) && forall route :: !HasRoute([], route)
  {
  }

  lemma KnownMeans(symbols: map<string, SymbolId>, p: ParsedRoute)
    ensures Known(symbols, p) <==> p.controller in symbols && p.handler in symbols
    ensures Known(symbols, p) ==>
              Defined(symbols, p) == Definition(p.route, Some((symbols[p.controller], symbols[p.handler])), Some(p.request), None, [], false)
  {
  }

  /** The source route loop; a name without a symbol ends it with a key error. */
  method DiscoverRoutes(parsed: seq<ParsedRoute>, symbols: map<string, SymbolId>)
    returns (result: Option<seq<ApiDefinition>>)
    ensures result.Some? <==> forall p :: p in Discovered(parsed) ==> Known(symbols, p)
    ensures result.Some? ==> fresh(result.value) && |result.value| == |Discovered(parsed)|
    ensures result.Some? ==> forall i :: 0 <= i < |result.value| ==>
              Known(symbols, Discovered(parsed)[i]) && result.value[i].AsValue() == Defined(symbols, Discovered(parsed)[i])
  {
    var definitions: seq<ApiDefinition> := [];
    var seen: set<Route> := {};
    ghost var all := Discovered(parsed);
    NothingDiscovered(parsed);
    hide *;
    for k := 0 to |parsed|
      invariant fresh(definitions) && |definitions| == |Discovered(parsed[..k])|
      invariant Discovered(parsed[..k]) <= all
      invariant forall route :: route in seen <==> HasRoute(Discovered(parsed[..k]), route)
      invariant forall i :: 0 <= i < |definitions| ==> Known(symbols, all[i]) && definitions[i].AsValue() == Defined(symbols, all[i])
    {
      var p := parsed[k];
      DiscoveredPrefix(parsed, k + 1);
      DiscoveredStep(parsed, k);
      KnownMeans(symbols, p);
      if p.route in seen {
        continue;
      }
      seen := seen + {p.route};
      if p.controller !in symbols || p.handler !in symbols {
        assert all[|definitions|] == p;
        return None;
      }
      var d := new ApiDefinition(p.route, Some((symbols[p.controller], symbols[p.handler])), Some(p.request));
      definitions := definitions + [d];
    }
    assert parsed[..|parsed|] == parsed;
    assert forall p :: p in all ==> exists i :: 0 <= i < |all| && all[i] == p;
    return Some(definitions);
  }

  // -------------------------------------------------------------- the merge, on values

  predicate Listed(values: seq<Definition>, route: Route) {
    exists i :: 0 <= i < |values| && values[i].route == route
  }

  predicate OneEach(values: seq<Definition>) {
    forall i, j :: 0 <= i < j < |values| ==> values[i].route != values[j].route
  }

  predicate Assigned(values: seq<Definition>) { forall d :: d in values ==> d.request.Some? }

  /** Where a route is listed, or the length of the list. */
  function Position(values: seq<Definition>, route: Route): (n: nat)
    ensures n <= |values| && (n < |values| <==> Listed(values, route))
    ensures n < |values| ==> values[n].route == route
  {
    if values == [] then 0
    else if values[0].route == route then
      assert Listed(values, route);
      0
    else
      var n := Position(values[1..], route);
      assert n < |values[1..]| ==> values[n + 1].route == route;
      assert forall i :: 0 < i < |values| ==> values[i] == values[1..][i - 1];
      n + 1
  }

  function Lookup(values: seq<Definition>, route: Route): Option<Definition> {
    var n := Position(values, route);
    if n < |values| then Some(values[n]) else None
  }

  /** A definition created for a route the source does not have. */
  function Blank(route: Route, unset: Option<Fields>): Definition { Definition(route, None, unset, None, [], false) }

  /** The definition an operation is merged into. */
  function Base(values: seq<Definition>, route: Route, unset: Option<Fields>): Definition {
    match Lookup(values, route) case Some(d) => d case None => Blank(route, unset)
  }

  /** One turn of the OpenAPI loop. */
  function MergeOne(str: Json -> string, unset: Option<Fields>, values: seq<Definition>, op: Operation): Option<seq<Definition>> {
    var n, d := Position(values, op.route), Base(values, op.route, unset);
    if d.request.None? then None
    else if n < |values| then Some(values[n := Merged(str, d, op)])
    else Some(values + [Merged(str, d, op)])
  }

  function MergeAll(str: Json -> string, unset: Option<Fields>, values: seq<Definition>, ops: seq<Operation>): Option<seq<Definition>> {
    if ops == [] then Some(values)
    else
      match MergeAll(str, unset, values, ops[..|ops| - 1])
      case None => None
      case Some(now) => MergeOne(str, unset, now, ops[|ops| - 1])
  }

  function OpsFor(ops: seq<Operation>, route: Route): seq<Operation> {
    if ops == [] then []
    else OpsFor(ops[..|ops| - 1], route) + if ops[|ops| - 1].route == route then [ops[|ops| - 1]] else []
  }

  /** A definition after the operations of its own route. */
  function Fold(str: Json -> string, d: Definition, ops: seq<Operation>): (r: Definition)
    requires d.request.Some?
    ensures r.request.Some? && r.route == d.route
  {
    if ops == [] then d else Merged(str, Fold(str, d, ops[..|ops| - 1]), ops[|ops| - 1])
  }

  /** What the merge leaves under a route, told route by route. */
  function Outcome(str: Json -> string, unset: Option<Fields>, values: seq<Definition>, ops: seq<Operation>, route: Route): Option<Definition> {
    var mine, d := OpsFor(ops, route), Base(values, route, unset);
    if Lookup(values, route).None? && mine == [] then None
    else if d.request.None? then Some(d)
    else Some(Fold(str, d, mine))
  }

  /** Every operation has a definition to start from. */
  predicate Startable(unset: Option<Fields>, values: seq<Definition>, ops: seq<Operation>) {
    unset.Some? || forall op :: op in ops ==> Listed(values, op.route)
  }

  lemma LookupFacts(values: seq<Definition>, route: Route)
    requires OneEach(values)
    ensures Lookup(values, route).Some? <==> Listed(values, route)
    ensures forall i :: 0 <= i < |values| && values[i].route == route ==> Lookup(values, route) == Some(values[i]) && i == Position(values, route)
    ensures Lookup(values, route).Some? ==> Lookup(values, route).value.route == route && Lookup(values, route).value in values
  {
  }

  lemma BaseFacts(unset: Option<Fields>, values: seq<Definition>, route: Route)
    requires OneEach(values) && Assigned(values)
    ensures var (n, d) := (Position(values, route), Base(values, route, unset));
            && (d.request.Some? <==> unset.Some? || Listed(values, route)) && d.route == route
            && (n < |values| ==> d == values[n]) && (n == |values| ==> !Listed(values, route))
  {
    LookupFacts(values, route);
    hide OneEach;
  }

  /** Writing one definition at its position keeps one definition for each route. */
  lemma Rewritten(values: seq<Definition>, n: nat, d: Definition, route: Route)
    requires OneEach(values) && Assigned(values) && d.request.Some? && n <= |values|
    requires n < |values| ==> d.route == values[n].route
    requires n == |values| ==> !Listed(values, d.route)
    ensures var after := if n < |values| then values[n := d] else values + [d];
            && OneEach(after) && Assigned(after)
            && (forall i :: 0 <= i < |values| ==> after[i].route == values[i].route)
            && Lookup(after, route) == if route == d.route then Some(d) else Lookup(values, route)
  {
    var after := if n < |values| then values[n := d] else values + [d];
    hide Lookup, Position;
    assert OneEach(after);
    LookupElsewhere(values, after, n, route);
  }

  lemma MergeOneFacts(str: Json -> string, unset: Option<Fields>, values: seq<Definition>, op: Operation, route: Route)
    requires OneEach(values) && Assigned(values)
    ensures MergeOne(str, unset, values, op).Some? <==> unset.Some? || Listed(values, op.route)
    ensures MergeOne(str, unset, values, op).Some? ==>
              var after := MergeOne(str, unset, values, op).value;
              && OneEach(after) && Assigned(after) && |values| <= |after|
              && (forall i :: 0 <= i < |values| ==> after[i].route == values[i].route)
              && Base(values, op.route, unset).request.Some?
              && Lookup(after, route) ==
                 if route == op.route then Some(Merged(str, Base(values, op.route, unset), op)) else Lookup(values, route)
  {
    BaseFacts(unset, values, op.route);
    hide Lookup, Base, OneEach, Assigned, Listed;
    var n, d := Position(values, op.route), Base(values, op.route, unset);
    if d.request.Some? {
      MergedKeepsRoute(str, d, op);
      hide Merged, Position;
      Rewritten(values, n, Merged(str, d, op), route);
    }
  }

  lemma MergedKeepsRoute(str: Json -> string, d: Definition, op: Operation)
    requires d.request.Some?
    ensures Merged(str, d, op).route == d.route && Merged(str, d, op).request.Some?
  {
    hide Compare;
  }

  /** Replacing or appending one definition changes the lookup of its route only. */
  lemma LookupElsewhere(values: seq<Definition>, after: seq<Definition>, n: nat, route: Route)
    requires OneEach(values) && OneEach(after) && n <= |values| && n < |after|
    requires |after| == (if n < |values| then |values| else |values| + 1)
    requires forall i :: 0 <= i < |values| && i != n ==> after[i] == values[i]
    requires n < |values| ==> after[n].route == values[n].route
    ensures Lookup(after, route) == if route == after[n].route then Some(after[n]) else Lookup(values, route)
  {
    LookupFacts(values, route);
    LookupFacts(after, route);
    hide Lookup, OneEach;
    if route != after[n].route {
      if Listed(values, route) {
        var i :| 0 <= i < |values| && values[i].route == route;
        assert after[i] == values[i];
      }
      if Listed(after, route) {
        var i :| 0 <= i < |after| && after[i].route == route;
        assert after[i] == values[i];
      }
    }
  }

  lemma OpsForLast(ops: seq<Operation>, route: Route)
    requires ops != []
    ensures OpsFor(ops, route) == OpsFor(ops[..|ops| - 1], route) + if ops[|ops| - 1].route == route then [ops[|ops| - 1]] else []
  {
  }

  lemma FoldLast(str: Json -> string, d: Definition, ops: seq<Operation>, op: Operation)
    requires d.request.Some?
    ensures Fold(str, d, ops + [op]) == Merged(str, Fold(str, d, ops), op)
  {
    assert (ops + [op])[..|ops|] == ops;
  }

  /** Every route keeps its place; only new ones are appended. */
  predicate InPlace(values: seq<Definition>, after: seq<Definition>) {
    |values| <= |after| && forall i :: 0 <= i < |values| ==> after[i].route == values[i].route
  }

  lemma ListedAfter(values: seq<Definition>, now: seq<Definition>, ops: seq<Operation>, unset: Option<Fields>, str: Json -> string, route: Route)
    requires OneEach(now) && OneEach(values) && Lookup(now, route) == Outcome(str, unset, values, ops, route)
    ensures Listed(now, route) <==> Listed(values, route) || OpsFor(ops, route) != []
  {
    LookupFacts(now, route);
    LookupFacts(values, route);
    hide Lookup, OneEach, Listed, Fold, Position;
  }

  lemma {:induction false} OpsForOccurs(ops: seq<Operation>, route: Route)
    ensures OpsFor(ops, route) != [] <==> exists op :: op in ops && op.route == route
  {
    if ops != [] {
      OpsForOccurs(ops[..|ops| - 1], route);
      assert ops == ops[..|ops| - 1] + [ops[|ops| - 1]];
    }
  }

  lemma {:induction false} OutcomeSteps(str: Json -> string, unset: Option<Fields>, values: seq<Definition>, ops: seq<Operation>, op: Operation, route: Route)
    ensures route != op.route ==>
              Outcome(str, unset, values, ops + [op], route) == Outcome(str, unset, values, ops, route)
    ensures route == op.route && Base(values, route, unset).request.Some? ==>
              Outcome(str, unset, values, ops + [op], route) == Some(Fold(str, Base(values, route, unset), OpsFor(ops, route) + [op]))
  {
    OpsForLast(ops + [op], route);
    assert (ops + [op])[..|ops|] == ops;
    assert route != op.route ==> OpsFor(ops + [op], route) == OpsFor(ops, route);
    hide Fold, Base, Lookup, OpsFor;
  }

  /** One operation after those already merged. */
  lemma OutcomeNext(str: Json -> string, unset: Option<Fields>, values: seq<Definition>, ops: seq<Operation>, op: Operation,
                    now: seq<Definition>, route: Route)
    requires OneEach(now) && Assigned(now)
    requires Lookup(now, op.route) == Outcome(str, unset, values, ops, op.route)
    requires Lookup(now, route) == Outcome(str, unset, values, ops, route)
    requires MergeOne(str, unset, now, op).Some?
    ensures Lookup(MergeOne(str, unset, now, op).value, route) == Outcome(str, unset, values, ops + [op], route)
  {
    hide *;
    MergeOneFacts(str, unset, now, op, route);
    OutcomeSteps(str, unset, values, ops, op, route);
    if route == op.route {
      BaseNow(str, unset, values, ops, now, route);
      FoldLast(str, Base(values, route, unset), OpsFor(ops, route), op);
    }
  }

  /** What an operation is merged into is the definition with the earlier operations of its route. */
  lemma BaseNow(str: Json -> string, unset: Option<Fields>, values: seq<Definition>, ops: seq<Operation>,
                now: seq<Definition>, route: Route)
    requires OneEach(now) && Lookup(now, route) == Outcome(str, unset, values, ops, route)
    requires Base(now, route, unset).request.Some?
    ensures Base(values, route, unset).request.Some?
    ensures Base(now, route, unset) == Fold(str, Base(values, route, unset), OpsFor(ops, route))
  {
    hide Position, Listed, OneEach, OpsFor, Merged;
    var d := Base(values, route, unset);
    assert d.request.Some? ==> Fold(str, d, []) == d;
    hide Fold;
    assert Lookup(now, route).None? ==> OpsFor(ops, route) == [];
  }

  /**
    The merge in one statement.  It succeeds exactly when every operation has a definition
    to start from; then each route is listed once, routes of the source keep their place,
    and what is listed under a route is its own definition with its own operations, in order.
   */
  lemma {:induction false} MergeExact(str: Json -> string, unset: Option<Fields>, values: seq<Definition>, ops: seq<Operation>)
    requires OneEach(values) && Assigned(values)
    ensures MergeAll(str, unset, values, ops).Some? <==> Startable(unset, values, ops)
    ensures MergeAll(str, unset, values, ops).Some? ==>
              var after := MergeAll(str, unset, values, ops).value;
              && OneEach(after) && Assigned(after) && InPlace(values, after)
              && forall route :: Lookup(after, route) == Outcome(str, unset, values, ops, route)
  {
    if ops == [] {
      forall route ensures Lookup(values, route) == Outcome(str, unset, values, ops, route) {
        BaseFacts(unset, values, route);
        LookupFacts(values, route);
        hide Position, OneEach;
      }
    } else {
      var earlier, op := ops[..|ops| - 1], ops[|ops| - 1];
      assert ops == earlier + [op];
      MergeExact(str, unset, values, earlier);
      var so := MergeAll(str, unset, values, earlier);
      hide MergeAll, Lookup, Outcome, OneEach, Assigned;
      assert MergeAll(str, unset, values, ops) == match so case None => None case Some(now) => MergeOne(str, unset, now, op) by {
        MergeAllLast(str, unset, values, earlier, op);
      }
      if so.Some? {
        var now := so.value;
        MergeOneFacts(str, unset, now, op, op.route);
        ListedAfter(values, now, earlier, unset, str, op.route);
        OpsForOccurs(earlier, op.route);
        hide MergeOne, Merged, Base, Listed, OpsFor;
        if MergeOne(str, unset, now, op).Some? {
          forall route ensures Lookup(MergeOne(str, unset, now, op).value, route) == Outcome(str, unset, values, ops, route) {
            OutcomeNext(str, unset, values, earlier, op, now, route);
          }
        }
      }
    }
  }

  lemma MergeAllLast(str: Json -> string, unset: Option<Fields>, values: seq<Definition>, ops: seq<Operation>, op: Operation)
    ensures MergeAll(str, unset, values, ops + [op]) ==
            match MergeAll(str, unset, values, ops) case None => None case Some(now) => MergeOne(str, unset, now, op)
  {
    hide MergeOne;
    assert (ops + [op])[..|ops|] == ops;
  }

  /**
    An unassigned attribute reads as None until the row is inserted, so the merge goes
    through exactly when the document names no route that the source does not have.
   */
  lemma DocumentOnlyRoutesFail(str: Json -> string, values: seq<Definition>, ops: seq<Operation>)
    requires OneEach(values) && Assigned(values)
    ensures MergeAll(str, None, values, ops).Some? <==> forall op :: op in ops ==> Listed(values, op.route)
  {
    MergeExact(str, None, values, ops);
    hide MergeAll, Outcome, OneEach, Assigned, Listed, Lookup;
  }

  // ------------------------------------------------ both sides are kept; marks may be lost

  /** Request definitions nested operation by operation. */
  function Nested(source: Fields, ops: seq<Operation>): Fields {
    if ops == [] then source else Both(Nested(source, ops[..|ops| - 1]), ops[|ops| - 1].request)
  }

  /** Takes nested definitions apart again. */
  function Unnest(definition: Fields, n: nat): Option<(Fields, seq<Fields>)>
    decreases n
  {
    if n == 0 then Some((definition, []))
    else
      match (Find(definition, "source"), Find(definition, "openapi"))
      case (Some(Obj(source)), Some(Obj(openapi))) =>
        (match Unnest(source, n - 1)
         case Some((first, rest)) => Some((first, rest + [openapi]))
         case None => None)
      case _ => None
  }

  function Requests(ops: seq<Operation>): seq<Fields> { seq(|ops|, i requires 0 <= i < |ops| => ops[i].request) }

  lemma FindInPair(a: Field, b: Field, key: string)
    ensures Find([a, b], key) == if key == a.key then Some(a.value) else if key == b.key then Some(b.value) else None
  {
    assert [a, b][1..] == [b] && [b][1..] == [];
    assert Find([b], key) == if key == b.key then Some(b.value) else None;
  }

  lemma UnnestBoth(source: Fields, openapi: Fields, n: nat)
    ensures Unnest(Both(source, openapi), n + 1) ==
            match Unnest(source, n) case Some((first, rest)) => Some((first, rest + [openapi])) case None => None
  {
    FindInBoth(source, openapi);
    hide Find, Both;
  }

  lemma FindInBoth(source: Fields, openapi: Fields)
    ensures Find(Both(source, openapi), "source") == Some(Obj(source))
    ensures Find(Both(source, openapi), "openapi") == Some(Obj(openapi))
    ensures Find(Both(source, openapi), "parameters") == None
  {
    hide Find;
    var a, b := Field("source", Obj(source)), Field("openapi", Obj(openapi));
    FindInPair(a, b, "source");
    FindInPair(a, b, "openapi");
    FindInPair(a, b, "parameters");
    assert |"source"| == 6 && |"openapi"| == 7 && |"parameters"| == 10;
  }

  /** Nothing of the source's or the document's request definitions is overwritten. */
  lemma {:induction false} BothSidesAreKept(str: Json -> string, d: Definition, ops: seq<Operation>)
    requires d.request.Some?
    ensures Unnest(Fold(str, d, ops).request.value, |ops|) == Some((d.request.value, Requests(ops)))
  {
    if ops == [] {
      assert Requests(ops) == [];
    } else {
      var earlier, op := ops[..|ops| - 1], ops[|ops| - 1];
      BothSidesAreKept(str, d, earlier);
      var before := Fold(str, d, earlier).request.value;
      UnnestBoth(before, op.request, |earlier|);
      assert Requests(ops) == Requests(earlier) + [op.request];
      assert Fold(str, d, ops).request.value == Both(before, op.request);
      hide Unnest, Both, Fold;
    }
  }

  /**
    Which difference is marked.  With one operation for the route it is the difference to
    the source; with more, the last operation is compared with an already merged
    definition and only its body is noticed.
   */
  lemma {:induction false} MarkExact(str: Json -> string, d: Definition, ops: seq<Operation>)
    requires d.request.Some? && ops != []
    ensures |ops| == 1 ==> Fold(str, d, ops).conflicts == Compare(str, d.request.value, ops[0].request)
    ensures |ops| > 1 ==> (Fold(str, d, ops).isConflicted <==> Truthy(Get(ops[|ops| - 1].request, "requestBody")))
    ensures Fold(str, d, ops).documented.Some? && Fold(str, d, ops).documented.value.operationId == ops[|ops| - 1].operationId
  {
    var earlier, last := ops[..|ops| - 1], ops[|ops| - 1];
    var before := Fold(str, d, earlier);
    if |ops| > 1 {
      FindInBoth(Fold(str, d, earlier[..|earlier| - 1]).request.value, earlier[|earlier| - 1].request);
      hide Find, Both, Fold;
      assert Bindings(before.request.value, SourceBinding(str)) == {};
    }
  }

  /** A difference that was marked is unmarked by a second operation that normalises to the same route. */
  lemma MarkIsLost(str: Json -> string)
    ensures exists d: Definition, first: Operation, second: Operation :: d.request.Some? && first.route == second.route
              && Fold(str, d, [first]).isConflicted && !Fold(str, d, [first, second]).isConflicted
  {
    var route := Route("POST", "/orders");
    var body := [Field("requestBody", Bool(true))];
    var d := Definition(route, None, Some([]), None, [], false);
    var first := Operation(route, None, body, [], [], []);
    var second := Operation(route, None, [], [], [], []);
    MarkExact(str, d, [first]);
    MarkExact(str, d, [first, second]);
    assert Get(body, "requestBody") == Bool(true) && Get([], "requestBody") == Null;
    assert Bindings([], SourceBinding(str)) == {};
    assert [first][..0] == [];
    assert Fold(str, d, [first]) == Merged(str, d, first);
  }

  // ------------------------------------------------------------------ the loop on objects

  /** The list and the dictionary hold the same objects, one for each route. */
  ghost predicate Indexed(definitions: seq<ApiDefinition>, byRoute: map<Route, ApiDefinition>) {
    && (forall i :: 0 <= i < |definitions| ==> definitions[i].route in byRoute && byRoute[definitions[i].route] == definitions[i])
    && (forall route :: route in byRoute ==> byRoute[route] in definitions && byRoute[route].route == route)
    && (forall i, j :: 0 <= i < j < |definitions| ==> definitions[i].route != definitions[j].route)
  }

  /** `api_by_route`. */
  method IndexByRoute(definitions: seq<ApiDefinition>) returns (byRoute: map<Route, ApiDefinition>)
    requires forall i, j :: 0 <= i < j < |definitions| ==> definitions[i].route != definitions[j].route
    ensures Indexed(definitions, byRoute)
  {
    byRoute := map[];
    for k := 0 to |definitions|
      invariant forall i :: 0 <= i < k ==> definitions[i].route in byRoute && byRoute[definitions[i].route] == definitions[i]
      invariant forall route :: route in byRoute ==> byRoute[route] in definitions && byRoute[route].route == route
    {
      byRoute := byRoute[definitions[k].route := definitions[k]];
    }
  }

  lemma MergeOneAt(str: Json -> string, unset: Option<Fields>, values: seq<Definition>, op: Operation, n: nat)
    requires forall i :: 0 <= i < |values| ==> (values[i].route == op.route <==> i == n)
    requires n <= |values|
    ensures var d := if n < |values| then values[n] else Blank(op.route, unset);
            MergeOne(str, unset, values, op) ==
              if d.request.None? then None
              else Some(if n < |values| then values[n := Merged(str, d, op)] else values + [Merged(str, d, op)])
  {
    assert Listed(values, op.route) ==> Position(values, op.route) == n;
    hide Merged;
  }

  lemma FindIndexed(definitions: seq<ApiDefinition>, byRoute: map<Route, ApiDefinition>, route: Route) returns (n: nat)
    requires Indexed(definitions, byRoute)
    ensures n <= |definitions| && (n < |definitions| <==> route in byRoute)
    ensures n < |definitions| ==> definitions[n] == byRoute[route]
    ensures forall i :: 0 <= i < |definitions| ==> (definitions[i].route == route <==> i == n)
    ensures forall i :: 0 <= i < |definitions| && i != n && n < |definitions| ==> definitions[i] != definitions[n]
  {
    if route in byRoute {
      n :| 0 <= n < |definitions| && definitions[n] == byRoute[route];
    } else {
      n := |definitions|;
    }
  }

  lemma IndexedAppend(definitions: seq<ApiDefinition>, byRoute: map<Route, ApiDefinition>, d: ApiDefinition)
    requires Indexed(definitions, byRoute) && d.route !in byRoute
    ensures Indexed(definitions + [d], byRoute[d.route := d])
  {
  }

  /** The values the listed objects hold. */
  ghost predicate Holds(definitions: seq<ApiDefinition>, now: seq<Definition>)
    reads definitions
  {
    |now| == |definitions| && forall i :: 0 <= i < |definitions| ==> definitions[i].AsValue() == now[i]
  }

  /** Where the object of a route is, and what merging into its value gives. */
  lemma FindValue(str: Json -> string, unset: Option<Fields>, listed: seq<ApiDefinition>,
                  index: map<Route, ApiDefinition>, op: Operation, now: seq<Definition>) returns (n: nat)
    requires Indexed(listed, index) && Holds(listed, now)
    ensures n <= |listed| == |now| && (n < |listed| <==> op.route in index)
    ensures n < |listed| ==> listed[n] == index[op.route] && now[n] == listed[n].AsValue()
    ensures forall i :: 0 <= i < |listed| && i != n && n < |listed| ==> listed[i] != listed[n]
    ensures forall i :: 0 <= i < |listed| ==> listed[i].AsValue() == now[i]
    ensures var d := if n < |now| then now[n] else Blank(op.route, unset);
            MergeOne(str, unset, now, op) ==
              if d.request.None? then None
              else Some(if n < |now| then now[n := Merged(str, d, op)] else now + [Merged(str, d, op)])
  {
    n := FindIndexed(listed, index, op.route);
    hide Indexed, Merged, MergeOne;
    MergeOneAt(str, unset, now, op, n);
  }

  /** One turn of the OpenAPI loop. */
  method MergeOperation(str: Json -> string, unset: Option<Fields>, listed: seq<ApiDefinition>,
                        index: map<Route, ApiDefinition>, op: Operation, ghost now: seq<Definition>)
    returns (ok: bool, definitions: seq<ApiDefinition>, byRoute: map<Route, ApiDefinition>)
    requires Indexed(listed, index) && Holds(listed, now)
    modifies listed
    ensures ok <==> MergeOne(str, unset, now, op).Some?
    ensures Indexed(definitions, byRoute) && listed <= definitions
    ensures forall d :: d in definitions ==> d in listed || fresh(d)
    ensures ok ==> Holds(definitions, MergeOne(str, unset, now, op).value)
  {
    ghost var n := FindValue(str, unset, listed, index, op, now);
    hide Indexed, MergeOne, Merged, Holds;
    definitions, byRoute := listed, index;
    var d: ApiDefinition;
    if op.route in byRoute {
      d := byRoute[op.route];
    } else {
      d := new ApiDefinition(op.route, None, unset);
      IndexedAppend(definitions, byRoute, d);
      definitions := definitions + [d];
      byRoute := byRoute[op.route := d];
      assert d.AsValue() == Blank(op.route, unset);
    }
    hide Blank;
    ghost var before := d.AsValue();
    assert before == if n < |now| then now[n] else Blank(op.route, unset);
    assert d == definitions[n] && forall i :: 0 <= i < |now| && i != n ==> definitions[i].AsValue() == now[i] && definitions[i] != d;
    RequestOf(d);
    hide ApiDefinition.AsValue;
    ok := d.Apply(str, op);
    if ok {
      HoldsAfter(definitions, now, n, Merged(str, before, op));
    }
  }

  lemma RequestOf(d: ApiDefinition)
    ensures d.AsValue().request == d.request
  {
  }

  lemma HoldsAfter(definitions: seq<ApiDefinition>, now: seq<Definition>, n: nat, d: Definition)
    requires n <= |now| && |definitions| == if n < |now| then |now| else n + 1
    requires forall i :: 0 <= i < |now| && i != n ==> definitions[i].AsValue() == now[i]
    requires definitions[n].AsValue() == d
    ensures Holds(definitions, if n < |now| then now[n := d] else now + [d])
  {
  }

  /** The OpenAPI loop: None when an operation meets an unassigned request definition. */
  method MergeOperations(str: Json -> string, unset: Option<Fields>, found: seq<ApiDefinition>, ops: seq<Operation>)
    returns (result: Option<(seq<ApiDefinition>, map<Route, ApiDefinition>)>)
    requires OneEach(ValuesOf(found))
    modifies found
    ensures match result
            case None => MergeAll(str, unset, old(ValuesOf(found)), ops).None?
            case Some((definitions, byRoute)) =>
              && Indexed(definitions, byRoute) && found <= definitions
              && (forall d :: d in definitions ==> d in found || fresh(d))
              && MergeAll(str, unset, old(ValuesOf(found)), ops) == Some(ValuesOf(definitions))
  {
    ghost var start := ValuesOf(found);
    StartOfMerge(str, unset, found, ops);
    hide *;
    var byRoute: map<Route, ApiDefinition>;
    byRoute := IndexByRoute(found);
    var definitions := found;
    ghost var now := start;
    for k := 0 to |ops|
      invariant found <= definitions
      invariant forall d :: d in definitions ==> d in found || fresh(d)
      invariant Indexed(definitions, byRoute) && Holds(definitions, now)
      invariant MergeAll(str, unset, start, ops[..k]) == Some(now)
    {
      MergeAllNext(str, unset, start, ops, k, now);
      ghost var next := MergeOne(str, unset, now, ops[k]);
      var ok;
      ok, definitions, byRoute := MergeOperation(str, unset, definitions, byRoute, ops[k], now);
      if !ok {
        return None;
      }
      now := next.value;
    }
    HoldsValues(definitions, now);
    assert ops[..|ops|] == ops;
    return Some((definitions, byRoute));
  }

  lemma StartOfMerge(str: Json -> string, unset: Option<Fields>, found: seq<ApiDefinition>, ops: seq<Operation>)
    requires OneEach(ValuesOf(found))
    ensures Holds(found, ValuesOf(found)) && MergeAll(str, unset, ValuesOf(found), ops[..0]) == Some(ValuesOf(found))
    ensures forall i, j :: 0 <= i < j < |found| ==> found[i].route != found[j].route
  {
    assert forall i :: 0 <= i < |found| ==> ValuesOf(found)[i].route == found[i].route;
  }

  lemma MergeAllNext(str: Json -> string, unset: Option<Fields>, start: seq<Definition>, ops: seq<Operation>, k: nat, now: seq<Definition>)
    requires k < |ops| && MergeAll(str, unset, start, ops[..k]) == Some(now)
    ensures MergeAll(str, unset, start, ops[..k + 1]) == MergeOne(str, unset, now, ops[k])
    ensures MergeOne(str, unset, now, ops[k]).None? ==> MergeAll(str, unset, start, ops).None?
  {
    hide *;
    assert ops[..k + 1] == ops[..k] + [ops[k]];
    MergeAllLast(str, unset, start, ops[..k], ops[k]);
    if MergeOne(str, unset, now, ops[k]).None? {
      MergeFailed(str, unset, start, ops, k);
    }
  }

  lemma {:induction false} MergeFailed(str: Json -> string, unset: Option<Fields>, values: seq<Definition>, ops: seq<Operation>, k: nat)
    requires k < |ops| && MergeAll(str, unset, values, ops[..k + 1]).None?
    ensures MergeAll(str, unset, values, ops).None?
    decreases |ops|
  {
    if k == |ops| - 1 {
      assert ops[..k + 1] == ops;
    } else {
      var earlier := ops[..|ops| - 1];
      assert earlier[..k + 1] == ops[..k + 1];
      MergeFailed(str, unset, values, earlier, k);
    }
  }

  lemma HoldsValues(definitions: seq<ApiDefinition>, now: seq<Definition>)
    requires Holds(definitions, now)
    ensures ValuesOf(definitions) == now
  {
  }

  /** The definitions the source starts the merge with. */
  ghost predicate FromSource(values: seq<Definition>, parsed: seq<ParsedRoute>, symbols: map<string, SymbolId>) {
    var found := Discovered(parsed);
    |values| == |found| && forall i :: 0 <= i < |found| ==> Known(symbols, found[i]) && values[i] == Defined(symbols, found[i])
  }

  lemma SourceFacts(values: seq<Definition>, parsed: seq<ParsedRoute>, symbols: map<string, SymbolId>)
    requires FromSource(values, parsed, symbols)
    ensures OneEach(values) && Assigned(values)
    ensures forall route :: Listed(values, route) <==> HasRoute(parsed, route)
  {
    var found := Discovered(parsed);
    DiscoveredExact(parsed);
    hide Discovered, FirstAt;
    forall route ensures Listed(values, route) <==> HasRoute(found, route) {
      if i :| 0 <= i < |found| && found[i].route == route {
        assert values[i].route == route;
      }
      if i :| 0 <= i < |values| && values[i].route == route {
        assert found[i].route == route;
      }
    }
  }

  /** What the whole merge leaves, said of the routes of the source and of the document. */
  ghost predicate RoutesMerged(str: Json -> string, unset: Option<Fields>, parsed: seq<ParsedRoute>, symbols: map<string, SymbolId>,
                               ops: seq<Operation>, after: seq<Definition>) {
    exists values ::
      && FromSource(values, parsed, symbols) && OneEach(after) && InPlace(values, after)
      && (forall route :: Listed(after, route) <==> HasRoute(parsed, route) || exists op :: op in ops && op.route == route)
      && forall route :: Lookup(after, route) == Outcome(str, unset, values, ops, route)
  }

  lemma {:induction false} MergedRoutes(str: Json -> string, unset: Option<Fields>, parsed: seq<ParsedRoute>, symbols: map<string, SymbolId>,
                     ops: seq<Operation>, values: seq<Definition>)
    requires FromSource(values, parsed, symbols)
    ensures OneEach(values)
    ensures MergeAll(str, unset, values, ops).Some? <==> unset.Some? || forall op :: op in ops ==> HasRoute(parsed, op.route)
    ensures MergeAll(str, unset, values, ops).Some? ==>
              RoutesMerged(str, unset, parsed, symbols, ops, MergeAll(str, unset, values, ops).value)
  {
    SourceFacts(values, parsed, symbols);
    MergeExact(str, unset, values, ops);
    hide *;
    assert Startable(unset, values, ops) <==> unset.Some? || forall op :: op in ops ==> HasRoute(parsed, op.route) by {
      StartableMeans(unset, values, ops);
    }
    var all := MergeAll(str, unset, values, ops);
    if all.Some? {
      forall route ensures Listed(all.value, route) <==> HasRoute(parsed, route) || exists op :: op in ops && op.route == route {
        ListedAfter(values, all.value, ops, unset, str, route);
        OpsForOccurs(ops, route);
      }
      RoutesMergedBy(str, unset, parsed, symbols, ops, values, all.value);
    }
  }

  lemma StartableMeans(unset: Option<Fields>, values: seq<Definition>, ops: seq<Operation>)
    ensures Startable(unset, values, ops) <==> unset.Some? || forall op :: op in ops ==> Listed(values, op.route)
  {
    hide Listed;
  }

  lemma RoutesMergedBy(str: Json -> string, unset: Option<Fields>, parsed: seq<ParsedRoute>, symbols: map<string, SymbolId>,
                       ops: seq<Operation>, values: seq<Definition>, after: seq<Definition>)
    requires FromSource(values, parsed, symbols) && OneEach(after) && InPlace(values, after)
    requires forall route :: Listed(after, route) <==> HasRoute(parsed, route) || exists op :: op in ops && op.route == route
    requires forall route :: Lookup(after, route) == Outcome(str, unset, values, ops, route)
    ensures RoutesMerged(str, unset, parsed, symbols, ops, after)
  {
    hide FromSource, OneEach, InPlace, Listed, HasRoute, Lookup, Outcome;
  }

  /**
    Both loops, from the parsed routes and the operations of the document: they go through
    exactly when every first definition names known symbols and every operation has a
    definition to start from, and then list and dictionary hold one object for each route
    of the source or the document, carrying that route's own merge.
   */
  method MergeRoutes(str: Json -> string, unset: Option<Fields>, parsed: seq<ParsedRoute>, symbols: map<string, SymbolId>,
                     ops: seq<Operation>)
    returns (result: Option<(seq<ApiDefinition>, map<Route, ApiDefinition>)>)
    ensures result.Some? <==>
              && (forall p :: p in Discovered(parsed) ==> Known(symbols, p))
              && (unset.Some? || forall op :: op in ops ==> HasRoute(parsed, op.route))
    ensures result.Some? ==> Indexed(result.value.0, result.value.1)
    ensures result.Some? ==> RoutesMerged(str, unset, parsed, symbols, ops, ValuesOf(result.value.0))
  {
    var found := DiscoverRoutes(parsed, symbols);
    if found.None? {
      return None;
    }
    ghost var values := ValuesOf(found.value);
    assert FromSource(values, parsed, symbols);
    MergedRoutes(str, unset, parsed, symbols, ops, values);
    assert forall p :: p in Discovered(parsed) ==> Known(symbols, p);
    hide *;
    result := MergeOperations(str, unset, found.value, ops);
  }

}
