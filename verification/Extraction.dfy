/**
  Runtime variable extraction from one response
  (backend/app/modules/executions/extractions.py and `_extract_step_variables`).
 */
module Extraction {
  import opened Wrappers
  import opened Json
  import opened Templates
  import opened JsonPath

  datatype Source = StatusCode | JsonBody | ResponseHeader | Text

  datatype Rule = Rule(key: string, source: Source, expression: Option<string>)

  datatype Header = Header(name: string, value: string)

  /** `json` is the parsed body, null when the body is not JSON. */
  datatype Response = Response(status: int, text: string, json: Json, headers: seq<Header>, durationMs: int)

  datatype ExtractError = ExtractionFailed | BadPath

  const MAX_PATTERN := 512
  const MAX_TEXT := 1_048_576

  /** The first header whose name equals the wanted one, both lower-cased. */
  function FindHeader(host: Host, headers: seq<Header>, wanted: string): Option<string> {
    if headers == [] then None
    else if host.lower(headers[0].name) == wanted then Some(headers[0].value)
    else FindHeader(host, headers[1..], wanted)
  }

  /** `_single_value`: several values, no value and a null value are all failures. */
  function SingleValue(values: seq<Json>): Result<Json, ExtractError> {
    if |values| != 1 || values[0] == Null then Err(ExtractionFailed) else Ok(values[0])
  }

  /**
    The text branch rejects a group that matched "" but not a group that took no part
    in the match, whose value is null.
   */
  function ExtractText(host: Host, pattern: string, text: string): Result<Json, ExtractError> {
    if |pattern| > MAX_PATTERN || |text| > MAX_TEXT then Err(ExtractionFailed)
    else
      match host.search(pattern, text)
      case Match(groups) =>
        if |groups| != 1 || groups[0] == Some("") then Err(ExtractionFailed)
        else if groups[0].None? then Ok(Null)
        else Ok(Str(groups[0].value))
      case _ => Err(ExtractionFailed)
  }

  /** `extract_runtime_value`. */
  function Extract(host: Host, rule: Rule, r: Response): Result<Json, ExtractError> {
    if rule.source.StatusCode? then Ok(Int(r.status))
    else if rule.expression.None? || rule.expression.value == "" then Err(ExtractionFailed)
    else
      var expression := rule.expression.value;
      match rule.source
      case JsonBody =>
        (match Values(r.json, expression)
         case Ok(values) => SingleValue(values)
         case Err(_) => Err(BadPath))
      case ResponseHeader =>
        (match FindHeader(host, r.headers, host.lower(expression))
         case Some(value) => Ok(Str(value))
         case None => Err(ExtractionFailed))
      case Text => ExtractText(host, expression, r.text)
      case StatusCode => Err(ExtractionFailed)
  }

  /** The expression matched, and its only group took no part in the match. */
  ghost predicate GroupSatOut(host: Host, rule: Rule, r: Response) {
    rule.source.Text? && rule.expression.Some? && rule.expression.value != "" &&
    |rule.expression.value| <= MAX_PATTERN && |r.text| <= MAX_TEXT &&
    host.search(rule.expression.value, r.text) == Match([None])
  }

  /** The one way an extraction succeeds with a null value. */
  lemma {:induction false} ExtractsNullIff(host: Host, rule: Rule, r: Response)
    ensures Extract(host, rule, r) == Ok(Null) <==> GroupSatOut(host, rule, r)
  {
    if rule.source.Text? && rule.expression.Some? {
      var m := host.search(rule.expression.value, r.text);
      if m.Match? && |m.groups| == 1 {
        assert m.groups == [m.groups[0]];
      }
    }
  }

  /** The first header with the wanted name, in any case. */
  ghost predicate FirstNamed(host: Host, headers: seq<Header>, wanted: string, i: nat) {
    i < |headers| && host.lower(headers[i].name) == wanted && forall j :: 0 <= j < i ==> host.lower(headers[j].name) != wanted
  }

  lemma {:induction false} FindHeaderExact(host: Host, headers: seq<Header>, wanted: string)
    ensures FindHeader(host, headers, wanted).None? <==> forall h :: h in headers ==> host.lower(h.name) != wanted
    ensures forall i: nat :: FirstNamed(host, headers, wanted, i) ==> FindHeader(host, headers, wanted) == Some(headers[i].value)
  {
    if headers != [] {
      FindHeaderExact(host, headers[1..], wanted);
      assert headers == [headers[0]] + headers[1..];
      forall i: nat | FirstNamed(host, headers, wanted, i)
        ensures FindHeader(host, headers, wanted) == Some(headers[i].value)
      {
        assert i > 0 ==> headers[i] == headers[1..][i - 1] && host.lower(headers[0].name) != wanted;
        assert forall j :: 0 <= j < |headers| - 1 ==> headers[1..][j] == headers[j + 1];
        assert i > 0 ==> FirstNamed(host, headers[1..], wanted, i - 1);
      }
    }
  }

  /**
    What each kind of rule yields.  The status needs no expression; every other rule fails
    without one; a header rule gives the first header of that name; a text rule
    gives its one group, which must not have matched the empty text; a path rule gives
    the one value its path selects, unless it is null.
   */
  lemma ExtractBySource(host: Host, rule: Rule, r: Response)
    ensures rule.source.StatusCode? ==> Extract(host, rule, r) == Ok(Int(r.status))
    ensures !rule.source.StatusCode? && rule.expression in {None, Some("")} ==> Extract(host, rule, r) == Err(ExtractionFailed)
    ensures rule.source.ResponseHeader? && rule.expression.Some? && rule.expression.value != "" ==>
              var wanted := host.lower(rule.expression.value);
              && (Extract(host, rule, r).Err? <==> forall h :: h in r.headers ==> host.lower(h.name) != wanted)
              && (forall i: nat :: FirstNamed(host, r.headers, wanted, i) ==> Extract(host, rule, r) == Ok(Str(r.headers[i].value)))
    ensures rule.source.Text? && rule.expression.Some? && rule.expression.value != "" ==>
              && (Extract(host, rule, r).Ok? <==> exists group ::
                    && |rule.expression.value| <= 512 && |r.text| <= 0x10_0000 && group != Some("")
                    && host.search(rule.expression.value, r.text) == Match([group]))
              && (forall t :: Extract(host, rule, r) == Ok(Str(t)) ==>
                    host.search(rule.expression.value, r.text) == Match([Some(t)]))
    ensures rule.source.JsonBody? && rule.expression.Some? && rule.expression.value != "" ==>
              && (Extract(host, rule, r) == Err(BadPath) <==> Values(r.json, rule.expression.value).Err?)
              && (forall v :: Extract(host, rule, r) == Ok(v) <==> v != Null && Values(r.json, rule.expression.value) == Ok([v]))
    ensures Extract(host, rule, r) == Err(BadPath) ==> rule.source.JsonBody?
  {
    if rule.expression.Some? {
      FindHeaderExact(host, r.headers, host.lower(rule.expression.value));
      var m := host.search(rule.expression.value, r.text);
      if m.Match? && |m.groups| == 1 {
        assert m.groups == [m.groups[0]];
      }
      var values := Values(r.json, rule.expression.value);
      if values.Ok? && |values.value| == 1 {
        assert values.value == [values.value[0]];
      }
    }
    hide Values, FindHeader;
  }

  /** Extracting at the printed location of a non-null node yields that node. */
  lemma {:induction false} ExtractAtLocation(host: Host, key: string, path: Path, r: Response, node: Json)
    requires WellFormed(r.json) && r.json != Null && IsNode(r.json, path, node)
    requires WildFree(path) && forall i :: 0 <= i < |path| ==> Printable(path[i])
    ensures Extract(host, Rule(key, JsonBody, Some("$" + PrintPath(path))), r) ==
            if node == Null then Err(ExtractionFailed) else Ok(node)
  {
    LocationRoundTrip(r.json, path, node);
  }

  /** The variables of one step: all rules in order, the first failure wins. */
  function ExtractAll(host: Host, rules: seq<Rule>, r: Response): Result<map<string, Json>, ExtractError> {
    if rules == [] then Ok(map[])
    else
      var last := rules[|rules| - 1];
      match ExtractAll(host, rules[..|rules| - 1], r)
      case Err(e) => Err(e)
      case Ok(values) =>
        match Extract(host, last, r)
        case Ok(value) => Ok(values[last.key := value])
        case Err(e) => Err(e)
  }

  function RuleKeys(rules: seq<Rule>): seq<string> {
    seq(|rules|, i requires 0 <= i < |rules| => rules[i].key)
  }

  lemma {:induction false} ExtractPrefix(host: Host, rules: seq<Rule>, n: nat, r: Response)
    requires n <= |rules| && ExtractAll(host, rules[..n], r).Err?
    ensures ExtractAll(host, rules, r) == ExtractAll(host, rules[..n], r)
    decreases |rules|
  {
    if n == |rules| {
      assert rules[..n] == rules;
    } else {
      var shorter := rules[..|rules| - 1];
      assert shorter[..n] == rules[..n];
      ExtractPrefix(host, shorter, n, r);
    }
  }

  ghost predicate FirstBadRule(host: Host, rules: seq<Rule>, r: Response, i: nat) {
    i < |rules| && Extract(host, rules[i], r).Err? && forall j :: 0 <= j < i ==> Extract(host, rules[j], r).Ok?
  }

  /** Extraction succeeds exactly when every rule does, and else fails as the first rule that fails. */
  lemma {:induction false} ExtractAllExact(host: Host, rules: seq<Rule>, r: Response)
    ensures ExtractAll(host, rules, r).Ok? <==> forall rule :: rule in rules ==> Extract(host, rule, r).Ok?
    ensures ExtractAll(host, rules, r).Err? ==>
              exists i: nat :: FirstBadRule(host, rules, r, i) &&
                               Extract(host, rules[i], r) == Err(ExtractAll(host, rules, r).error)
  {
    hide Extract;
    if rules != [] {
      var n := |rules| - 1;
      var front := rules[..n];
      ExtractAllExact(host, front, r);
      assert rules == front + [rules[n]];
      if ExtractAll(host, front, r).Err? {
        var i: nat :| FirstBadRule(host, front, r, i) && Extract(host, front[i], r) == Err(ExtractAll(host, front, r).error);
        assert FirstBadRule(host, rules, r, i);
      } else if Extract(host, rules[n], r).Err? {
        assert FirstBadRule(host, rules, r, n);
      }
    }
  }

  /** The loop of `_extract_step_variables`. */
  method ExtractStepVariables(host: Host, rules: seq<Rule>, r: Response)
    returns (result: Result<map<string, Json>, ExtractError>)
    ensures result == ExtractAll(host, rules, r)
  {
    var values: map<string, Json> := map[];
    for i := 0 to |rules|
      invariant ExtractAll(host, rules[..i], r) == Ok(values)
    {
      assert rules[..i + 1][..i] == rules[..i];
      var value := Extract(host, rules[i], r);
      if value.Err? {
        ExtractPrefix(host, rules, i + 1, r);
        return Err(value.error);
      }
      values := values[rules[i].key := value.value];
    }
    assert rules[..|rules|] == rules;
    return Ok(values);
  }

  /** A successful extraction binds exactly the keys of the rules, each to its own value. */
  lemma {:induction false} ExtractAllBinds(host: Host, rules: seq<Rule>, r: Response)
    requires ExtractAll(host, rules, r).Ok?
    requires forall i, j :: 0 <= i < j < |rules| ==> rules[i].key != rules[j].key
    ensures ExtractAll(host, rules, r).value.Keys == set k | k in RuleKeys(rules)
    ensures forall i :: 0 <= i < |rules| ==>
              rules[i].key in ExtractAll(host, rules, r).value &&
              Extract(host, rules[i], r) == Ok(ExtractAll(host, rules, r).value[rules[i].key])
  {
    if rules != [] {
      var n := |rules| - 1;
      var front := rules[..n];
      ExtractAllBinds(host, front, r);
      var before, after := ExtractAll(host, front, r).value, ExtractAll(host, rules, r).value;
      assert RuleKeys(rules) == RuleKeys(front) + [rules[n].key];
      forall i | 0 <= i < |rules|
        ensures rules[i].key in after && Extract(host, rules[i], r) == Ok(after[rules[i].key])
      {
        if i < n {
          assert front[i] == rules[i] && RuleKeys(front)[i] == rules[i].key;
        }
      }
    }
  }
}
