/**
  The deterministic assertion engine
  (backend/app/modules/executions/assertion_engine.py, `evaluate_assertion`).
 */
module Assertions {
  import opened Wrappers
  import opened Json
  import opened JsonPath
  import opened Extraction

  datatype Assertion = Assertion(kind: string, config: Fields)

  datatype AssertError = ConfigInvalid | PathInvalid | KindUnsupported

  datatype Evaluation = Evaluation(path: Option<string>, expected: Json, actual: Json, passed: bool)

  // ---------------------------------------------------------- host-level equality

  predicate IsNumber(v: Json) { v.Bool? || v.Int? || v.Float? }

  function NumberOf(v: Json): real
    requires IsNumber(v)
  {
    match v case Bool(b) => (if b then 1.0 else 0.0) case Int(i) => i as real case Float(r) => r
  }

  /** `==` between decoded JSON values: booleans count as 0 and 1, key order is ignored. */
  predicate PyEq(a: Json, b: Json)
    decreases a, 1
  {
    if IsNumber(a) && IsNumber(b) then NumberOf(a) == NumberOf(b)
    else
      match (a, b)
      case (Null, Null) => true
      case (Str(s), Str(t)) => s == t
      case (Arr(x), Arr(y)) => |x| == |y| && PyEqItems(x, y)
      case (Obj(x), Obj(y)) => |x| == |y| && PyEqFields(x, y)
      case _ => false
  }

  predicate PyEqItems(a: seq<Json>, b: seq<Json>)
    requires |a| == |b|
    decreases a, 0
  {
    a == [] || (PyEq(a[0], b[0]) && PyEqItems(a[1..], b[1..]))
  }

  predicate PyEqFields(a: Fields, b: Fields)
    decreases a, 0
  {
    a == [] ||
    (Find(b, a[0].key).Some? && PyEq(a[0].value, Find(b, a[0].key).value) && PyEqFields(a[1..], b))
  }

  lemma {:induction false} PyEqReflexive(v: Json)
    requires WellFormed(v)
    ensures PyEq(v, v)
    decreases v, 1
  {
    match v
    case Arr(items) => PyEqItemsReflexive(items);
    case Obj(fields) => PyEqFieldsReflexive(fields, fields);
    case _ =>
  }

  lemma {:induction false} PyEqItemsReflexive(items: seq<Json>)
    requires forall x | x in items :: WellFormed(x)
    ensures PyEqItems(items, items)
    decreases items, 0
  {
    if items != [] {
      PyEqReflexive(items[0]);
      PyEqItemsReflexive(items[1..]);
    }
  }

  lemma {:induction false} PyEqFieldsReflexive(part: Fields, fields: Fields)
    requires DistinctKeys(fields)
    requires forall f | f in part :: f in fields && WellFormed(f.value)
    ensures PyEqFields(part, fields)
    decreases part, 0
  {
    if part != [] {
      assert part[0] in fields;
      var i :| 0 <= i < |fields| && fields[i] == part[0];
      FindAt(fields, i);
      PyEqReflexive(part[0].value);
      PyEqFieldsReflexive(part[1..], fields);
    }
  }

  /** Two objects with the same keys and equal values under each. */
  ghost predicate SameEntries(a: Fields, b: Fields) {
    KeysOf(a) == KeysOf(b) &&
    forall f, g :: f in a && g in b && f.key == g.key ==> PyEq(f.value, g.value)
  }

  /**
    When two values are equal: numbers and booleans by value, lists item by item, objects
    by their keys in any order, and no two values of different kinds.
   */
  lemma {:induction false} PyEqExact(a: Json, b: Json)
    requires WellFormed(a) && WellFormed(b)
    ensures IsNumber(a) && IsNumber(b) ==> (PyEq(a, b) <==> NumberOf(a) == NumberOf(b))
    ensures a.Arr? && b.Arr? ==>
              (PyEq(a, b) <==> |a.items| == |b.items| && forall i :: 0 <= i < |a.items| ==> PyEq(a.items[i], b.items[i]))
    ensures a.Obj? && b.Obj? ==> (PyEq(a, b) <==> SameEntries(a.fields, b.fields))
    ensures a.Null? || a.Str? || b.Null? || b.Str? ==> (PyEq(a, b) <==> a == b)
    ensures (a.Arr? && !b.Arr?) || (a.Obj? && !b.Obj?) || (IsNumber(a) && !IsNumber(b)) ==> !PyEq(a, b)
  {
    if a.Arr? && b.Arr? && |a.items| == |b.items| {
      PyEqItemsExact(a.items, b.items);
    } else if a.Obj? && b.Obj? {
      hide PyEqFields;
      PyEqFieldsExact(a.fields, b.fields);
      SameSize(a.fields, b.fields);
    }
  }

  lemma {:induction false} PyEqItemsExact(a: seq<Json>, b: seq<Json>)
    requires |a| == |b|
    ensures PyEqItems(a, b) <==> forall i :: 0 <= i < |a| ==> PyEq(a[i], b[i])
  {
    hide PyEq;
    if a != [] {
      PyEqItemsExact(a[1..], b[1..]);
      assert forall i :: 0 < i < |a| ==> a[i] == a[1..][i - 1] && b[i] == b[1..][i - 1];
      if forall i :: 0 <= i < |a| ==> PyEq(a[i], b[i]) {
        assert forall i :: 0 <= i < |a| - 1 ==> a[1..][i] == a[i + 1] && b[1..][i] == b[i + 1];
      }
    }
  }

  lemma {:induction false} PyEqFieldsExact(a: Fields, b: Fields)
    requires DistinctKeys(b)
    ensures PyEqFields(a, b) <==> KeysOf(a) <= KeysOf(b) &&
                                  forall f, g :: f in a && g in b && f.key == g.key ==> PyEq(f.value, g.value)
  {
    hide PyEq;
    if a != [] {
      PyEqFieldsExact(a[1..], b);
      assert a == [a[0]] + a[1..];
      FirstEntry(a, b);
    }
  }

  lemma {:induction false} FirstEntry(a: Fields, b: Fields)
    requires a != [] && DistinctKeys(b)
    ensures Find(b, a[0].key).Some? <==> a[0].key in KeysOf(b)
    ensures forall g :: g in b && g.key == a[0].key ==> Find(b, a[0].key) == Some(g.value)
    ensures KeysOf(a) == {a[0].key} + KeysOf(a[1..])
  {
    FindNone(b, a[0].key);
    forall g | g in b && g.key == a[0].key ensures Find(b, a[0].key) == Some(g.value) {
      var i :| 0 <= i < |b| && b[i] == g;
      FindAt(b, i);
    }
    assert a == [a[0]] + a[1..];
  }

  lemma {:induction false} KeyCount(fields: Fields)
    requires DistinctKeys(fields)
    ensures |KeysOf(fields)| == |fields|
  {
    if fields != [] {
      var rest := fields[1..];
      KeyCount(rest);
      assert fields == [fields[0]] + rest;
      assert KeysOf(fields) == {fields[0].key} + KeysOf(rest);
      assert fields[0].key !in KeysOf(rest);
    }
  }

  /** With as many entries and no key twice, keys on one side only come in pairs. */
  lemma SameSize(a: Fields, b: Fields)
    requires DistinctKeys(a) && DistinctKeys(b)
    ensures |a| == |b| && KeysOf(a) <= KeysOf(b) ==> KeysOf(a) == KeysOf(b)
    ensures KeysOf(a) == KeysOf(b) ==> |a| == |b|
  {
    KeyCount(a);
    KeyCount(b);
    if KeysOf(a) <= KeysOf(b) {
      assert |KeysOf(b) - KeysOf(a)| == |KeysOf(b)| - |KeysOf(a)|;
    }
  }

  // ------------------------------------------------------------------ evaluation

  /** `_ALIASES`: names kept for drafts written before the current ones. */
  function Canonical(kind: string): string {
    if kind == "status_code" then "status_code_equals"
    else if kind == "business_code" then "business_code_equals"
    else if kind == "text_contains" then "body_contains"
    else kind
  }

  /** `config.get(key)`, null when absent. */
  function Setting(config: Fields, key: string): Json {
    match Find(config, key) case Some(v) => v case None => Null
  }

  function ConfigPath(config: Fields, default: Option<string>): Result<string, AssertError> {
    match Find(config, "path")
    case Some(v) => if v.Str? then Ok(v.s) else Err(ConfigInvalid)
    case None => match default case Some(path) => Ok(path) case None => Err(ConfigInvalid)
  }

  function Equals(path: Option<string>, expected: Json, actual: Json): Evaluation {
    Evaluation(path, expected, actual, PyEq(actual, expected))
  }

  /** A single selected value stands for itself, any other number for the list of them. */
  function Unwrapped(values: seq<Json>): Json {
    if |values| == 1 then values[0] else Arr(values)
  }

  function TypeName(v: Json): string {
    match v
    case Null => "null"
    case Bool(_) => "boolean"
    case Str(_) => "string"
    case Int(_) => "number"
    case Float(_) => "number"
    case Arr(_) => "array"
    case Obj(_) => "object"
  }

  predicate Contains(text: string, part: string) {
    exists i :: 0 <= i <= |text| && part <= text[i..]
  }

  predicate AtLeast(actual: Json, bound: Json)
    requires IsNumber(actual)
  {
    bound.Null? || (IsNumber(bound) && NumberOf(actual) >= NumberOf(bound))
  }

  predicate AtMost(actual: Json, bound: Json)
    requires IsNumber(actual)
  {
    bound.Null? || (IsNumber(bound) && NumberOf(actual) <= NumberOf(bound))
  }

  /** The assertion kinds that read a JSONPath. */
  function EvaluatePath(kind: string, config: Fields, path: string, values: seq<Json>): Evaluation {
    var expected := Setting(config, "expected");
    if kind == "json_path_exists" || kind == "json_path_not_exists" then
      var exists_ := values != [];
      Evaluation(Some(path), Bool(exists_), Bool(exists_), exists_ == (kind == "json_path_exists"))
    else if kind == "json_path_type" then
      var actual := if |values| == 1 then Str(TypeName(values[0])) else Null;
      Evaluation(Some(path), expected, actual, expected.Str? && |values| == 1 && actual == expected)
    else if kind == "number_range" then
      var actual := if |values| == 1 then values[0] else Null;
      var low, high := Setting(config, "min"), Setting(config, "max");
      Evaluation(Some(path), Obj([Field("min", low), Field("max", high)]), actual,
                 (actual.Int? || actual.Float?) && AtLeast(actual, low) && AtMost(actual, high))
    else Equals(Some(path), expected, Unwrapped(values))
  }

  predicate ReadsPath(kind: string) {
    kind in {"business_code_equals", "json_path_equals", "json_path_exists", "json_path_not_exists",
             "json_path_type", "number_range"}
  }

  /** `evaluate_assertion`. */
  function Evaluate(a: Assertion, r: Response): Result<Evaluation, AssertError> {
    var kind := Canonical(a.kind);
    var expected := Setting(a.config, "expected");
    if kind == "status_code_equals" then Ok(Equals(None, expected, Int(r.status)))
    else if ReadsPath(kind) then
      match ConfigPath(a.config, if kind == "business_code_equals" then Some("$.code") else None)
      case Err(e) => Err(e)
      case Ok(path) =>
        match Values(r.json, path)
        case Ok(values) => Ok(EvaluatePath(kind, a.config, path, values))
        case Err(_) => Err(PathInvalid)
    else if kind == "body_contains" || kind == "body_not_contains" then
      if !expected.Str? then Err(ConfigInvalid)
      else
        var contained := Contains(r.text, expected.s);
        Ok(Evaluation(None, expected, Bool(contained), contained == (kind == "body_contains")))
    else if kind == "response_time_less_than" then
      Ok(Evaluation(None, expected, Int(r.durationMs),
                    (expected.Int? || expected.Bool?) && NumberOf(expected) >= 0.0 &&
                    r.durationMs as real < NumberOf(expected)))
    else Err(KindUnsupported)
  }

  /** All assertions are evaluated before the verdict; the first error is the outcome. */
  function AllPassed(assertions: seq<Assertion>, r: Response): Result<bool, AssertError> {
    if assertions == [] then Ok(true)
    else
      match Evaluate(assertions[0], r)
      case Err(e) => Err(e)
      case Ok(evaluation) =>
        match AllPassed(assertions[1..], r)
        case Err(e) => Err(e)
        case Ok(rest) => Ok(evaluation.passed && rest)
  }

  /** The step verdict: it errs at the first faulty assertion and is the conjunction otherwise. */
  lemma {:induction false} AllPassedExact(assertions: seq<Assertion>, r: Response)
    ensures AllPassed(assertions, r).Ok? <==> forall a :: a in assertions ==> Evaluate(a, r).Ok?
    ensures AllPassed(assertions, r) == Ok(true) <==>
            forall a :: a in assertions ==> Evaluate(a, r).Ok? && Evaluate(a, r).value.passed
  {
    hide Evaluate;
    if assertions != [] {
      AllPassedExact(assertions[1..], r);
      assert assertions == [assertions[0]] + assertions[1..];
    }
  }

  ghost predicate FirstBadAssertion(assertions: seq<Assertion>, r: Response, i: nat) {
    i < |assertions| && Evaluate(assertions[i], r).Err? && forall j :: 0 <= j < i ==> Evaluate(assertions[j], r).Ok?
  }

  /** The error is that of the first assertion that has one. */
  lemma {:induction false} AllPassedError(assertions: seq<Assertion>, r: Response)
    requires AllPassed(assertions, r).Err?
    ensures exists i: nat :: FirstBadAssertion(assertions, r, i) &&
                             Evaluate(assertions[i], r) == Err(AllPassed(assertions, r).error)
  {
    hide Evaluate;
    if Evaluate(assertions[0], r).Err? {
      assert FirstBadAssertion(assertions, r, 0);
    } else {
      AllPassedError(assertions[1..], r);
      var i: nat :| FirstBadAssertion(assertions[1..], r, i) &&
                    Evaluate(assertions[1..][i], r) == Err(AllPassed(assertions[1..], r).error);
      assert forall j :: 0 < j < |assertions| ==> assertions[j] == assertions[1..][j - 1];
      assert FirstBadAssertion(assertions, r, i + 1);
    }
  }

  /** The six type names, `null` to `object`. */
  predicate HasType(v: Json, name: string) {
    || (name == "null" && v.Null?) || (name == "boolean" && v.Bool?) || (name == "string" && v.Str?)
    || (name == "number" && (v.Int? || v.Float?)) || (name == "array" && v.Arr?) || (name == "object" && v.Obj?)
  }

  lemma TypeNameExact(v: Json, name: string)
    ensures TypeName(v) == name <==> HasType(v, name)
  {
    assert "null"[0] == 'n' && "boolean"[0] == 'b' && "string"[0] == 's' && "number"[1] == 'u';
    assert "array"[0] == 'a' && "object"[0] == 'o' && |"null"| == 4 && |"number"| == 6;
  }

  /**
    Asserting at the printed location of a node tests that node: equality is the
    host's equality with the node, the type is the node's, the location exists.
   */
  lemma AssertAtLocation(r: Response, path: Path, node: Json, expected: Json)
    requires WellFormed(r.json) && r.json != Null && IsNode(r.json, path, node)
    requires WildFree(path) && forall i :: 0 <= i < |path| ==> Printable(path[i])
    ensures var config := [Field("path", Str("$" + PrintPath(path))), Field("expected", expected)];
            && Evaluate(Assertion("json_path_equals", config), r).Ok?
            && Evaluate(Assertion("json_path_type", config), r).Ok?
            && Evaluate(Assertion("json_path_exists", config), r).Ok?
            && Evaluate(Assertion("json_path_not_exists", config), r).Ok?
            && Evaluate(Assertion("json_path_equals", config), r).value.passed == PyEq(node, expected)
            && Evaluate(Assertion("json_path_type", config), r).value.passed == (expected.Str? && HasType(node, expected.s))
            && Evaluate(Assertion("json_path_exists", config), r).value.passed
            && !Evaluate(Assertion("json_path_not_exists", config), r).value.passed
  {
    hide Values, PrintPath, PyEq, TypeName, HasType, AtLeast, AtMost, Contains, IsNode;
    LocationRoundTrip(r.json, path, node);
    if expected.Str? {
      TypeNameExact(node, expected.s);
    }
    var config := [Field("path", Str("$" + PrintPath(path))), Field("expected", expected)];
    assert Find(config, "path") == Some(config[0].value);
    assert config[1..] == [config[1]] && Find(config, "expected") == Some(expected);
  }

  // ------------------------------------------------------- what each kind asks

  /** The kinds that can be evaluated, with the three older names. */
  const KINDS: set<string> := {
    "status_code_equals", "business_code_equals", "json_path_equals", "json_path_exists", "json_path_not_exists",
    "json_path_type", "body_contains", "body_not_contains", "number_range", "response_time_less_than",
    "status_code", "business_code", "text_contains"}

  /** Only an unknown kind is unsupported, and an older name means the current one. */
  lemma KindsExact(kind: string, config: Fields, r: Response)
    ensures Evaluate(Assertion(kind, config), r) == Err(KindUnsupported) <==> kind !in KINDS
    ensures Evaluate(Assertion("status_code", config), r) == Evaluate(Assertion("status_code_equals", config), r)
    ensures Evaluate(Assertion("business_code", config), r) == Evaluate(Assertion("business_code_equals", config), r)
    ensures Evaluate(Assertion("text_contains", config), r) == Evaluate(Assertion("body_contains", config), r)
  {
    hide Values, EvaluatePath, Setting, Equals, Contains;
  }

  const TEXT_KINDS: set<string> := {"body_contains", "body_not_contains", "text_contains"}

  const BUSINESS_KINDS: set<string> := {"business_code_equals", "business_code"}

  const PATH_KINDS: set<string> := BUSINESS_KINDS +
    {"json_path_equals", "json_path_exists", "json_path_not_exists", "json_path_type", "number_range"}

  /** A text kind without an expected text, or a path kind whose path is no text or absent without a default. */
  ghost predicate Misconfigured(kind: string, config: Fields) {
    || (kind in TEXT_KINDS && forall s :: Find(config, "expected") != Some(Str(s)))
    || (kind in PATH_KINDS && (forall s :: Find(config, "path") != Some(Str(s))) &&
        (kind in BUSINESS_KINDS ==> Find(config, "path").Some?))
  }

  lemma {:induction false} ConfigInvalidIff(kind: string, config: Fields, r: Response)
    ensures Evaluate(Assertion(kind, config), r) == Err(ConfigInvalid) <==> Misconfigured(kind, config)
    ensures Evaluate(Assertion(kind, config), r) == Err(PathInvalid) <==>
            kind in PATH_KINDS && !Misconfigured(kind, config) &&
            Values(r.json, if Find(config, "path").Some? then Find(config, "path").value.s else "$.code").Err?
  {
    hide Values, EvaluatePath, Equals, Contains, Find;
    var path, expected := Find(config, "path"), Find(config, "expected");
    assert path.Some? && path.value.Str? ==> path == Some(Str(path.value.s));
    assert expected.Some? && expected.value.Str? ==> expected == Some(Str(expected.value.s));
  }

  predicate Passes(kind: string, config: Fields, r: Response) {
    Evaluate(Assertion(kind, config), r).Ok? && Evaluate(Assertion(kind, config), r).value.passed
  }

  /** The status assertion asks for a number, or a boolean standing for one, equal to the status. */
  lemma StatusExact(config: Fields, r: Response)
    ensures Passes("status_code_equals", config, r) <==>
            exists v :: Find(config, "expected") == Some(v) && IsNumber(v) && NumberOf(v) == r.status as real
  {
    hide Find;
  }

  /** The text assertions ask whether the expected text stands somewhere in the body. */
  lemma TextExact(config: Fields, r: Response)
    ensures Passes("body_contains", config, r) <==>
            exists s, before, after :: Find(config, "expected") == Some(Str(s)) && r.text == before + (s + after)
    ensures Passes("body_not_contains", config, r) <==>
            (exists s :: Find(config, "expected") == Some(Str(s))) && !Passes("body_contains", config, r)
  {
    hide Find, Contains;
    var expected := Setting(config, "expected");
    if expected.Str? {
      ContainsExact(r.text, expected.s);
    }
  }

  lemma ContainsExact(text: string, part: string)
    ensures Contains(text, part) <==> exists before, after :: text == before + (part + after)
  {
    if Contains(text, part) {
      var i :| 0 <= i <= |text| && part <= text[i..];
      assert text == text[..i] + (part + text[i..][|part|..]);
    }
    if before, after :| text == before + (part + after) {
      assert text[|before|..] == part + after;
      assert part <= text[|before|..];
    }
  }

  /** The whole number a value stands for; a boolean counts as 0 or 1. */
  ghost predicate IsWhole(v: Json, n: int) {
    v == Int(n) || (v == Bool(n == 1) && n in {0, 1})
  }

  /** The time assertion asks for a whole number, not negative, above the duration. */
  lemma TimeExact(config: Fields, r: Response)
    ensures Passes("response_time_less_than", config, r) <==>
            exists v, n: int :: Find(config, "expected") == Some(v) && IsWhole(v, n) && 0 <= n && r.durationMs < n
  {
    hide Find;
    var v := Setting(config, "expected");
    if Passes("response_time_less_than", config, r) {
      var n := match v case Int(i) => i case Bool(b) => (if b then 1 else 0) case _ => 0;
      assert Find(config, "expected") == Some(v) && IsWhole(v, n) && 0 <= n && r.durationMs < n;
    }
  }

  /** A bound that is absent or null does not bind; one that is no number is never met. */
  ghost predicate WithinBounds(config: Fields, x: real) {
    && (forall v :: Find(config, "min") == Some(v) && v != Null ==> IsNumber(v) && NumberOf(v) <= x)
    && (forall v :: Find(config, "max") == Some(v) && v != Null ==> IsNumber(v) && x <= NumberOf(v))
  }

  /** The range assertion at the printed location of a node asks for a number, not a boolean, within the bounds. */
  lemma {:induction false} RangeAtLocation(r: Response, path: Path, node: Json, config: Fields)
    requires WellFormed(r.json) && r.json != Null && IsNode(r.json, path, node)
    requires WildFree(path) && forall i :: 0 <= i < |path| ==> Printable(path[i])
    requires Find(config, "path") == Some(Str("$" + PrintPath(path)))
    ensures Passes("number_range", config, r) <==>
            (node.Int? || node.Float?) && WithinBounds(config, NumberOf(node))
  {
    hide Values, PrintPath, PyEq, IsNode, Find;
    LocationRoundTrip(r.json, path, node);
  }

  /**
    Without a path the business assertion compares the field `code` of the body; a body
    object without that field passes only for an expected empty list.
   */
  lemma BusinessExact(config: Fields, r: Response)
    requires WellFormed(r.json) && r.json.Obj? && Find(config, "path").None?
    ensures Passes("business_code_equals", config, r) <==>
            match Find(r.json.fields, "code")
            case Some(code) => PyEq(code, Setting(config, "expected"))
            case None => Setting(config, "expected") == Arr([])
  {
    CodePath(r.json);
    BusinessByValues(config, r, Values(r.json, "$.code").value);
    EmptyList(Setting(config, "expected"));
    hide Values, Find, PyEq, Passes, Setting, WellFormed;
  }

  lemma BusinessByValues(config: Fields, r: Response, values: seq<Json>)
    requires Find(config, "path").None? && Values(r.json, "$.code") == Ok(values)
    ensures Passes("business_code_equals", config, r) <==> PyEq(Unwrapped(values), Setting(config, "expected"))
  {
    hide Values, Find, PyEq, AtLeast, AtMost, Unwrapped;
  }

  lemma EmptyList(v: Json)
    ensures PyEq(Arr([]), v) <==> v == Arr([])
  {
  }

  lemma CodePath(v: Json)
    requires v.Obj?
    ensures Values(v, "$.code") == Ok(match Find(v.fields, "code") case Some(code) => [code] case None => [])
  {
    var path := [Name("code")];
    assert path[1..] == [] && IsDotted("code");
    assert PrintPath(path) == ".code";
    TokenizePrinted(path);
    assert "$.code"[1..] == ".code";
    hide Tokenize, PrintPath, IsDotted, Find;
    BindNothing(Select(v, path[0]));
  }

  /** Some instance of the path, with its wildcards replaced by indices, leads to a node. */
  ghost predicate HasNode(v: Json, path: Path) {
    exists p, node :: IsInstance(p, path) && IsNode(v, p, node)
  }

  /** The existence assertions ask whether the path leads to a node at all. */
  lemma {:induction false} ExistsIffNode(r: Response, path: Path, config: Fields)
    requires WellFormed(r.json) && r.json != Null && forall i :: 0 <= i < |path| ==> Printable(path[i])
    requires Find(config, "path") == Some(Str("$" + PrintPath(path)))
    ensures Passes("json_path_exists", config, r) <==> HasNode(r.json, path)
    ensures Passes("json_path_not_exists", config, r) <==> !Passes("json_path_exists", config, r)
  {
    TokenizePrinted(path);
    hide *;
    ValuesOfTokens(r.json, PrintPath(path));
    ExistsByValues(config, r, "$" + PrintPath(path));
    NodeIffValue(r.json, path);
  }

  lemma ExistsByValues(config: Fields, r: Response, path: string)
    requires Find(config, "path") == Some(Str(path)) && Values(r.json, path).Ok?
    ensures Passes("json_path_exists", config, r) <==> Values(r.json, path).value != []
    ensures Passes("json_path_not_exists", config, r) <==> Values(r.json, path).value == []
  {
    hide Values, PyEq, AtLeast, AtMost, Find;
  }

  lemma NodeIffValue(v: Json, path: Path)
    requires WellFormed(v)
    ensures Eval(v, path) != [] <==> HasNode(v, path)
  {
    var places := EvalLocates(v, path);
    if Eval(v, path) != [] {
      NodeExists(v, path, places[0], Eval(v, path)[0]);
    }
  }

  lemma NodeExists(v: Json, path: Path, p: Path, node: Json)
    requires IsInstance(p, path) && IsNode(v, p, node)
    ensures HasNode(v, path)
  {
  }
}
