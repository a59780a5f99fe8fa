/**
  Variable substitution in request templates
  (backend/app/modules/executions/variables.py): the `{{ns.key}}` scanner,
  `resolve_template` and `find_runtime_variables`.
 */
module Templates {
  import opened Wrappers
  import opened Json

  datatype Namespace = Env | Secret | Runtime

  datatype VarRef = VarRef(ns: Namespace, key: string)

  /** The variables a request can read.  A key bound to null counts as undefined. */
  datatype Namespaces = Namespaces(env: map<string, Json>, secret: map<string, Json>, runtime: map<string, Json>)

  /** Operations of the host language that the model leaves uninterpreted. */
  datatype Host = Host(
    repr: Json -> string,                       // str(x) for x not a string
    lower: string -> string,                    // str.lower
    search: (string, string) -> TextMatch)      // re.search(pattern, text)

  datatype TextMatch = InvalidPattern | NoMatch | Match(groups: seq<Option<string>>)

  function PyStr(host: Host, v: Json): string {
    if v.Str? then v.s else host.repr(v)
  }

  // ---------------------------------------------------------------- characters

  predicate IsLetter(c: char) { 'A' <= c <= 'Z' || 'a' <= c <= 'z' || c == '_' }

  predicate IsDigit(c: char) { '0' <= c <= '9' }

  predicate IsIdent(k: string) {
    k != "" && IsLetter(k[0]) && forall i :: 0 <= i < |k| ==> IsLetter(k[i]) || IsDigit(k[i])
  }

  /** Length of the longest prefix made of letters and digits. */
  function WordRun(s: string): (n: nat)
    ensures n <= |s|
    ensures forall i :: 0 <= i < n ==> IsLetter(s[i]) || IsDigit(s[i])
    ensures n < |s| ==> !IsLetter(s[n]) && !IsDigit(s[n])
  {
    if s != "" && (IsLetter(s[0]) || IsDigit(s[0])) then 1 + WordRun(s[1..]) else 0
  }

  // ------------------------------------------------------------------- scanner

  function NsName(ns: Namespace): string {
    match ns case Env => "env" case Secret => "secret" case Runtime => "runtime"
  }

  function Opening(ns: Namespace): string { "{{" + NsName(ns) + "." }

  function Print(ref: VarRef): (text: string)
    ensures text != ""
  {
    Opening(ref.ns) + (ref.key + "}}")
  }

  /** The key at the head of the text, if it is an identifier closed by two braces. */
  function MatchKey(rest: string): Option<string> {
    var n := WordRun(rest);
    if n > 0 && IsLetter(rest[0]) && n + 1 < |rest| && rest[n] == '}' && rest[n + 1] == '}'
    then Some(rest[..n])
    else None
  }

  function MatchIn(s: string, ns: Namespace): (r: Option<(VarRef, nat)>)
    requires Opening(ns) <= s
  {
    match MatchKey(s[|Opening(ns)|..])
    case Some(key) => Some((VarRef(ns, key), |Print(VarRef(ns, key))|))
    case None => None
  }

  /** `_VARIABLE_PATTERN.match(s)`: the variable and the length of its text. */
  function MatchVar(s: string): Option<(VarRef, nat)> {
    if Opening(Env) <= s then MatchIn(s, Env)
    else if Opening(Secret) <= s then MatchIn(s, Secret)
    else if Opening(Runtime) <= s then MatchIn(s, Runtime)
    else None
  }

  datatype Segment = Char(c: char) | Var(ref: VarRef)

  /** Leftmost non-overlapping matches, as `finditer` and `sub` visit them. */
  function Scan(s: string): seq<Segment> {
    if s == "" then []
    else
      var m := MatchVar(s);
      if m.Some? then
        MatchVarIsPrefixTest(s, m.value.0, m.value.1);
        [Var(m.value.0)] + Scan(s[m.value.1..])
      else [Char(s[0])] + Scan(s[1..])
  }

  function Flatten(segments: seq<Segment>): string {
    if segments == [] then ""
    else (match segments[0] case Char(c) => [c] case Var(ref) => Print(ref)) + Flatten(segments[1..])
  }

  function Refs(segments: seq<Segment>): seq<VarRef> {
    if segments == [] then []
    else (match segments[0] case Char(_) => [] case Var(ref) => [ref]) + Refs(segments[1..])
  }

  lemma MatchKeyIsPrefixTest(rest: string, key: string)
    ensures MatchKey(rest) == Some(key) <==> IsIdent(key) && key + "}}" <= rest
  {
    var n := WordRun(rest);
    if MatchKey(rest) == Some(key) {
      assert rest[..n + 2] == key + "}}";
    }
    if IsIdent(key) && key + "}}" <= rest {
      var text, k := key + "}}", |key|;
      assert forall i :: 0 <= i < k + 2 ==> rest[i] == text[i];
      assert rest[k] == text[k] == '}' && rest[k + 1] == text[k + 1] == '}';
      WordRunOf(rest, k);
      assert rest[..k] == key;
    }
  }

  /** A run is as long as the word characters go, and no longer. */
  lemma WordRunOf(s: string, k: nat)
    requires k < |s| && !IsLetter(s[k]) && !IsDigit(s[k])
    requires forall i :: 0 <= i < k ==> IsLetter(s[i]) || IsDigit(s[i])
    ensures WordRun(s) == k
  {
  }

  lemma PrefixJoin(a: string, b: string, s: string)
    requires a <= s
    ensures b <= s[|a|..] <==> a + b <= s
  {
    assert s == a + s[|a|..];
    if a + b <= s {
      assert s[|a|..][..|b|] == s[..|a| + |b|][|a|..] == b;
    }
  }

  lemma PrefixSplit(a: string, b: string, s: string)
    requires a + b <= s
    ensures a <= s
  {
    assert s[..|a|] == (a + b)[..|a|] == a;
  }

  lemma OpeningUnique(s: string, a: Namespace, b: Namespace)
    requires Opening(a) <= s && Opening(b) <= s
    ensures a == b
  {
    var x, y := Opening(a), Opening(b);
    assert x[2] == NsName(a)[0] && y[2] == NsName(b)[0];
    assert s[2] == x[2] && s[2] == y[2];
  }

  /** The scanner recognises a variable exactly where its printed text stands. */
  lemma MatchVarIsPrefixTest(s: string, ref: VarRef, n: nat)
    ensures MatchVar(s) == Some((ref, n)) <==> IsIdent(ref.key) && n == |Print(ref)| && Print(ref) <= s
  {
    hide Opening, MatchKey, IsIdent;
    if Opening(ref.ns) <= s {
      forall ns | Opening(ns) <= s ensures ns == ref.ns {
        OpeningUnique(s, ns, ref.ns);
      }
      MatchKeyIsPrefixTest(s[|Opening(ref.ns)|..], ref.key);
      PrefixJoin(Opening(ref.ns), ref.key + "}}", s);
    } else if Print(ref) <= s {
      PrefixSplit(Opening(ref.ns), ref.key + "}}", s);
    }
  }

  /** Scanning loses nothing: printing the segments gives the text back. */
  lemma {:induction false} FlattenScan(s: string)
    ensures Flatten(Scan(s)) == s
  {
    assert Flatten(Scan("")) == "";
    hide *;
    if s != "" {
      var m := MatchVar(s);
      ScanHead(s);
      if m.Some? {
        var (ref, n) := m.value;
        MatchedText(s, ref, n);
        FlattenScan(s[n..]);
        FlattenOne(Var(ref), Scan(s[n..]));
      } else {
        FlattenScan(s[1..]);
        FlattenOne(Char(s[0]), Scan(s[1..]));
        assert s == [s[0]] + s[1..];
      }
    }
  }

  lemma MatchedText(s: string, ref: VarRef, n: nat)
    requires MatchVar(s) == Some((ref, n))
    ensures 0 < n <= |s| && Print(ref) + s[n..] == s
  {
    MatchVarIsPrefixTest(s, ref, n);
    hide *;
    assert s == s[..n] + s[n..];
  }

  lemma FlattenOne(segment: Segment, rest: seq<Segment>)
    ensures Flatten([segment] + rest) == (match segment case Char(c) => [c] case Var(ref) => Print(ref)) + Flatten(rest)
  {
  }

  // ---------------------------------------------------------------- resolution

  function Bindings(ns: Namespace, spaces: Namespaces): map<string, Json> {
    match ns case Env => spaces.env case Secret => spaces.secret case Runtime => spaces.runtime
  }

  /** `_get_variable`: a key that is absent or bound to null is missing. */
  function Lookup(spaces: Namespaces, ref: VarRef): Option<Json> {
    var m := Bindings(ref.ns, spaces);
    if ref.key in m && m[ref.key] != Null then Some(m[ref.key]) else None
  }

  function Substitute(host: Host, segments: seq<Segment>, spaces: Namespaces): Result<string, VarRef> {
    if segments == [] then Ok("")
    else
      match segments[0]
      case Char(c) =>
        (match Substitute(host, segments[1..], spaces)
         case Ok(text) => Ok([c] + text)
         case Err(ref) => Err(ref))
      case Var(ref) =>
        if Lookup(spaces, ref).None? then Err(ref)
        else
          match Substitute(host, segments[1..], spaces)
          case Ok(text) => Ok(PyStr(host, Lookup(spaces, ref).value) + text)
          case Err(other) => Err(other)
  }

  function ResolveString(host: Host, s: string, spaces: Namespaces): Result<Json, VarRef> {
    var m := MatchVar(s);
    if m.Some? && m.value.1 == |s| then
      // A template that is one variable keeps the type of the value.
      match Lookup(spaces, m.value.0)
      case Some(value) => Ok(value)
      case None => Err(m.value.0)
    else
      match Substitute(host, Scan(s), spaces)
      case Ok(text) => Ok(Str(text))
      case Err(ref) => Err(ref)
  }

  /** `resolve_template`; Err carries the first variable found missing. */
  function Resolve(host: Host, v: Json, spaces: Namespaces): Result<Json, VarRef>
    decreases v, 1
  {
    match v
    case Arr(items) =>
      (match ResolveItems(host, items, spaces) case Ok(r) => Ok(Arr(r)) case Err(ref) => Err(ref))
    case Obj(fields) =>
      (match ResolveFields(host, fields, spaces) case Ok(r) => Ok(Obj(r)) case Err(ref) => Err(ref))
    case Str(s) => ResolveString(host, s, spaces)
    case _ => Ok(v)
  }

  function ResolveItems(host: Host, items: seq<Json>, spaces: Namespaces): Result<seq<Json>, VarRef>
    decreases items, 0
  {
    if items == [] then Ok([])
    else
      match Resolve(host, items[0], spaces)
      case Err(ref) => Err(ref)
      case Ok(first) =>
        match ResolveItems(host, items[1..], spaces)
        case Ok(rest) => Ok([first] + rest)
        case Err(ref) => Err(ref)
  }

  function ResolveFields(host: Host, fields: Fields, spaces: Namespaces): Result<Fields, VarRef>
    decreases fields, 0
  {
    if fields == [] then Ok([])
    else
      match Resolve(host, fields[0].value, spaces)
      case Err(ref) => Err(ref)
      case Ok(first) =>
        match ResolveFields(host, fields[1..], spaces)
        case Ok(rest) => Ok([Field(fields[0].key, first)] + rest)
        case Err(ref) => Err(ref)
  }

  /** `find_runtime_variables`. */
  function FindRuntimeVariables(v: Json): set<string>
    decreases v, 1
  {
    match v
    case Arr(items) => RuntimeOfItems(items)
    case Obj(fields) => RuntimeOfFields(fields)
    case Str(s) => RuntimeKeys(Refs(Scan(s)))
    case _ => {}
  }

  function RuntimeOfItems(items: seq<Json>): set<string>
    decreases items, 0
  {
    if items == [] then {} else FindRuntimeVariables(items[0]) + RuntimeOfItems(items[1..])
  }

  function RuntimeOfFields(fields: Fields): set<string>
    decreases fields, 0
  {
    if fields == [] then {} else FindRuntimeVariables(fields[0].value) + RuntimeOfFields(fields[1..])
  }

  function RuntimeKeys(refs: seq<VarRef>): set<string> {
    set ref | ref in refs && ref.ns == Runtime :: ref.key
  }

  // ------------------------------------- the reference: which variables occur

  /** Every variable occurrence, in the order resolution meets them. */
  function Occurs(v: Json): seq<VarRef>
    decreases v, 1
  {
    match v
    case Arr(items) => OccursInItems(items)
    case Obj(fields) => OccursInFields(fields)
    case Str(s) => Refs(Scan(s))
    case _ => []
  }

  function OccursInItems(items: seq<Json>): seq<VarRef>
    decreases items, 0
  {
    if items == [] then [] else Occurs(items[0]) + OccursInItems(items[1..])
  }

  function OccursInFields(fields: Fields): seq<VarRef>
    decreases fields, 0
  {
    if fields == [] then [] else Occurs(fields[0].value) + OccursInFields(fields[1..])
  }

  /** The first occurrence that has no value, if there is one. */
  function FirstMissing(refs: seq<VarRef>, spaces: Namespaces): (r: Option<VarRef>)
    ensures r.None? <==> forall ref :: ref in refs ==> Lookup(spaces, ref).Some?
    ensures r.Some? ==> r.value in refs && Lookup(spaces, r.value).None?
  {
    if refs == [] then None
    else if Lookup(spaces, refs[0]).None? then Some(refs[0])
    else FirstMissing(refs[1..], spaces)
  }

  lemma {:induction false} FirstMissingConcat(a: seq<VarRef>, b: seq<VarRef>, spaces: Namespaces)
    ensures FirstMissing(a + b, spaces) ==
            if FirstMissing(a, spaces).Some? then FirstMissing(a, spaces) else FirstMissing(b, spaces)
  {
    if a == [] {
      assert a + b == b;
    } else {
      assert (a + b)[1..] == a[1..] + b;
      FirstMissingConcat(a[1..], b, spaces);
    }
  }

  /** The outcome of a resolution, judged against the occurrences alone. */
  ghost predicate Judged<T>(r: Result<T, VarRef>, refs: seq<VarRef>, spaces: Namespaces) {
    (r.Ok? <==> FirstMissing(refs, spaces).None?) &&
    (r.Err? ==> FirstMissing(refs, spaces) == Some(r.error))
  }

  lemma {:induction false} SubstituteJudged(host: Host, segments: seq<Segment>, spaces: Namespaces)
    ensures Judged(Substitute(host, segments, spaces), Refs(segments), spaces)
  {
    if segments != [] {
      SubstituteJudged(host, segments[1..], spaces);
      if segments[0].Var? {
        assert Refs(segments)[1..] == Refs(segments[1..]);
      } else {
        assert Refs(segments) == Refs(segments[1..]);
      }
    }
  }

  lemma FullMatchScan(s: string, ref: VarRef)
    requires MatchVar(s) == Some((ref, |s|))
    ensures Scan(s) == [Var(ref)] && Refs(Scan(s)) == [ref]
  {
    assert s[|s|..] == "";
  }

  /**
    Exactness: a template resolves exactly when every variable occurring in it has
    a non-null value, and otherwise the reported variable is the first missing one.
   */
  lemma {:induction false} ResolveExact(host: Host, v: Json, spaces: Namespaces)
    ensures Resolve(host, v, spaces).Ok? <==> forall ref :: ref in Occurs(v) ==> Lookup(spaces, ref).Some?
    ensures Resolve(host, v, spaces).Err? ==>
              FirstMissing(Occurs(v), spaces) == Some(Resolve(host, v, spaces).error)
    decreases v, 1
  {
    match v
    case Arr(items) => ResolveItemsJudged(host, items, spaces);
    case Obj(fields) => ResolveFieldsJudged(host, fields, spaces);
    case Str(s) =>
      SubstituteJudged(host, Scan(s), spaces);
      var m := MatchVar(s);
      if m.Some? && m.value.1 == |s| {
        FullMatchScan(s, m.value.0);
      }
    case _ =>
  }

  lemma {:induction false} ResolveItemsJudged(host: Host, items: seq<Json>, spaces: Namespaces)
    ensures Judged(ResolveItems(host, items, spaces), OccursInItems(items), spaces)
    decreases items, 0
  {
    if items != [] {
      ResolveExact(host, items[0], spaces);
      ResolveItemsJudged(host, items[1..], spaces);
      FirstMissingConcat(Occurs(items[0]), OccursInItems(items[1..]), spaces);
    }
  }

  lemma {:induction false} ResolveFieldsJudged(host: Host, fields: Fields, spaces: Namespaces)
    ensures Judged(ResolveFields(host, fields, spaces), OccursInFields(fields), spaces)
    decreases fields, 0
  {
    if fields != [] {
      ResolveExact(host, fields[0].value, spaces);
      ResolveFieldsJudged(host, fields[1..], spaces);
      FirstMissingConcat(Occurs(fields[0].value), OccursInFields(fields[1..]), spaces);
    }
  }

  /** `find_runtime_variables` returns exactly the runtime keys that resolution reads. */
  lemma {:induction false} FindRuntimeExact(v: Json)
    ensures FindRuntimeVariables(v) == RuntimeKeys(Occurs(v))
    decreases v, 1
  {
    match v
    case Arr(items) => RuntimeOfItemsExact(items);
    case Obj(fields) => RuntimeOfFieldsExact(fields);
    case _ =>
  }

  lemma {:induction false} RuntimeOfItemsExact(items: seq<Json>)
    ensures RuntimeOfItems(items) == RuntimeKeys(OccursInItems(items))
    decreases items, 0
  {
    if items != [] {
      FindRuntimeExact(items[0]);
      RuntimeOfItemsExact(items[1..]);
    }
  }

  lemma {:induction false} RuntimeOfFieldsExact(fields: Fields)
    ensures RuntimeOfFields(fields) == RuntimeKeys(OccursInFields(fields))
    decreases fields, 0
  {
    if fields != [] {
      FindRuntimeExact(fields[0].value);
      RuntimeOfFieldsExact(fields[1..]);
    }
  }

  // --------------------------------------------------------------- coincidence

  ghost predicate Agree(refs: seq<VarRef>, a: Namespaces, b: Namespaces) {
    forall ref :: ref in refs ==> Lookup(a, ref) == Lookup(b, ref)
  }

  /**
    Coincidence: the result depends on nothing but the variables occurring in the
    template.  In particular a variable named inside an inserted value is not read.
   */
  lemma {:induction false} Coincidence(host: Host, v: Json, a: Namespaces, b: Namespaces)
    requires Agree(Occurs(v), a, b)
    ensures Resolve(host, v, a) == Resolve(host, v, b)
    decreases v, 1
  {
    match v
    case Arr(items) => CoincidenceItems(host, items, a, b);
    case Obj(fields) => CoincidenceFields(host, fields, a, b);
    case Str(s) =>
      CoincidenceSegments(host, Scan(s), a, b);
      var m := MatchVar(s);
      if m.Some? && m.value.1 == |s| {
        FullMatchScan(s, m.value.0);
      }
    case _ =>
  }

  lemma {:induction false} CoincidenceSegments(host: Host, segments: seq<Segment>, a: Namespaces, b: Namespaces)
    requires Agree(Refs(segments), a, b)
    ensures Substitute(host, segments, a) == Substitute(host, segments, b)
  {
    if segments != [] {
      assert forall ref :: ref in Refs(segments[1..]) ==> ref in Refs(segments);
      CoincidenceSegments(host, segments[1..], a, b);
      assert segments[0].Var? ==> segments[0].ref in Refs(segments);
    }
  }

  lemma {:induction false} CoincidenceItems(host: Host, items: seq<Json>, a: Namespaces, b: Namespaces)
    requires Agree(OccursInItems(items), a, b)
    ensures ResolveItems(host, items, a) == ResolveItems(host, items, b)
    decreases items, 0
  {
    if items != [] {
      Coincidence(host, items[0], a, b);
      CoincidenceItems(host, items[1..], a, b);
    }
  }

  lemma {:induction false} CoincidenceFields(host: Host, fields: Fields, a: Namespaces, b: Namespaces)
    requires Agree(OccursInFields(fields), a, b)
    ensures ResolveFields(host, fields, a) == ResolveFields(host, fields, b)
    decreases fields, 0
  {
    if fields != [] {
      Coincidence(host, fields[0].value, a, b);
      CoincidenceFields(host, fields[1..], a, b);
    }
  }

  /** Binding more runtime keys never changes a template that already resolves. */
  lemma GrowingRuntimeIsStable(host: Host, v: Json, spaces: Namespaces, more: map<string, Json>)
    requires Resolve(host, v, spaces).Ok?
    requires forall k :: k in spaces.runtime ==> k in more && more[k] == spaces.runtime[k]
    ensures Resolve(host, v, spaces.(runtime := more)) == Resolve(host, v, spaces)
  {
    ResolveExact(host, v, spaces);
    Coincidence(host, v, spaces, spaces.(runtime := more));
  }

  // ----------------------------------------------------------- the round trip

  /** Every occurring variable is bound to its own text. */
  ghost predicate SelfBound(refs: seq<VarRef>, spaces: Namespaces) {
    forall ref :: ref in refs ==> Lookup(spaces, ref) == Some(Str(Print(ref)))
  }

  /**
    Substitution is single-pass: with each variable bound to its own `{{ns.key}}`
    text, resolution is the identity on every JSON template.
   */
  lemma {:induction false} SelfBindingIsIdentity(host: Host, v: Json, spaces: Namespaces)
    requires SelfBound(Occurs(v), spaces)
    ensures Resolve(host, v, spaces) == Ok(v)
    decreases v, 1
  {
    match v
    case Arr(items) => SelfBindingItems(host, items, spaces);
    case Obj(fields) => SelfBindingFields(host, fields, spaces);
    case Str(s) =>
      SelfBindingSegments(host, Scan(s), spaces);
      FlattenScan(s);
      var m := MatchVar(s);
      if m.Some? && m.value.1 == |s| {
        FullMatchScan(s, m.value.0);
        MatchVarIsPrefixTest(s, m.value.0, m.value.1);
        assert Print(m.value.0) == s;
      }
    case _ =>
  }

  lemma {:induction false} SelfBindingSegments(host: Host, segments: seq<Segment>, spaces: Namespaces)
    requires SelfBound(Refs(segments), spaces)
    ensures Substitute(host, segments, spaces) == Ok(Flatten(segments))
  {
    if segments != [] {
      assert forall ref :: ref in Refs(segments[1..]) ==> ref in Refs(segments);
      SelfBindingSegments(host, segments[1..], spaces);
      assert segments[0].Var? ==> segments[0].ref in Refs(segments);
    }
  }

  lemma {:induction false} SelfBindingItems(host: Host, items: seq<Json>, spaces: Namespaces)
    requires SelfBound(OccursInItems(items), spaces)
    ensures ResolveItems(host, items, spaces) == Ok(items)
    decreases items, 0
  {
    if items != [] {
      SelfBindingIsIdentity(host, items[0], spaces);
      SelfBindingItems(host, items[1..], spaces);
      assert items == [items[0]] + items[1..];
    }
  }

  lemma {:induction false} SelfBindingFields(host: Host, fields: Fields, spaces: Namespaces)
    requires SelfBound(OccursInFields(fields), spaces)
    ensures ResolveFields(host, fields, spaces) == Ok(fields)
    decreases fields, 0
  {
    if fields != [] {
      SelfBindingIsIdentity(host, fields[0].value, spaces);
      SelfBindingFields(host, fields[1..], spaces);
      assert fields == [fields[0]] + fields[1..];
    }
  }

  lemma {:induction false} SubstituteConcat(host: Host, a: seq<Segment>, b: seq<Segment>, spaces: Namespaces)
    requires Substitute(host, a + b, spaces).Ok?
    ensures Substitute(host, a, spaces).Ok? && Substitute(host, b, spaces).Ok?
    ensures Substitute(host, a + b, spaces).value == Substitute(host, a, spaces).value + Substitute(host, b, spaces).value
  {
    if a == [] {
      assert a + b == b;
    } else {
      assert (a + b)[1..] == a[1..] + b;
      SubstituteConcat(host, a[1..], b, spaces);
    }
  }

  lemma ScanHead(s: string)
    requires s != ""
    ensures MatchVar(s).Some? ==>
              var (ref, n) := MatchVar(s).value; n <= |s| && Scan(s) == [Var(ref)] + Scan(s[n..])
    ensures MatchVar(s).None? ==> Scan(s) == [Char(s[0])] + Scan(s[1..])
  {
    if MatchVar(s).Some? {
      MatchVarIsPrefixTest(s, MatchVar(s).value.0, MatchVar(s).value.1);
    }
    hide MatchVar, Print;
  }

  lemma ScanNonEmpty(s: string)
    requires s != ""
    ensures Scan(s) != []
  {
    ScanHead(s);
  }

  /** A template is one variable exactly when its scan is. */
  lemma {:induction false} WholeMatchIff(s: string, ref: VarRef)
    ensures MatchVar(s) == Some((ref, |s|)) <==> Scan(s) == [Var(ref)]
  {
    assert Scan("") == [];
    hide *;
    if MatchVar(s) == Some((ref, |s|)) {
      FullMatchScan(s, ref);
    }
    if Scan(s) == [Var(ref)] {
      ScanHead(s);
      var m := MatchVar(s);
      assert Scan(s)[0] == Var(ref) && Scan(s)[1..] == [];
      if m.Some? && m.value.1 < |s| {
        ScanNonEmpty(s[m.value.1..]);
      }
    }
  }

  /**
    An inserted value reaches the output verbatim, wherever it stands and whatever it
    contains: the output is what the text before gives, the value's own text, and what
    the text after gives.  Alone, the value keeps its type.
   */
  lemma InsertedVerbatim(host: Host, s: string, i: nat, spaces: Namespaces)
    requires i < |Scan(s)| && Scan(s)[i].Var? && Resolve(host, Str(s), spaces).Ok?
    ensures Lookup(spaces, Scan(s)[i].ref).Some?
    ensures |Scan(s)| == 1 ==> Resolve(host, Str(s), spaces) == Ok(Lookup(spaces, Scan(s)[i].ref).value)
    ensures |Scan(s)| > 1 ==>
              var before, after := Substitute(host, Scan(s)[..i], spaces), Substitute(host, Scan(s)[i + 1..], spaces);
              && before.Ok? && after.Ok?
              && Resolve(host, Str(s), spaces) ==
                 Ok(Str(before.value + (PyStr(host, Lookup(spaces, Scan(s)[i].ref).value) + after.value)))
  {
    var segments := Scan(s);
    if |segments| == 1 {
      assert segments == [Var(segments[i].ref)];
      WholeMatchIff(s, segments[i].ref);
      hide Scan, MatchVar;
    } else {
      SubstitutedWhole(host, s, spaces);
      hide *;
      SubstitutedAround(host, segments, i, spaces);
    }
  }

  lemma {:induction false} SubstitutedAround(host: Host, segments: seq<Segment>, i: nat, spaces: Namespaces)
    requires i < |segments| && segments[i].Var? && Substitute(host, segments, spaces).Ok?
    ensures Lookup(spaces, segments[i].ref).Some?
    ensures var before, after := Substitute(host, segments[..i], spaces), Substitute(host, segments[i + 1..], spaces);
            && before.Ok? && after.Ok?
            && Substitute(host, segments, spaces).value ==
               before.value + (PyStr(host, Lookup(spaces, segments[i].ref).value) + after.value)
  {
    hide Lookup, PyStr;
    var tail := [segments[i]] + segments[i + 1..];
    assert segments == segments[..i] + tail;
    SubstituteConcat(host, segments[..i], tail, spaces);
    assert tail[1..] == segments[i + 1..] && tail[0] == segments[i];
  }

  /** A template of more than one segment resolves to the text its segments give. */
  lemma SubstitutedWhole(host: Host, s: string, spaces: Namespaces)
    requires |Scan(s)| > 1 && Resolve(host, Str(s), spaces).Ok?
    ensures Substitute(host, Scan(s), spaces).Ok?
    ensures Resolve(host, Str(s), spaces) == Ok(Str(Substitute(host, Scan(s), spaces).value))
  {
    var m := MatchVar(s);
    if m.Some? {
      WholeMatchIff(s, m.value.0);
    }
    hide Scan, Substitute, Lookup;
  }

  lemma {:induction false} PrintedResolves(host: Host, ref: VarRef, spaces: Namespaces)
    requires IsIdent(ref.key)
    ensures Resolve(host, Str(Print(ref)), spaces) == match Lookup(spaces, ref) case Some(v) => Ok(v) case None => Err(ref)
  {
    MatchVarIsPrefixTest(Print(ref), ref, |Print(ref)|);
    hide Print, MatchVar, Scan, Lookup;
  }

  ghost function Named(m: map<string, Json>, ref: VarRef): Result<Json, VarRef> {
    if ref.key in m && m[ref.key] != Null then Ok(m[ref.key]) else Err(ref)
  }

  /** How the three namespaces are written, and where each is looked up. */
  lemma NamespaceTexts(host: Host, key: string, spaces: Namespaces)
    requires IsIdent(key)
    ensures Resolve(host, Str("{{env." + key + "}}"), spaces) == Named(spaces.env, VarRef(Env, key))
    ensures Resolve(host, Str("{{secret." + key + "}}"), spaces) == Named(spaces.secret, VarRef(Secret, key))
    ensures Resolve(host, Str("{{runtime." + key + "}}"), spaces) == Named(spaces.runtime, VarRef(Runtime, key))
  {
    hide Resolve, IsIdent;
    PrintedResolves(host, VarRef(Env, key), spaces);
    PrintedResolves(host, VarRef(Secret, key), spaces);
    PrintedResolves(host, VarRef(Runtime, key), spaces);
    assert Print(VarRef(Env, key)) == "{{env." + key + "}}";
    assert Print(VarRef(Secret, key)) == "{{secret." + key + "}}";
    assert Print(VarRef(Runtime, key)) == "{{runtime." + key + "}}";
  }

  // ------------------------------------------------------------- by location

  /** The node reached by following positions into arrays and objects. */
  function Node(v: Json, path: seq<nat>): Option<Json>
    decreases |path|
  {
    if path == [] then Some(v)
    else if v.Arr? && path[0] < |v.items| then Node(v.items[path[0]], path[1..])
    else if v.Obj? && path[0] < |v.fields| then Node(v.fields[path[0]].value, path[1..])
    else None
  }

  lemma {:induction false} ResolveItemsAt(host: Host, items: seq<Json>, spaces: Namespaces)
    requires ResolveItems(host, items, spaces).Ok?
    ensures |ResolveItems(host, items, spaces).value| == |items|
    ensures forall i :: 0 <= i < |items| ==>
              Resolve(host, items[i], spaces) == Ok(ResolveItems(host, items, spaces).value[i])
  {
    hide Resolve;
    if items != [] {
      ResolveItemsAt(host, items[1..], spaces);
      assert forall i :: 0 < i < |items| ==> items[i] == items[1..][i - 1];
    }
  }

  lemma {:induction false} ResolveFieldsAt(host: Host, fields: Fields, spaces: Namespaces)
    requires ResolveFields(host, fields, spaces).Ok?
    ensures |ResolveFields(host, fields, spaces).value| == |fields|
    ensures forall i :: 0 <= i < |fields| ==>
              && ResolveFields(host, fields, spaces).value[i].key == fields[i].key
              && Resolve(host, fields[i].value, spaces) == Ok(ResolveFields(host, fields, spaces).value[i].value)
  {
    hide Resolve;
    if fields != [] {
      ResolveFieldsAt(host, fields[1..], spaces);
      assert forall i :: 0 < i < |fields| ==> fields[i] == fields[1..][i - 1];
    }
  }

  /** The text a segment contributes; a value that is not a string is spelled by the host. */
  ghost predicate Spells(host: Host, segment: Segment, spaces: Namespaces, piece: string) {
    match segment
    case Char(c) => piece == [c]
    case Var(ref) =>
      match Lookup(spaces, ref)
      case Some(Str(text)) => piece == text
      case Some(value) => piece == host.repr(value)
      case None => false
  }

  function Joined(pieces: seq<string>): string {
    if pieces == [] then "" else pieces[0] + Joined(pieces[1..])
  }

  ghost predicate SpelledBy(host: Host, segments: seq<Segment>, spaces: Namespaces, pieces: seq<string>) {
    |pieces| == |segments| && forall k :: 0 <= k < |segments| ==> Spells(host, segments[k], spaces, pieces[k])
  }

  /**
    What a string of the template has become: the value itself if the string is one
    variable, else the text of its segments, each variable replaced by its value's text.
   */
  ghost predicate Inserted(host: Host, s: string, spaces: Namespaces, result: Json) {
    if |Scan(s)| == 1 && Scan(s)[0].Var? then Lookup(spaces, Scan(s)[0].ref) == Some(result)
    else exists pieces :: SpelledBy(host, Scan(s), spaces, pieces) && result == Str(Joined(pieces))
  }

  /** What stands where a node of the template stood. */
  ghost predicate Becomes(host: Host, node: Json, spaces: Namespaces, result: Json) {
    match node
    case Str(s) => Inserted(host, s, spaces, result)
    case Arr(items) => result.Arr? && |result.items| == |items|
    case Obj(fields) => result.Obj? && |result.fields| == |fields| &&
                        forall i :: 0 <= i < |fields| ==> result.fields[i].key == fields[i].key
    case _ => result == node
  }

  lemma {:induction false} SubstituteSpells(host: Host, segments: seq<Segment>, spaces: Namespaces)
    returns (pieces: seq<string>)
    requires Substitute(host, segments, spaces).Ok?
    ensures SpelledBy(host, segments, spaces, pieces) && Substitute(host, segments, spaces).value == Joined(pieces)
  {
    hide Lookup;
    if segments == [] {
      pieces := [];
    } else {
      var rest := SubstituteSpells(host, segments[1..], spaces);
      var piece := match segments[0] case Char(c) => [c] case Var(ref) => PyStr(host, Lookup(spaces, ref).value);
      pieces := [piece] + rest;
      assert pieces[1..] == rest && Spells(host, segments[0], spaces, piece);
      assert forall k :: 0 < k < |segments| ==> segments[k] == segments[1..][k - 1];
    }
  }

  lemma StringBecomes(host: Host, s: string, spaces: Namespaces)
    requires Resolve(host, Str(s), spaces).Ok?
    ensures Inserted(host, s, spaces, Resolve(host, Str(s), spaces).value)
  {
    var m := MatchVar(s);
    if m.Some? {
      WholeMatchIff(s, m.value.0);
    }
    if |Scan(s)| == 1 && Scan(s)[0].Var? {
      assert Scan(s) == [Var(Scan(s)[0].ref)];
      WholeMatchIff(s, Scan(s)[0].ref);
    } else {
      hide Scan, Lookup, Substitute, MatchVar, SpelledBy, Joined;
      var pieces := SubstituteSpells(host, Scan(s), spaces);
    }
  }

  /**
    Resolution by location: every node of the template has its counterpart at the same
    place of the result.  Objects keep their keys in order, arrays their length, strings
    take their values in, every other scalar stays.
   */
  lemma {:induction false} ResolvedAt(host: Host, v: Json, spaces: Namespaces, path: seq<nat>)
    requires Resolve(host, v, spaces).Ok? && Node(v, path).Some?
    ensures Node(Resolve(host, v, spaces).value, path).Some?
    ensures Becomes(host, Node(v, path).value, spaces, Node(Resolve(host, v, spaces).value, path).value)
    decreases |path|
  {
    hide Inserted;
    match v {
      case Arr(items) => ResolveItemsAt(host, items, spaces);
      case Obj(fields) => ResolveFieldsAt(host, fields, spaces);
      case Str(s) => StringBecomes(host, s, spaces);
      case _ =>
    }
    if path != [] {
      hide Resolve, Becomes;
      ResolvedAt(host, if v.Arr? then v.items[path[0]] else v.fields[path[0]].value, spaces, path[1..]);
    }
  }
}
