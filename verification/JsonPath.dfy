/**
  The restricted JSONPath language of
  backend/app/modules/executions/assertion_engine.py (`_JSON_PATH_TOKEN` and
  `_json_path_values`): name selectors, non-negative indices and an array-only
  wildcard, the subset of RFC 9535 sections 2.3.1 to 2.3.3 the platform accepts.
 */
module JsonPath {
  import opened Wrappers
  import opened Json
  import opened Templates

  datatype Token = Name(key: string) | Index(i: nat) | Wild

  datatype PathError = InvalidPath

  type Path = seq<Token>

  // ----------------------------------------------------------------- tokenizer

  predicate IsKeyChar(c: char) { IsLetter(c) || IsDigit(c) || c == '-' }

  predicate IsQuote(c: char) { c == '\'' || c == '"' }

  /** Keys that the dotted form can write. */
  predicate IsDotted(k: string) {
    k != "" && IsLetter(k[0]) && forall i :: 0 <= i < |k| ==> IsKeyChar(k[i])
  }

  function KeyRun(s: string): (n: nat)
    ensures n <= |s|
    ensures forall i :: 0 <= i < n ==> IsKeyChar(s[i])
    ensures n < |s| ==> !IsKeyChar(s[n])
  {
    if s != "" && IsKeyChar(s[0]) then 1 + KeyRun(s[1..]) else 0
  }

  function DigitRun(s: string): (n: nat)
    ensures n <= |s|
    ensures forall i :: 0 <= i < n ==> IsDigit(s[i])
    ensures n < |s| ==> !IsDigit(s[n])
  {
    if s != "" && IsDigit(s[0]) then 1 + DigitRun(s[1..]) else 0
  }

  function UnquotedRun(s: string): (n: nat)
    ensures n <= |s|
    ensures forall i :: 0 <= i < n ==> !IsQuote(s[i])
    ensures n < |s| ==> IsQuote(s[n])
  {
    if s != "" && !IsQuote(s[0]) then 1 + UnquotedRun(s[1..]) else 0
  }

  /** `int(digits)`. */
  function ParseNat(digits: string): nat
    requires forall i :: 0 <= i < |digits| ==> IsDigit(digits[i])
  {
    if digits == "" then 0
    else
      assert IsDigit(digits[|digits| - 1]);
      ParseNat(digits[..|digits| - 1]) * 10 + (digits[|digits| - 1] as int - '0' as int)
  }

  /** `.key`, after the dot. */
  function MatchDotted(s: string): Option<(Token, nat)> {
    var n := KeyRun(s);
    if n > 0 && IsLetter(s[0]) then Some((Name(s[..n]), 1 + n)) else None
  }

  /** `['key']`, after the first quote; the two quotes need not be alike. */
  function MatchQuoted(s: string): Option<(Token, nat)> {
    var n := UnquotedRun(s);
    if n > 0 && n + 1 < |s| && s[n + 1] == ']' then Some((Name(s[..n]), 4 + n)) else None
  }

  /** `[index]`, after the bracket. */
  function MatchIndex(s: string): Option<(Token, nat)> {
    var n := DigitRun(s);
    if n > 0 && n < |s| && s[n] == ']' then Some((Index(ParseNat(s[..n])), 2 + n)) else None
  }

  /** `_JSON_PATH_TOKEN.match`: the token at the head of the text, and its length. */
  function MatchToken(p: string): (r: Option<(Token, nat)>)
    ensures r.Some? ==> 0 < r.value.1 <= |p|
  {
    if |p| < 2 then None
    else if p[0] == '.' then MatchDotted(p[1..])
    else if p[0] != '[' then None
    else if p[1] == '*' then (if |p| > 2 && p[2] == ']' then Some((Wild, 3)) else None)
    else if IsQuote(p[1]) then MatchQuoted(p[2..])
    else MatchIndex(p[1..])
  }

  function Tokenize(p: string): Result<Path, PathError> {
    if p == "" then Ok([])
    else
      var m := MatchToken(p);
      if m.None? then Err(InvalidPath)
      else
        match Tokenize(p[m.value.1..])
        case Ok(rest) => Ok([m.value.0] + rest)
        case Err(e) => Err(e)
  }

  // ----------------------------------------------------------------- semantics

  /** The values one token selects from one value, in document order. */
  function Select(v: Json, t: Token): seq<Json> {
    match t
    case Name(k) => if v.Obj? && Find(v.fields, k).Some? then [Find(v.fields, k).value] else []
    case Index(i) => if v.Arr? && i < |v.items| then [v.items[i]] else []
    case Wild => if v.Arr? then v.items else []
  }

  /** List-bind semantics of a token list: each selected value is explored in turn. */
  function Eval(v: Json, path: Path): seq<Json>
    decreases |path|, 0, 0
  {
    if path == [] then [v] else Bind(Select(v, path[0]), path[1..])
  }

  function Bind(vs: seq<Json>, path: Path): seq<Json>
    decreases |path|, 1, |vs|
  {
    if vs == [] then [] else Eval(vs[0], path) + Bind(vs[1..], path)
  }

  /** What `_json_path_values` returns or raises. */
  function Values(v: Json, path: string): Result<seq<Json>, PathError> {
    if v.Null? || !("$" <= path) then Ok([])
    else
      match Tokenize(path[1..])
      case Ok(tokens) => Ok(Eval(v, tokens))
      case Err(e) => Err(e)
  }

  lemma {:induction false} BindConcat(a: seq<Json>, b: seq<Json>, path: Path)
    ensures Bind(a + b, path) == Bind(a, path) + Bind(b, path)
  {
    if a == [] {
      assert a + b == b;
    } else {
      assert (a + b)[1..] == a[1..] + b;
      BindConcat(a[1..], b, path);
    }
  }

  lemma {:induction false} BindNothing(vs: seq<Json>)
    ensures Bind(vs, []) == vs
  {
    if vs != [] {
      BindNothing(vs[1..]);
      assert vs == [vs[0]] + vs[1..];
    }
  }

  /** One round of the frontier is one step of the bind semantics. */
  lemma {:induction false} BindStep(vs: seq<Json>, path: Path)
    requires path != []
    ensures Bind(vs, path) == Bind(Bind(vs, path[..1]), path[1..])
  {
    if vs != [] {
      BindStep(vs[1..], path);
      var head := Select(vs[0], path[0]);
      assert path[..1][0] == path[0] && path[..1][1..] == [];
      BindNothing(head);
      assert Eval(vs[0], path[..1]) == head;
      BindConcat(head, Bind(vs[1..], path[..1]), path[1..]);
    }
  }

  lemma BindOne(v: Json, path: Path)
    ensures Bind([v], path) == Eval(v, path)
  {
  }

  /** What remains to be done from an offset of the path, given the frontier there. */
  ghost predicate Continues(v: Json, path: string, current: seq<Json>, rest: string) {
    match Tokenize(rest)
    case Ok(tokens) => Values(v, path) == Ok(Bind(current, tokens))
    case Err(e) => Values(v, path) == Err(e)
  }

  lemma FrontierStep(v: Json, path: string, current: seq<Json>, rest: string)
    requires Continues(v, path, current, rest) && MatchToken(rest).Some?
    ensures var (token, length) := MatchToken(rest).value;
            Continues(v, path, Bind(current, [token]), rest[length..])
  {
    var (token, length) := MatchToken(rest).value;
    if Tokenize(rest[length..]).Ok? {
      var tokens := [token] + Tokenize(rest[length..]).value;
      assert Tokenize(rest) == Ok(tokens);
      assert tokens[..1] == [token] && tokens[1..] == Tokenize(rest[length..]).value;
      BindStep(current, tokens);
    }
  }

  lemma BindSnoc(vs: seq<Json>, x: Json, token: Token)
    ensures Bind(vs + [x], [token]) == Bind(vs, [token]) + Select(x, token)
  {
    BindConcat(vs, [x], [token]);
    BindOne(x, [token]);
    assert [token][1..] == [];
    BindNothing(Select(x, token));
  }

  lemma StartFrontier(v: Json, path: string)
    requires v != Null && "$" <= path
    ensures Continues(v, path, [v], path[1..])
  {
    if Tokenize(path[1..]).Ok? {
      BindOne(v, Tokenize(path[1..]).value);
    }
  }

  lemma BadToken(v: Json, path: string, current: seq<Json>, rest: string)
    requires Continues(v, path, current, rest) && rest != "" && MatchToken(rest).None?
    ensures Values(v, path) == Err(InvalidPath)
  {
  }

  lemma EndFrontier(v: Json, path: string, current: seq<Json>)
    requires Continues(v, path, current, "")
    ensures Values(v, path) == Ok(current)
  {
    BindNothing(current);
  }

  /** The inner loop: every value of the frontier contributes what the token selects. */
  method NextFrontier(current: seq<Json>, token: Token) returns (next: seq<Json>)
    ensures next == Bind(current, [token])
  {
    next := [];
    for k := 0 to |current|
      invariant next == Bind(current[..k], [token])
    {
      assert current[..k + 1] == current[..k] + [current[k]];
      BindSnoc(current[..k], current[k], token);
      next := next + Select(current[k], token);
    }
    assert current[..|current|] == current;
  }

  /**
    The loop of `_json_path_values`, which tokenizes and evaluates at once and keeps
    a frontier of values, computes the bind semantics of the token list.
   */
  method JsonPathValues(v: Json, path: string) returns (r: Result<seq<Json>, PathError>)
    ensures r == Values(v, path)
  {
    hide MatchToken, Tokenize, Bind, Continues;
    if v.Null? || !("$" <= path) {
      return Ok([]);
    }
    var current := [v];
    var offset := 1;
    StartFrontier(v, path);
    while offset < |path|
      invariant 1 <= offset <= |path|
      invariant Continues(v, path, current, path[offset..])
    {
      var rest := path[offset..];
      var m := MatchToken(rest);
      if m.None? {
        BadToken(v, path, current, rest);
        return Err(InvalidPath);
      }
      FrontierStep(v, path, current, rest);
      current := NextFrontier(current, m.value.0);
      assert rest[m.value.1..] == path[offset + m.value.1..];
      offset := offset + m.value.1;
    }
    assert path[offset..] == "";
    EndFrontier(v, path, current);
    r := Ok(current);
  }

  /**
    Composition: evaluating a concatenated token list is evaluating the tail on each
    result of the head, in document order.
   */
  lemma {:induction false} EvalConcat(v: Json, head: Path, tail: Path)
    ensures Eval(v, head + tail) == Bind(Eval(v, head), tail)
    decreases |head|, 0, 0
  {
    if head == [] {
      assert head + tail == tail;
      BindOne(v, tail);
    } else {
      assert (head + tail)[0] == head[0] && (head + tail)[1..] == head[1..] + tail;
      BindOverConcat(Select(v, head[0]), head[1..], tail);
    }
  }

  lemma {:induction false} BindOverConcat(vs: seq<Json>, head: Path, tail: Path)
    ensures Bind(vs, head + tail) == Bind(Bind(vs, head), tail)
    decreases |head|, 1, |vs|
  {
    if vs != [] {
      EvalConcat(vs[0], head, tail);
      BindOverConcat(vs[1..], head, tail);
      BindConcat(Eval(vs[0], head), Bind(vs[1..], head), tail);
    }
  }

  /** A token ends where it ends, whatever well-formed path follows it. */
  lemma MatchTokenExtends(p: string, q: string)
    requires MatchToken(p).Some?
    requires q == "" || q[0] == '.' || q[0] == '['
    ensures MatchToken(p + q) == MatchToken(p)
  {
    hide MatchDotted, MatchQuoted, MatchIndex;
    var s := p + q;
    assert s[0] == p[0] && s[1] == p[1];
    assert s[1..] == p[1..] + q && s[2..] == p[2..] + q;
    if p[0] == '.' {
      DottedExtends(p[1..], q);
    } else if IsQuote(p[1]) {
      QuotedExtends(p[2..], q);
    } else if p[1] != '*' {
      IndexExtends(p[1..], q);
    }
  }

  lemma DottedExtends(s: string, q: string)
    requires MatchDotted(s).Some? && (q == "" || !IsKeyChar(q[0]))
    ensures MatchDotted(s + q) == MatchDotted(s)
  {
    KeyRunExtends(s, q);
    assert (s + q)[..KeyRun(s)] == s[..KeyRun(s)];
  }

  lemma QuotedExtends(s: string, q: string)
    requires MatchQuoted(s).Some?
    ensures MatchQuoted(s + q) == MatchQuoted(s)
  {
    UnquotedRunExtends(s, q);
    assert (s + q)[..UnquotedRun(s)] == s[..UnquotedRun(s)];
  }

  lemma IndexExtends(s: string, q: string)
    requires MatchIndex(s).Some? && (q == "" || !IsDigit(q[0]))
    ensures MatchIndex(s + q) == MatchIndex(s)
  {
    DigitRunExtends(s, q);
    assert (s + q)[..DigitRun(s)] == s[..DigitRun(s)];
  }

  lemma {:induction false} KeyRunExtends(s: string, q: string)
    requires q == "" || !IsKeyChar(q[0])
    ensures KeyRun(s + q) == KeyRun(s)
  {
    if s == "" {
      assert s + q == q;
    } else {
      assert (s + q)[1..] == s[1..] + q;
      KeyRunExtends(s[1..], q);
    }
  }

  lemma {:induction false} DigitRunExtends(s: string, q: string)
    requires q == "" || !IsDigit(q[0])
    ensures DigitRun(s + q) == DigitRun(s)
  {
    if s == "" {
      assert s + q == q;
    } else {
      assert (s + q)[1..] == s[1..] + q;
      DigitRunExtends(s[1..], q);
    }
  }

  lemma {:induction false} UnquotedRunExtends(s: string, q: string)
    requires UnquotedRun(s) < |s|
    ensures UnquotedRun(s + q) == UnquotedRun(s)
  {
    if !IsQuote(s[0]) {
      assert (s + q)[1..] == s[1..] + q;
      UnquotedRunExtends(s[1..], q);
    }
  }

  /** Reading a path is reading its first token and then the rest. */
  lemma TokenizeStep(p: string, t: Token, n: nat)
    requires MatchToken(p) == Some((t, n)) && Tokenize(p[n..]).Ok?
    ensures Tokenize(p) == Ok([t] + Tokenize(p[n..]).value)
  {
  }

  lemma PathStart(q: string)
    requires Tokenize(q).Ok?
    ensures q == "" || (MatchToken(q).Some? && (q[0] == '.' || q[0] == '['))
  {
  }

  /** Concatenating two path texts concatenates their tokens. */
  lemma {:induction false} TokenizeConcat(p: string, q: string)
    requires Tokenize(p).Ok? && Tokenize(q).Ok?
    ensures Tokenize(p + q) == Ok(Tokenize(p).value + Tokenize(q).value)
  {
    hide MatchToken;
    if p == "" {
      assert p + q == q;
      assert [] + Tokenize(q).value == Tokenize(q).value;
    } else {
      PathStart(p);
      var (t, n) := MatchToken(p).value;
      TokenizeConcat(p[n..], q);
      TokenizeConcatStep(p, t, n, q);
    }
  }

  lemma {:induction false} TokenizeConcatStep(p: string, t: Token, n: nat, q: string)
    requires MatchToken(p) == Some((t, n)) && Tokenize(p[n..]).Ok? && Tokenize(q).Ok?
    requires Tokenize(p[n..] + q) == Ok(Tokenize(p[n..]).value + Tokenize(q).value)
    ensures Tokenize(p).Ok? && Tokenize(p + q) == Ok(Tokenize(p).value + Tokenize(q).value)
  {
    hide MatchToken, Tokenize;
    PathStart(q);
    TokenizeAfter(p, t, n, q);
    TokenizeStep(p, t, n);
    var a, b := Tokenize(p[n..]).value, Tokenize(q).value;
    assert [t] + (a + b) == ([t] + a) + b;
  }

  lemma {:induction false} TokenizeAfter(p: string, t: Token, n: nat, q: string)
    requires MatchToken(p) == Some((t, n))
    requires q == "" || q[0] == '.' || q[0] == '['
    ensures Tokenize(p[n..] + q).Ok? ==> Tokenize(p + q) == Ok([t] + Tokenize(p[n..] + q).value)
  {
    MatchTokenExtends(p, q);
    assert (p + q)[n..] == p[n..] + q;
    if Tokenize(p[n..] + q).Ok? {
      TokenizeStep(p + q, t, n);
    }
  }

  lemma ValuesOfTokens(v: Json, p: string)
    requires v != Null && Tokenize(p).Ok?
    ensures Values(v, "$" + p) == Ok(Eval(v, Tokenize(p).value))
  {
    assert ("$" + p)[1..] == p;
  }

  /** `_json_path_values` run on every value of a list, results appended. */
  function FlatValues(vs: seq<Json>, path: string): seq<Json> {
    if vs == [] then []
    else (match Values(vs[0], path) case Ok(r) => r case Err(_) => []) + FlatValues(vs[1..], path)
  }

  lemma {:induction false} FlatValuesIsBind(vs: seq<Json>, q: string)
    requires Tokenize(q).Ok? && (q != "" || Null !in vs)
    ensures FlatValues(vs, "$" + q) == Bind(vs, Tokenize(q).value)
  {
    if vs != [] {
      FlatValuesIsBind(vs[1..], q);
      if vs[0] == Null {
        var path := Tokenize(q).value;
        assert path != [];
        assert Select(Null, path[0]) == [] && Bind([], path[1..]) == [];
        assert Eval(Null, path) == [];
      } else {
        ValuesOfTokens(vs[0], q);
      }
    }
  }

  /** The root path keeps every value but null, which answers nothing. */
  lemma {:induction false} FlatValuesOfRoot(vs: seq<Json>)
    ensures |FlatValues(vs, "$")| <= |vs|
    ensures |FlatValues(vs, "$")| == |vs| <==> Null !in vs
  {
    if vs != [] {
      FlatValuesOfRoot(vs[1..]);
      assert vs == [vs[0]] + vs[1..];
      assert "$"[1..] == "" && Tokenize("") == Ok([]);
    }
  }

  /**
    Composition on path texts.  A null root answers [] before its path is read, so the
    law holds exactly when the tail is non-empty or the head finds no null.
   */
  lemma {:induction false} ValuesConcat(v: Json, p: string, q: string)
    requires v != Null && Tokenize(p).Ok? && Tokenize(q).Ok?
    ensures Values(v, "$" + p).Ok?
    ensures Values(v, "$" + (p + q)) == Ok(FlatValues(Values(v, "$" + p).value, "$" + q)) <==>
            q != "" || Null !in Eval(v, Tokenize(p).value)
  {
    var a, b := Tokenize(p).value, Tokenize(q).value;
    TokenizeConcat(p, q);
    EvalConcat(v, a, b);
    ValuesOfTokens(v, p);
    ValuesOfTokens(v, p + q);
    hide Values, Eval, MatchToken;
    var found := Eval(v, a);
    if q != "" || Null !in found {
      FlatValuesIsBind(found, q);
    } else {
      BindNothing(found);
      FlatValuesOfRoot(found);
      assert "$" + q == "$";
    }
  }

  /** Where it fails: the only element of the list is null. */
  lemma NullElementIsLost()
    ensures var v := Arr([Null]);
            && Values(v, "$" + ("[0]" + "")) == Ok([Null])
            && Values(v, "$" + "[0]") == Ok([Null])
            && FlatValues([Null], "$" + "") == []
  {
    var v, path := Arr([Null]), [Index(0)];
    assert PrintPath(path) == "[0]" by {
      assert Decimal(0) == "0" && PrintToken(Index(0)) == "[0]" && path[1..] == [];
    }
    TokenizePrinted(path);
    assert "[0]" + "" == "[0]";
    ValuesOfTokens(v, "[0]");
    BindOne(Null, []);
    assert path[1..] == [] && Select(v, Index(0)) == [Null] && Eval(v, path) == Bind([Null], []) == [Null];
    assert [Null][1..] == [] && "$" + "" == "$";
  }

  // ------------------------------------------------------ locations, round trip

  predicate WildFree(path: Path) {
    forall i :: 0 <= i < |path| ==> path[i] != Wild
  }

  /** The node a location leads to, followed through the tree itself. */
  ghost predicate IsNode(root: Json, path: Path, node: Json)
    decreases |path|
  {
    if path == [] then node == root
    else
      match path[0]
      case Name(k) => root.Obj? &&
        exists i :: 0 <= i < |root.fields| && root.fields[i].key == k && IsNode(root.fields[i].value, path[1..], node)
      case Index(i) => root.Arr? && i < |root.items| && IsNode(root.items[i], path[1..], node)
      case Wild => false
  }

  /** A wildcard-free path selects at most one value. */
  lemma {:induction false} WildFreeSelectsAtMostOne(v: Json, path: Path)
    requires WildFree(path)
    ensures |Eval(v, path)| <= 1
    decreases |path|
  {
    if path != [] {
      var vs := Select(v, path[0]);
      if vs != [] {
        assert vs == [vs[0]];
        BindOne(vs[0], path[1..]);
        WildFreeSelectsAtMostOne(vs[0], path[1..]);
      }
    }
  }

  /** Evaluating a location returns its node and nothing else. */
  lemma {:induction false} EvalLocation(root: Json, path: Path, node: Json)
    requires WellFormed(root) && WildFree(path)
    ensures IsNode(root, path, node) <==> Eval(root, path) == [node]
    decreases |path|
  {
    if path != [] {
      match path[0]
      case Name(k) =>
        if root.Obj? {
          if Find(root.fields, k).Some? {
            FindIsEntry(root.fields, k);
            var x := Find(root.fields, k).value;
            EvalLocation(x, path[1..], node);
            BindOne(x, path[1..]);
            forall i | 0 <= i < |root.fields| && root.fields[i].key == k ensures root.fields[i].value == x {
              FindAt(root.fields, i);
            }
          } else {
            FindNone(root.fields, k);
          }
        }
      case Index(i) =>
        if root.Arr? && i < |root.items| {
          EvalLocation(root.items[i], path[1..], node);
          BindOne(root.items[i], path[1..]);
        }
    }
  }

  // -------------------------------------------------------------------- wildcards

  /** A wildcard selects the items of a list, and nothing from any other value. */
  lemma WildcardSelectsItems(v: Json)
    ensures Eval(v, [Wild]) == if v.Arr? then v.items else []
  {
    assert [Wild][1..] == [];
    BindNothing(Select(v, Wild));
  }

  /** The tokens without wildcard that a token stands for. */
  predicate Fits(u: Token, t: Token) { if t.Wild? then u.Index? else u == t }

  /** The path with every wildcard replaced by an index. */
  ghost predicate IsInstance(p: Path, path: Path) {
    |p| == |path| && forall i :: 0 <= i < |path| ==> Fits(p[i], path[i])
  }

  predicate Smaller(u: Token, t: Token) { u.Index? && t.Index? && u.i < t.i }

  /** Reading order: at the first place where two instances differ, the smaller index comes first. */
  ghost predicate Before(p: Path, q: Path)
    decreases |p|
  {
    p != [] && q != [] &&
    if p[0] == q[0] then Before(p[1..], q[1..]) else Smaller(p[0], q[0])
  }

  ghost predicate InOrder(places: seq<Path>) {
    forall i, j :: 0 <= i < j < |places| ==> Before(places[i], places[j])
  }

  /** The places are the instances that lead to a node, and the values are the nodes there. */
  ghost predicate Locates(v: Json, path: Path, places: seq<Path>, values: seq<Json>) {
    && |places| == |values| && InOrder(places)
    && (forall k :: 0 <= k < |places| ==> IsInstance(places[k], path) && IsNode(v, places[k], values[k]))
    && (forall p, node :: IsInstance(p, path) && IsNode(v, p, node) ==> p in places)
  }

  /** A place that starts with one of the tokens and goes on below its child. */
  ghost predicate IsUnder(tokens: seq<Token>, vs: seq<Json>, path: Path, place: Path, value: Json)
    requires |tokens| == |vs|
  {
    place != [] && IsInstance(place[1..], path) &&
    exists j :: 0 <= j < |tokens| && place[0] == tokens[j] && IsNode(vs[j], place[1..], value)
  }

  /** The same for the children a token stands for. */
  ghost predicate LocatesUnder(tokens: seq<Token>, vs: seq<Json>, path: Path, places: seq<Path>, values: seq<Json>)
    requires |tokens| == |vs|
  {
    && |places| == |values| && InOrder(places)
    && (forall k :: 0 <= k < |places| ==> IsUnder(tokens, vs, path, places[k], values[k]))
    && (forall p, node :: IsUnder(tokens, vs, path, p, node) ==> p in places)
  }

  ghost predicate Ascending(tokens: seq<Token>) {
    forall i, j :: 0 <= i < j < |tokens| ==> Smaller(tokens[i], tokens[j])
  }

  /** The child one token without wildcard leads to. */
  ghost predicate IsChild(v: Json, u: Token, child: Json) {
    match u
    case Name(k) => v.Obj? && Field(k, child) in v.fields
    case Index(i) => v.Arr? && i < |v.items| && child == v.items[i]
    case Wild => false
  }

  /** The tokens by which a token selects its values, in the same order. */
  ghost function SelectedBy(v: Json, t: Token): (tokens: seq<Token>)
    ensures |tokens| == |Select(v, t)| && Ascending(tokens)
  {
    if t.Wild? then seq(|Select(v, t)|, i requires 0 <= i => Index(i)) else if Select(v, t) == [] then [] else [t]
  }

  lemma ChildrenSelected(v: Json, t: Token)
    requires WellFormed(v)
    ensures forall j :: 0 <= j < |Select(v, t)| ==>
              Fits(SelectedBy(v, t)[j], t) && IsChild(v, SelectedBy(v, t)[j], Select(v, t)[j]) && WellFormed(Select(v, t)[j])
    ensures forall u, child | Fits(u, t) && IsChild(v, u, child) ::
              exists j :: 0 <= j < |Select(v, t)| && SelectedBy(v, t)[j] == u && Select(v, t)[j] == child
  {
    match t
    case Name(k) =>
      if v.Obj? && Find(v.fields, k).Some? {
        FindIsEntry(v.fields, k);
      }
      forall u, child | Fits(u, t) && IsChild(v, u, child)
        ensures exists j :: 0 <= j < |Select(v, t)| && SelectedBy(v, t)[j] == u && Select(v, t)[j] == child
      {
        var i :| 0 <= i < |v.fields| && v.fields[i] == Field(k, child);
        FindAt(v.fields, i);
        assert Select(v, t)[0] == child && SelectedBy(v, t)[0] == u;
      }
    case Index(i) =>
      assert v.Arr? && i < |v.items| ==> Select(v, t)[0] == v.items[i] && SelectedBy(v, t)[0] == t && v.items[i] in v.items;
    case Wild =>
      if v.Arr? {
        assert forall j :: 0 <= j < |v.items| ==> Select(v, t)[j] == v.items[j] && SelectedBy(v, t)[j] == Index(j);
        assert forall j :: 0 <= j < |v.items| ==> v.items[j] in v.items;
      }
  }

  lemma NodeStep(v: Json, p: Path, node: Json)
    requires p != []
    ensures IsNode(v, p, node) <==> exists child :: IsChild(v, p[0], child) && IsNode(child, p[1..], node)
  {
    hide WellFormed;
    if v.Obj? && p[0].Name? {
      assert forall i :: 0 <= i < |v.fields| && v.fields[i].key == p[0].key ==> IsChild(v, p[0], v.fields[i].value);
      if child :| IsChild(v, p[0], child) && IsNode(child, p[1..], node) {
        var i :| 0 <= i < |v.fields| && v.fields[i] == Field(p[0].key, child);
      }
    } else if v.Arr? && p[0].Index? && p[0].i < |v.items| {
      assert IsChild(v, p[0], v.items[p[0].i]);
    }
  }

  lemma InstanceStep(p: Path, path: Path)
    requires path != []
    ensures IsInstance(p, path) <==> p != [] && Fits(p[0], path[0]) && IsInstance(p[1..], path[1..])
  {
    if p != [] && Fits(p[0], path[0]) && IsInstance(p[1..], path[1..]) {
      assert forall i :: 0 < i < |path| ==> p[i] == p[1..][i - 1] && path[i] == path[1..][i - 1];
    }
  }

  lemma UnderIsInstance(v: Json, path: Path, p: Path, node: Json)
    requires WellFormed(v) && path != []
    ensures IsUnder(SelectedBy(v, path[0]), Select(v, path[0]), path[1..], p, node) <==>
            IsInstance(p, path) && IsNode(v, p, node)
  {
    hide IsNode, IsInstance, Fits, IsChild, SelectedBy, Select, WellFormed, Ascending;
    InstanceStep(p, path);
    ChildrenSelected(v, path[0]);
    if p != [] {
      NodeStep(v, p, node);
    }
  }

  /**
    The wildcard law: the values of any path are the nodes at its instances, each instance
    that leads to a node once and in reading order.
   */
  lemma {:induction false} EvalLocates(v: Json, path: Path) returns (places: seq<Path>)
    requires WellFormed(v)
    ensures Locates(v, path, places, Eval(v, path))
    decreases |path|, 0, 0
  {
    if path == [] {
      places := [[]];
    } else {
      var t := path[0];
      hide IsUnder, IsInstance, IsNode, SelectedBy, Select, Bind, InOrder, WellFormed;
      ChildrenSelected(v, t);
      places := LocateBelow(SelectedBy(v, t), Select(v, t), path[1..]);
      forall p, node ensures IsUnder(SelectedBy(v, t), Select(v, t), path[1..], p, node) <==>
                             IsInstance(p, path) && IsNode(v, p, node)
      {
        UnderIsInstance(v, path, p, node);
      }
    }
  }

  lemma {:induction false} LocateBelow(tokens: seq<Token>, vs: seq<Json>, path: Path) returns (places: seq<Path>)
    requires |tokens| == |vs| && Ascending(tokens) && forall j :: 0 <= j < |vs| ==> WellFormed(vs[j])
    ensures LocatesUnder(tokens, vs, path, places, Bind(vs, path))
    decreases |path|, 1, |vs|
  {
    if vs == [] {
      places := [];
    } else {
      assert Bind(vs, path) == Eval(vs[0], path) + Bind(vs[1..], path);
      AscendingTail(tokens);
      hide Eval, Bind, IsNode, IsInstance, WellFormed;
      var first := EvalLocates(vs[0], path);
      var rest := LocateBelow(tokens[1..], vs[1..], path);
      places := Under(tokens[0], first) + rest;
      JoinPlaces(tokens, vs, path, first, Eval(vs[0], path), rest, Bind(vs[1..], path));
    }
  }

  function Under(t: Token, places: seq<Path>): (r: seq<Path>)
    ensures |r| == |places| && forall k :: 0 <= k < |r| ==> r[k] == [t] + places[k]
  {
    seq(|places|, k requires 0 <= k < |places| => [t] + places[k])
  }

  lemma AscendingTail(tokens: seq<Token>)
    requires tokens != [] && Ascending(tokens)
    ensures Ascending(tokens[1..])
  {
    forall i, j | 0 <= i < j < |tokens[1..]| ensures Smaller(tokens[1..][i], tokens[1..][j]) {
      assert Smaller(tokens[i + 1], tokens[j + 1]);
    }
  }

  lemma BeforeUnder(t: Token, p: Path, q: Path)
    requires Before(p, q)
    ensures Before([t] + p, [t] + q)
  {
    assert ([t] + p)[1..] == p && ([t] + q)[1..] == q;
  }

  lemma UnderStep(tokens: seq<Token>, vs: seq<Json>, path: Path, p: Path, node: Json)
    requires |tokens| == |vs| && vs != []
    ensures IsUnder(tokens, vs, path, p, node) <==>
            (p != [] && p[0] == tokens[0] && IsInstance(p[1..], path) && IsNode(vs[0], p[1..], node)) ||
            IsUnder(tokens[1..], vs[1..], path, p, node)
  {
    hide IsNode, IsInstance;
    if IsUnder(tokens[1..], vs[1..], path, p, node) {
      var j :| 0 <= j < |tokens[1..]| && p[0] == tokens[1..][j] && IsNode(vs[1..][j], p[1..], node);
      assert tokens[j + 1] == tokens[1..][j] && vs[j + 1] == vs[1..][j];
    }
    if IsUnder(tokens, vs, path, p, node) {
      var j :| 0 <= j < |tokens| && p[0] == tokens[j] && IsNode(vs[j], p[1..], node);
      assert j > 0 ==> tokens[j] == tokens[1..][j - 1] && vs[j] == vs[1..][j - 1];
    }
  }

  lemma JoinInOrder(tokens: seq<Token>, vs: seq<Json>, path: Path, first: seq<Path>, rest: seq<Path>, values: seq<Json>)
    requires |tokens| == |vs| && vs != [] && Ascending(tokens) && InOrder(first)
    requires LocatesUnder(tokens[1..], vs[1..], path, rest, values)
    ensures InOrder(Under(tokens[0], first) + rest)
  {
    hide IsNode, IsInstance;
    var head := Under(tokens[0], first);
    var places := head + rest;
    forall i, j | 0 <= i < j < |places| ensures Before(places[i], places[j]) {
      if j < |head| {
        BeforeUnder(tokens[0], first[i], first[j]);
      } else if i < |head| {
        assert IsUnder(tokens[1..], vs[1..], path, rest[j - |head|], values[j - |head|]);
      }
    }
  }

  lemma JoinPlaces(tokens: seq<Token>, vs: seq<Json>, path: Path,
                   first: seq<Path>, values: seq<Json>, rest: seq<Path>, more: seq<Json>)
    requires |tokens| == |vs| && vs != [] && Ascending(tokens) && Locates(vs[0], path, first, values)
    requires LocatesUnder(tokens[1..], vs[1..], path, rest, more)
    ensures LocatesUnder(tokens, vs, path, Under(tokens[0], first) + rest, values + more)
  {
    hide IsNode, IsInstance, IsUnder, InOrder, Ascending;
    JoinInOrder(tokens, vs, path, first, rest, more);
    var head := Under(tokens[0], first);
    var places, all := head + rest, values + more;
    forall k | 0 <= k < |places| ensures IsUnder(tokens, vs, path, places[k], all[k]) {
      UnderStep(tokens, vs, path, places[k], all[k]);
      if k < |head| {
        assert places[k][1..] == first[k];
      } else {
        assert places[k] == rest[k - |head|] && all[k] == more[k - |head|];
      }
    }
    forall p, node | IsUnder(tokens, vs, path, p, node) ensures p in places {
      UnderStep(tokens, vs, path, p, node);
      if !IsUnder(tokens[1..], vs[1..], path, p, node) {
        var k :| 0 <= k < |first| && first[k] == p[1..];
        assert head[k] == [p[0]] + p[1..] == p;
      }
    }
  }

  /** Tokens that some path text denotes: names must be non-empty and quote-free. */
  predicate Printable(t: Token) {
    t.Name? ==> t.key != "" && forall i :: 0 <= i < |t.key| ==> !IsQuote(t.key[i])
  }

  /** Decimal numeral without leading zeros. */
  function Decimal(n: nat): (s: string)
    ensures s != "" && forall i :: 0 <= i < |s| ==> IsDigit(s[i])
  {
    (if n < 10 then "" else Decimal(n / 10)) + [(n % 10 + '0' as int) as char]
  }

  lemma {:induction false} ParseDecimal(n: nat)
    ensures ParseNat(Decimal(n)) == n
  {
    var s := Decimal(n);
    if n >= 10 {
      ParseDecimal(n / 10);
      assert s[..|s| - 1] == Decimal(n / 10);
    }
  }

  function PrintToken(t: Token): string {
    match t
    case Name(k) => if IsDotted(k) then "." + k else "['" + k + "']"
    case Index(i) => "[" + Decimal(i) + "]"
    case Wild => "[*]"
  }

  function PrintPath(path: Path): string {
    if path == [] then "" else PrintToken(path[0]) + PrintPath(path[1..])
  }

  lemma MatchPrintedDotted(k: string)
    requires IsDotted(k)
    ensures MatchDotted(k) == Some((Name(k), 1 + |k|))
  {
    KeyRunAll(k);
    assert k[..|k|] == k;
  }

  lemma MatchPrintedQuoted(k: string)
    requires Printable(Name(k))
    ensures MatchQuoted(k + "']") == Some((Name(k), 4 + |k|))
  {
    var s := k + "']";
    assert forall i :: 0 <= i < |k| ==> s[i] == k[i];
    assert s[|k|] == '\'' && s[|k| + 1] == ']';
    UnquotedRunIs(s, |k|);
    assert s[..|k|] == k;
  }

  lemma MatchPrintedIndex(i: nat)
    ensures MatchIndex(Decimal(i) + "]") == Some((Index(i), 2 + |Decimal(i)|))
  {
    var d := Decimal(i);
    var s := d + "]";
    assert forall j :: 0 <= j < |d| ==> s[j] == d[j];
    assert s[|d|] == ']';
    DigitRunIs(s, |d|);
    assert s[..|d|] == d;
    ParseDecimal(i);
  }

  lemma KeyRunAll(k: string)
    requires forall i :: 0 <= i < |k| ==> IsKeyChar(k[i])
    ensures KeyRun(k) == |k|
  {
  }

  lemma UnquotedRunIs(s: string, n: nat)
    requires n < |s| && IsQuote(s[n]) && forall i :: 0 <= i < n ==> !IsQuote(s[i])
    ensures UnquotedRun(s) == n
  {
  }

  lemma DigitRunIs(s: string, n: nat)
    requires n < |s| && !IsDigit(s[n]) && forall i :: 0 <= i < n ==> IsDigit(s[i])
    ensures DigitRun(s) == n
  {
  }

  lemma MatchPrinted(t: Token)
    requires Printable(t)
    ensures MatchToken(PrintToken(t)) == Some((t, |PrintToken(t)|))
  {
    hide MatchDotted, MatchQuoted, MatchIndex, Decimal;
    var p := PrintToken(t);
    match t
    case Name(k) =>
      if IsDotted(k) {
        MatchPrintedDotted(k);
        assert p[1..] == k;
      } else {
        MatchPrintedQuoted(k);
        assert p[2..] == k + "']";
      }
    case Index(i) =>
      MatchPrintedIndex(i);
      assert p[1..] == Decimal(i) + "]" && p[1] == Decimal(i)[0];
    case Wild =>
  }

  /** Printing a token list as a path and reading it back gives the list. */
  lemma {:induction false} TokenizePrinted(path: Path)
    requires forall i :: 0 <= i < |path| ==> Printable(path[i])
    ensures Tokenize(PrintPath(path)) == Ok(path)
  {
    if path != [] {
      var t, rest := PrintToken(path[0]), PrintPath(path[1..]);
      TokenizePrinted(path[1..]);
      TokenizePrintedFirst(path[0], path[1..]);
      assert path == [path[0]] + path[1..];
    }
  }

  lemma TokenizePrintedFirst(t: Token, path: Path)
    requires Printable(t) && Tokenize(PrintPath(path)) == Ok(path)
    ensures Tokenize(PrintToken(t) + PrintPath(path)) == Ok([t] + path)
  {
    MatchPrinted(t);
    PrintedStart(path);
    var text := PrintToken(t);
    assert text[|text|..] + PrintPath(path) == PrintPath(path);
    TokenizeAfter(text, t, |text|, PrintPath(path));
  }

  lemma PrintedStart(path: Path)
    ensures path == [] || PrintPath(path)[0] in {'.', '['}
  {
  }

  /** No path text denotes an unprintable token. */
  lemma {:induction false} TokensArePrintable(p: string)
    requires Tokenize(p).Ok?
    ensures forall i :: 0 <= i < |Tokenize(p).value| ==> Printable(Tokenize(p).value[i])
  {
    if p != "" {
      var (t, n) := MatchToken(p).value;
      TokensArePrintable(p[n..]);
      assert Printable(t) by {
        if t.Name? && p[0] == '.' {
          assert t.key == p[1..][..KeyRun(p[1..])];
        } else if t.Name? {
          assert t.key == p[2..][..UnquotedRun(p[2..])];
        }
      }
    }
  }

  /**
    Location round trip: printing where a node is and evaluating the text returns
    exactly that node.
   */
  lemma {:induction false} LocationRoundTrip(root: Json, path: Path, node: Json)
    requires WellFormed(root) && root != Null && IsNode(root, path, node)
    requires WildFree(path) && forall i :: 0 <= i < |path| ==> Printable(path[i])
    ensures Values(root, "$" + PrintPath(path)) == Ok([node])
  {
    TokenizePrinted(path);
    assert ("$" + PrintPath(path))[1..] == PrintPath(path);
    EvalLocation(root, path, node);
  }

  /** Exactly the locations whose names are non-empty and quote-free have a path text. */
  lemma AddressableIffPrintable(path: Path)
    ensures (exists p :: Tokenize(p) == Ok(path)) <==> forall i :: 0 <= i < |path| ==> Printable(path[i])
  {
    if forall i :: 0 <= i < |path| ==> Printable(path[i]) {
      TokenizePrinted(path);
    }
    if p :| Tokenize(p) == Ok(path) {
      TokensArePrintable(p);
    }
  }
}
