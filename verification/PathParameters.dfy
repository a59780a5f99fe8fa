/**
  Path parameters of a request (backend/app/modules/executions/variables.py,
  `_replace_path_parameter` and its use in `build_request`).
 */
module PathParameters {
  import opened Wrappers
  import P = PathNormalizers
  import T = Templates

  // ------------------------------------------------------------- percent encoding

  predicate IsUnreserved(c: char) { T.IsLetter(c) || T.IsDigit(c) || c == '-' || c == '.' || c == '~' }

  function Hex(d: nat): char
    requires d < 16
  {
    "0123456789ABCDEF"[d]
  }

  type Byte = b: nat | b < 256

  /** UTF-8. */
  function Bytes(c: char): seq<Byte> {
    var u := c as int;
    if u < 0x80 then [u]
    else if u < 0x800 then [0xC0 + u / 0x40, 0x80 + u % 0x40]
    else if u < 0x10000 then [0xE0 + u / 0x1000, 0x80 + u / 0x40 % 0x40, 0x80 + u % 0x40]
    else [0xF0 + u / 0x40000 % 8, 0x80 + u / 0x1000 % 0x40, 0x80 + u / 0x40 % 0x40, 0x80 + u % 0x40]
  }

  function Percent(bytes: seq<Byte>): string {
    if bytes == [] then "" else ['%', Hex(bytes[0] / 16), Hex(bytes[0] % 16)] + Percent(bytes[1..])
  }

  /** `quote(text, safe="")`. */
  function Quote(text: string): string {
    if text == "" then ""
    else (if IsUnreserved(text[0]) then [text[0]] else Percent(Bytes(text[0]))) + Quote(text[1..])
  }

  predicate IsQuoted(text: string) { forall i :: 0 <= i < |text| ==> IsUnreserved(text[i]) || text[i] == '%' }

  lemma {:induction false} PercentIsQuoted(bytes: seq<Byte>)
    ensures IsQuoted(Percent(bytes))
  {
    if bytes != [] {
      PercentIsQuoted(bytes[1..]);
    }
  }

  /** A quoted value holds no brace, no slash and nothing else that means something in a path. */
  lemma {:induction false} QuoteIsQuoted(text: string)
    ensures IsQuoted(Quote(text))
  {
    if text != "" {
      QuoteIsQuoted(text[1..]);
      PercentIsQuoted(Bytes(text[0]));
    }
  }

  // ------------------------------------------- the receiver's side: decoding a segment

  /** The value of a hexadecimal digit; RFC 3986 section 2.1 lets the receiver read either case. */
  function HexValue(c: char): Option<nat> {
    if '0' <= c <= '9' then Some(c as int - '0' as int)
    else if 'A' <= c <= 'F' then Some(c as int - 'A' as int + 10)
    else if 'a' <= c <= 'f' then Some(c as int - 'a' as int + 10)
    else None
  }

  /** The octets of a percent-encoded text, high digit first. */
  function Octets(text: string): Option<seq<Byte>> {
    if text == "" then Some([])
    else if text[0] != '%' then
      if text[0] as int >= 0x80 then None
      else match Octets(text[1..]) case Some(rest) => Some([text[0] as int] + rest) case None => None
    else if |text| < 3 || HexValue(text[1]).None? || HexValue(text[2]).None? then None
    else
      match Octets(text[3..])
      case Some(rest) => Some([HexValue(text[1]).value * 16 + HexValue(text[2]).value] + rest)
      case None => None
  }

  /** The code point that a UTF-8 sequence starts with, and the number of its octets (RFC 3629 section 3). */
  function CodePoint(bytes: seq<Byte>): Option<(nat, nat)> {
    if bytes == [] then None
    else if bytes[0] < 0x80 then Some((bytes[0], 1))
    else if 0xC0 <= bytes[0] < 0xE0 && |bytes| >= 2 && Continue(bytes[1]) then
      Some((Tail(bytes[0] as int - 0xC0, bytes[1]), 2))
    else if 0xE0 <= bytes[0] < 0xF0 && |bytes| >= 3 && Continue(bytes[1]) && Continue(bytes[2]) then
      Some((Tail(Tail(bytes[0] as int - 0xE0, bytes[1]), bytes[2]), 3))
    else if 0xF0 <= bytes[0] < 0xF8 && |bytes| >= 4 && Continue(bytes[1]) && Continue(bytes[2]) && Continue(bytes[3]) then
      Some((Tail(Tail(Tail(bytes[0] as int - 0xF0, bytes[1]), bytes[2]), bytes[3]), 4))
    else None
  }

  /** Six more bits, from an octet that continues a sequence. */
  function Tail(u: nat, b: Byte): nat
    requires Continue(b)
  {
    u * 0x40 + (b as int - 0x80)
  }

  predicate Continue(b: Byte) { 0x80 <= b < 0xC0 }

  predicate IsScalar(u: nat) { u < 0xD800 || 0xE000 <= u < 0x110000 }

  function Decode(bytes: seq<Byte>): Option<string> {
    if bytes == [] then Some("")
    else
      match CodePoint(bytes)
      case Some((u, n)) =>
        if !IsScalar(u) || n == 0 || n > |bytes| then None
        else (match Decode(bytes[n..]) case Some(rest) => Some([u as char] + rest) case None => None)
      case None => None
  }

  function AllBytes(text: string): seq<Byte> {
    if text == "" then [] else Bytes(text[0]) + AllBytes(text[1..])
  }

  lemma CodePointOf(c: char, rest: seq<Byte>)
    ensures CodePoint(Bytes(c) + rest) == Some((c as int, |Bytes(c)|))
  {
    var u := c as int;
    assert u / 0x1000 == u / 0x40 / 0x40;
    assert u / 0x40000 == u / 0x1000 / 0x40;
    assert u < 0x110000;
  }

  lemma {:induction false} DecodeAllBytes(text: string)
    ensures Decode(AllBytes(text)) == Some(text)
  {
    if text != "" {
      var c, rest := text[0], AllBytes(text[1..]);
      DecodeAllBytes(text[1..]);
      CodePointOf(c, rest);
      assert (Bytes(c) + rest)[|Bytes(c)|..] == rest;
      assert Bytes(c) != [];
      hide Bytes, CodePoint;
      assert text == [c] + text[1..];
    }
  }

  lemma HexRead(b: Byte)
    ensures HexValue(Hex(b / 16)) == Some(b / 16) && HexValue(Hex(b % 16)) == Some(b % 16)
  {
  }

  lemma {:induction false} OctetsStep(b: Byte, rest: string)
    requires Octets(rest).Some?
    ensures Octets(['%', Hex(b / 16), Hex(b % 16)] + rest) == Some([b] + Octets(rest).value)
  {
    HexRead(b);
    var text := ['%', Hex(b / 16), Hex(b % 16)] + rest;
    assert text[0] == '%' && text[1] == Hex(b / 16) && text[2] == Hex(b % 16) && text[3..] == rest;
    hide Hex, HexValue;
  }

  lemma {:induction false} OctetsOfPercent(bytes: seq<Byte>, tail: string)
    requires Octets(tail).Some?
    ensures Octets(Percent(bytes) + tail) == Some(bytes + Octets(tail).value)
  {
    hide Octets, Hex;
    if bytes == [] {
      assert Percent(bytes) + tail == tail;
      assert [] + Octets(tail).value == Octets(tail).value;
    } else {
      var b, rest := bytes[0], Percent(bytes[1..]);
      OctetsOfPercent(bytes[1..], tail);
      OctetsStep(b, rest + tail);
      assert Percent(bytes) + tail == ['%', Hex(b / 16), Hex(b % 16)] + (rest + tail);
      hide Percent;
      assert [b] + (bytes[1..] + Octets(tail).value) == bytes + Octets(tail).value;
    }
  }

  lemma {:induction false} OctetsOfQuote(text: string)
    ensures Octets(Quote(text)) == Some(AllBytes(text))
  {
    if text != "" {
      var c, rest := text[0], Quote(text[1..]);
      OctetsOfQuote(text[1..]);
      if IsUnreserved(c) {
        assert Quote(text) == [c] + rest && c != '%' && c as int < 0x80;
        assert Quote(text)[1..] == rest;
        assert Bytes(c) == [c as int];
      } else {
        OctetsOfPercent(Bytes(c), rest);
      }
    }
  }

  /** Nothing of a value is lost: decoding what was put into the path gives the value back. */
  lemma {:induction false} QuoteRoundTrip(text: string)
    ensures Octets(Quote(text)).Some? && Decode(Octets(Quote(text)).value) == Some(text)
  {
    OctetsOfQuote(text);
    DecodeAllBytes(text);
  }

  // ------------------------------------------------------------------ the pattern

  datatype Segment = Literal(c: char) | Param(name: string)

  /** `_PATH_PARAMETER_PATTERN.match`. */
  function MatchParam(s: string): (name: Option<string>)
    ensures name.Some? ==> s != "" && s[0] == '{' && T.IsIdent(name.value) && Print(Param(name.value)) <= s
  {
    if s == "" || s[0] != '{' then None
    else
      var n := T.WordRun(s[1..]);
      if n > 0 && T.IsLetter(s[1]) && n + 1 < |s| && s[n + 1] == '}' then
        assert s[..n + 2] == "{" + s[1..n + 1] + "}";
        assert forall i :: 0 <= i < n ==> s[1..n + 1][i] == s[1..][i];
        Some(s[1..n + 1])
      else None
  }

  function Print(segment: Segment): string {
    match segment case Literal(c) => [c] case Param(name) => "{" + name + "}"
  }

  function Scan(path: string): seq<Segment> {
    if path == "" then []
    else
      match MatchParam(path)
      case Some(name) => [Param(name)] + Scan(path[|Print(Param(name))|..])
      case None => [Literal(path[0])] + Scan(path[1..])
  }

  /** `_PATH_PARAMETER_PATTERN.search(path) is not None`. */
  ghost predicate HasParameter(path: string) { exists i :: 0 <= i <= |path| && MatchParam(path[i..]).Some? }

  /** What `_replace_path_parameter` puts in the place of a segment. */
  function Replaced(segment: Segment, values: map<string, string>): string {
    if segment.Param? && segment.name in values then Quote(values[segment.name]) else Print(segment)
  }

  function ReplaceAll(segments: seq<Segment>, values: map<string, string>): string {
    if segments == [] then "" else Replaced(segments[0], values) + ReplaceAll(segments[1..], values)
  }

  /** The path of the request; None stands for the refusal of a path that still has a parameter. */
  ghost function BuildPath(path: string, values: map<string, string>): Option<string> {
    var replaced := ReplaceAll(Scan(path), values);
    if HasParameter(replaced) then None else Some(replaced)
  }

  // ------------------------------------------------------------------ main results

  lemma ReplaceCons(segment: Segment, rest: seq<Segment>, values: map<string, string>)
    ensures ReplaceAll([segment] + rest, values) == Replaced(segment, values) + ReplaceAll(rest, values)
  {
    assert ([segment] + rest)[1..] == rest;
  }

  /** Scanning loses nothing. */
  lemma {:induction false} ScanKeepsText(path: string)
    ensures ReplaceAll(Scan(path), map[]) == path
    decreases |path|
  {
    hide MatchParam;
    if path != "" {
      var m := MatchParam(path);
      var first := if m.Some? then Param(m.value) else Literal(path[0]);
      var n := |Print(first)|;
      assert Print(first) <= path && n > 0;
      ScanKeepsText(path[n..]);
      ReplaceCons(first, Scan(path[n..]), map[]);
      assert Scan(path) == [first] + Scan(path[n..]);
      hide ReplaceAll, Scan, Print;
      assert path == path[..n] + path[n..];
    }
  }

  lemma {:induction false} ScannedNames(path: string)
    ensures forall s :: s in Scan(path) && s.Param? ==> T.IsIdent(s.name)
    decreases |path|
  {
    if path != "" {
      match MatchParam(path)
      case Some(name) => ScannedNames(path[|Print(Param(name))|..]);
      case None => ScannedNames(path[1..]);
    }
  }

  predicate Missing(segments: seq<Segment>, values: map<string, string>) {
    exists s :: s in segments && s.Param? && s.name !in values
  }

  lemma PrintedMatches(name: string, rest: string)
    requires T.IsIdent(name)
    ensures MatchParam(Print(Param(name)) + rest) == Some(name)
  {
    var s := Print(Param(name)) + rest;
    assert s[1..] == name + "}" + rest && s[|name| + 1] == '}';
    T.WordRunOf(s[1..], |name|);
    assert s[1..|name| + 1] == name;
  }

  lemma ParameterLater(head: string, tail: string)
    requires HasParameter(tail)
    ensures HasParameter(head + tail)
  {
    hide MatchParam;
    var i :| 0 <= i <= |tail| && MatchParam(tail[i..]).Some?;
    assert (head + tail)[|head| + i..] == tail[i..];
  }

  /** A parameter without a value is always refused. */
  lemma {:induction false} MissingIsRefused(segments: seq<Segment>, values: map<string, string>)
    requires forall s :: s in segments && s.Param? ==> T.IsIdent(s.name)
    requires Missing(segments, values)
    ensures HasParameter(ReplaceAll(segments, values))
  {
    var first, rest := segments[0], ReplaceAll(segments[1..], values);
    if first.Param? && first.name !in values {
      PrintedMatches(first.name, rest);
      assert ReplaceAll(segments, values)[0..] == Print(first) + rest;
    } else {
      assert segments == [first] + segments[1..];
      MissingIsRefused(segments[1..], values);
      ParameterLater(Replaced(first, values), rest);
    }
  }

  // --------------------------------------------------- when values can close a brace

  /** A segment whose text can be part of an identifier: any parameter, for some value. */
  predicate WordLike(s: Segment) { s.Param? || T.IsLetter(s.c) || T.IsDigit(s.c) }

  /** Word-like segments up to a closing brace. */
  predicate Closable(segments: seq<Segment>) {
    segments != [] && (segments[0] == Literal('}') || (WordLike(segments[0]) && Closable(segments[1..])))
  }

  /** What values can turn into an identifier and a closing brace. */
  predicate Spellable(segments: seq<Segment>) {
    segments != [] && (segments[0].Param? || T.IsLetter(segments[0].c)) && Closable(segments[1..])
  }

  /** A brace that opens no parameter of the path, but can open one after the values are filled in. */
  predicate Fragile(segments: seq<Segment>) {
    segments != [] && ((segments[0] == Literal('{') && Spellable(segments[1..])) || Fragile(segments[1..]))
  }

  lemma WordRunSplit(a: string, b: string)
    requires forall k :: 0 <= k < |a| ==> T.IsLetter(a[k]) || T.IsDigit(a[k])
    ensures T.WordRun(a + b) == |a| + T.WordRun(b)
    decreases a
  {
    if a == "" {
      assert a + b == b;
    } else {
      assert (a + b)[1..] == a[1..] + b;
      WordRunSplit(a[1..], b);
    }
  }

  lemma WordRunStops(a: string, b: string, k: nat)
    requires k < |a| && !T.IsLetter(a[k]) && !T.IsDigit(a[k])
    requires forall j :: 0 <= j < k ==> T.IsLetter(a[j]) || T.IsDigit(a[j])
    ensures T.WordRun(a + b) == k
  {
    T.WordRunOf(a + b, k);
  }

  /** The word characters a text starts with are followed by a closing brace. */
  predicate RunCloses(s: string) { T.WordRun(s) < |s| && s[T.WordRun(s)] == '}' }

  /** Word characters in front neither make nor break it. */
  lemma RunClosesAfter(a: string, b: string)
    requires forall k :: 0 <= k < |a| ==> T.IsLetter(a[k]) || T.IsDigit(a[k])
    ensures RunCloses(a + b) <==> RunCloses(b)
  {
    WordRunSplit(a, b);
  }

  lemma {:induction false} FirstNonWord(a: string) returns (k: nat)
    requires !forall j :: 0 <= j < |a| ==> T.IsLetter(a[j]) || T.IsDigit(a[j])
    ensures k < |a| && !T.IsLetter(a[k]) && !T.IsDigit(a[k])
    ensures forall j :: 0 <= j < k ==> T.IsLetter(a[j]) || T.IsDigit(a[j])
  {
    k := 0;
    while T.IsLetter(a[k]) || T.IsDigit(a[k])
      invariant k < |a| && forall j :: 0 <= j < k ==> T.IsLetter(a[j]) || T.IsDigit(a[j])
      invariant exists j :: k <= j < |a| && !T.IsLetter(a[j]) && !T.IsDigit(a[j])
      decreases |a| - k
    {
      k := k + 1;
    }
  }

  /** Whatever the values, only closable segments give such a text. */
  lemma {:induction false} OnlyClosableCloses(segments: seq<Segment>, values: map<string, string>)
    requires !Missing(segments, values) && RunCloses(ReplaceAll(segments, values))
    ensures Closable(segments)
  {
    if segments == [] {
      assert false;
    }
    var first, rest := segments[0], ReplaceAll(segments[1..], values);
    var text := Replaced(first, values);
    assert segments == [first] + segments[1..];
    if first.Param? {
      QuoteIsQuoted(values[first.name]);
    }
    if forall k :: 0 <= k < |text| ==> T.IsLetter(text[k]) || T.IsDigit(text[k]) {
      RunClosesAfter(text, rest);
      OnlyClosableCloses(segments[1..], values);
    } else {
      var k := FirstNonWord(text);
      WordRunStops(text, rest, k);
      assert text[k] == '}';
    }
  }

  /** Every parameter given the value "x". */
  function AllX(names: set<string>): map<string, string> { map n | n in names :: "x" }

  function Names(segments: seq<Segment>): set<string> { set s | s in segments && s.Param? :: s.name }

  lemma QuoteX()
    ensures Quote("x") == "x"
  {
    assert "x"[1..] == "";
  }

  lemma {:induction false} ClosableCloses(segments: seq<Segment>, names: set<string>)
    requires Closable(segments) && Names(segments) <= names
    ensures RunCloses(ReplaceAll(segments, AllX(names)))
  {
    var first, rest := segments[0], ReplaceAll(segments[1..], AllX(names));
    assert segments == [first] + segments[1..];
    if first == Literal('}') {
      T.WordRunOf("}" + rest, 0);
    } else {
      assert first.Param? ==> first.name in Names(segments);
      assert forall n :: n in Names(segments[1..]) ==> n in Names(segments);
      ClosableCloses(segments[1..], names);
      QuoteX();
      RunClosesAfter(Replaced(first, AllX(names)), rest);
    }
  }

  lemma OpensParameter(rest: string)
    requires rest != "" && T.IsLetter(rest[0]) && RunCloses(rest)
    ensures MatchParam("{" + rest).Some?
  {
    assert ("{" + rest)[1..] == rest;
  }

  /** With every value "x", a fragile path looks as if a parameter were left. */
  lemma {:induction false} FragileBreaks(segments: seq<Segment>, names: set<string>)
    requires Fragile(segments) && Names(segments) <= names
    ensures HasParameter(ReplaceAll(segments, AllX(names)))
  {
    var values := AllX(names);
    var first, rest := segments[0], ReplaceAll(segments[1..], values);
    assert forall n :: n in Names(segments[1..]) ==> n in Names(segments);
    if first == Literal('{') && Spellable(segments[1..]) {
      var second := segments[1];
      assert second == segments[1..][0];
      assert second.Param? ==> second.name in Names(segments);
      ClosableCloses(segments[1..], names);
      QuoteX();
      assert rest == Replaced(second, values) + ReplaceAll(segments[1..][1..], values);
      OpensParameter(rest);
      assert ReplaceAll(segments, values)[0..] == "{" + rest;
    } else {
      FragileBreaks(segments[1..], names);
      ParameterLater(Replaced(first, values), rest);
    }
  }

  /** A match inside a concatenation is in the tail, or begins in the head. */
  lemma ParameterSplit(head: string, tail: string) returns (i: nat)
    requires HasParameter(head + tail) && !HasParameter(tail)
    ensures i < |head| && head[i] == '{' && MatchParam(head[i..] + tail).Some?
  {
    hide MatchParam;
    i :| 0 <= i <= |head + tail| && MatchParam((head + tail)[i..]).Some?;
    if i >= |head| {
      MatchInTail(head, tail, i);
    }
    assert i < |head| && (head + tail)[i..] == head[i..] + tail;
  }

  lemma MatchInTail(head: string, tail: string, i: nat)
    requires |head| <= i <= |head + tail| && MatchParam((head + tail)[i..]).Some?
    ensures HasParameter(tail)
  {
    hide MatchParam;
    assert (head + tail)[i..] == tail[i - |head|..];
  }

  /** Only a literal brace puts one into the filled path. */
  lemma BraceInPiece(segment: Segment, values: map<string, string>, i: nat)
    requires segment.Param? ==> segment.name in values
    requires i < |Replaced(segment, values)| && Replaced(segment, values)[i] == '{'
    ensures segment == Literal('{') && i == 0 && Replaced(segment, values) == "{"
  {
    if segment.Param? {
      QuoteIsQuoted(values[segment.name]);
    }
  }

  lemma MatchIsSpelled(segments: seq<Segment>, values: map<string, string>)
    requires !Missing(segments, values) && MatchParam("{" + ReplaceAll(segments, values)).Some?
    ensures Spellable(segments)
  {
    var rest := ReplaceAll(segments, values);
    assert ("{" + rest)[1..] == rest;
    OnlyClosableCloses(segments, values);
    assert segments[0].Literal? ==> rest[0] == segments[0].c;
  }

  /** Otherwise no values with every parameter present leave a match. */
  lemma {:induction false} SturdyHolds(segments: seq<Segment>, values: map<string, string>)
    requires !Fragile(segments) && !Missing(segments, values)
    ensures !HasParameter(ReplaceAll(segments, values))
  {
    if segments == [] {
      assert MatchParam("").None?;
    } else {
      var first, rest := segments[0], ReplaceAll(segments[1..], values);
      assert segments == [first] + segments[1..];
      SturdyHolds(segments[1..], values);
      hide MatchParam, HasParameter, Spellable;
      if HasParameter(Replaced(first, values) + rest) {
        var i := ParameterSplit(Replaced(first, values), rest);
        BraceInPiece(first, values, i);
        assert Replaced(first, values)[i..] == "{";
        MatchIsSpelled(segments[1..], values);
      }
    }
  }

  /** A request whose path is not fragile is refused for it exactly when some parameter has no value. */
  lemma {:induction false} RefusedIffMissing(path: string, values: map<string, string>)
    requires !Fragile(Scan(path))
    ensures BuildPath(path, values).None? <==> Missing(Scan(path), values)
  {
    ScannedNames(path);
    hide Scan, Fragile;
    if Missing(Scan(path), values) {
      MissingIsRefused(Scan(path), values);
    } else {
      SturdyHolds(Scan(path), values);
    }
  }

  /**
    The paths for which the refusal means what it says, whatever the values: those without
    a brace that word-like segments, parameters among them, lead up to a closing brace.
   */
  lemma RefusalExact(path: string)
    ensures (forall values :: BuildPath(path, values).None? <==> Missing(Scan(path), values)) <==> !Fragile(Scan(path))
  {
    var segments := Scan(path);
    if Fragile(segments) {
      var values := AllX(Names(segments));
      FragileBreaks(segments, Names(segments));
      assert !Missing(segments, values) by {
        assert forall s :: s in segments && s.Param? ==> s.name in Names(segments);
      }
      assert BuildPath(path, values).None?;
    } else {
      forall values ensures BuildPath(path, values).None? <==> Missing(segments, values) {
        RefusedIffMissing(path, values);
      }
    }
  }

  lemma ScanStrayBrace()
    ensures Scan("{{a}}") == [Literal('{'), Param("a"), Literal('}')]
  {
    var path := "{{a}}";
    assert path[1..] == Print(Param("a")) + "}";
    PrintedMatches("a", "}");
    assert T.WordRun(path[1..]) == 0 && MatchParam(path).None?;
    assert path[1..][|Print(Param("a"))|..] == "}" && MatchParam("}").None?;
    assert Scan("}") == [Literal('}')] by { assert "}"[1..] == ""; }
    assert Scan(path[1..]) == [Param("a")] + [Literal('}')];
    assert Scan(path) == [Literal('{')] + Scan(path[1..]);
  }

  lemma ReplaceStrayBrace(segments: seq<Segment>, values: map<string, string>)
    requires segments == [Literal('{'), Param("a"), Literal('}')] && values == map["a" := "x"]
    ensures ReplaceAll(segments, values) == Print(Param("x")) + ""
  {
    assert Quote("x") == "x" by { assert "x"[1..] == ""; }
    hide Quote;
    ReplaceCons(Literal('}'), [], values);
    ReplaceCons(Param("a"), [Literal('}')], values);
    ReplaceCons(Literal('{'), [Param("a"), Literal('}')], values);
    assert [Literal('{')] + [Param("a"), Literal('}')] == segments && [Param("a")] + [Literal('}')] == [Param("a"), Literal('}')];
  }

  /** With a stray brace, a path can be refused although every parameter has a value. */
  lemma StrayBraceIsRefused()
    ensures !Missing(Scan("{{a}}"), map["a" := "x"]) && BuildPath("{{a}}", map["a" := "x"]).None?
  {
    ScanStrayBrace();
    hide Scan, Quote;
    ReplaceStrayBrace(Scan("{{a}}"), map["a" := "x"]);
    PrintedMatches("x", "");
    hide ReplaceAll, MatchParam;
    var replaced := Print(Param("x")) + "";
    assert replaced[0..] == replaced;
  }

  function Literals(text: string): seq<Segment> {
    if text == "" then [] else [Literal(text[0])] + Literals(text[1..])
  }

  /** Text without an opening brace is scanned as it is. */
  lemma {:induction false} ScanLiterals(text: string, rest: string)
    requires '{' !in text
    ensures Scan(text + rest) == Literals(text) + Scan(rest)
  {
    if text == "" {
      assert text + rest == rest;
    } else {
      var s := text + rest;
      assert s[0] == text[0] && s[1..] == text[1..] + rest && text[0] in text;
      assert MatchParam(s).None?;
      ScanLiterals(text[1..], rest);
      hide Scan, MatchParam;
      ScanLiteralStep(s);
    }
  }

  lemma ScanLiteralStep(s: string)
    requires s != "" && MatchParam(s).None?
    ensures Scan(s) == [Literal(s[0])] + Scan(s[1..])
  {
    hide MatchParam;
  }

  lemma {:induction false} LiteralsAreSturdy(text: string, segments: seq<Segment>)
    requires '{' !in text
    ensures Fragile(Literals(text) + segments) <==> Fragile(segments)
  {
    if text == "" {
      assert Literals(text) + segments == segments;
    } else {
      var all := Literals(text) + segments;
      assert all[0] == Literal(text[0]) && text[0] in text;
      assert all[1..] == Literals(text[1..]) + segments;
      LiteralsAreSturdy(text[1..], segments);
    }
  }

  /** A colon stops every attempt to close the brace. */
  lemma {:induction false} ColonCloses(word: string, segments: seq<Segment>)
    requires '}' !in word
    ensures !Closable(Literals(word + ":") + segments)
  {
    var all := Literals(word + ":") + segments;
    if word == "" {
      assert all[0] == Literal(':');
    } else {
      assert (word + ":")[1..] == word[1..] + ":" && word[0] in word;
      assert all[0] == Literal(word[0]) && all[1..] == Literals(word[1..] + ":") + segments;
      ColonCloses(word[1..], segments);
    }
  }

  /**
    A parameter written with a pattern after its name is no parameter here, and no values
    make it one: wherever it stands, it leaves a path as fragile as the rest of it is.
   */
  lemma PatternPathIsSturdy(prefix: string, name: string, rest: string)
    requires '{' !in prefix && T.IsIdent(name)
    ensures Fragile(Scan(prefix + ("{" + (name + ":" + rest)))) <==> Fragile(Scan(rest))
  {
    var inner := name + ":" + rest;
    var path := "{" + inner;
    assert '{' !in name + ":" && '}' !in name;
    ScanLiterals(prefix, path);
    LiteralsAreSturdy(prefix, Scan(path));
    PatternIsNoMatch(name, rest);
    ScanLiteralStep(path);
    assert path[1..] == inner;
    ScanLiterals(name + ":", rest);
    LiteralsAreSturdy(name + ":", Scan(rest));
    PatternNotSpellable(name, Scan(rest));
    hide Scan, MatchParam, Spellable, Literals;
    var segments := Literals(name + ":") + Scan(rest);
    assert Scan(path)[1..] == segments;
  }

  lemma PatternIsNoMatch(name: string, rest: string)
    requires T.IsIdent(name)
    ensures MatchParam("{" + (name + ":" + rest)).None?
  {
    var inner := name + ":" + rest;
    assert ("{" + inner)[1..] == inner && inner[|name|] == ':';
    T.WordRunOf(inner, |name|);
  }

  lemma PatternNotSpellable(name: string, segments: seq<Segment>)
    requires T.IsIdent(name)
    ensures !Spellable(Literals(name + ":") + segments)
  {
    var all := Literals(name + ":") + segments;
    assert (name + ":")[1..] == name[1..] + ":";
    assert all[1..] == Literals(name[1..] + ":") + segments;
    ColonCloses(name[1..], segments);
  }

  // ----------------------------------------------------- segments of the filled path

  /** The scanned path between its slashes. */
  function Groups(segments: seq<Segment>): (groups: seq<seq<Segment>>)
    ensures groups != []
  {
    if segments == [] then [[]]
    else if segments[0] == Literal('/') then [[]] + Groups(segments[1..])
    else [[segments[0]] + Groups(segments[1..])[0]] + Groups(segments[1..])[1..]
  }

  function Filled(groups: seq<seq<Segment>>, values: map<string, string>): (filled: seq<string>)
    ensures |filled| == |groups| && forall i :: 0 <= i < |groups| ==> filled[i] == ReplaceAll(groups[i], values)
  {
    if groups == [] then [] else [ReplaceAll(groups[0], values)] + Filled(groups[1..], values)
  }

  /** Text without a slash extends the first segment. */
  lemma {:induction false} SplitAfter(a: string, b: string)
    requires '/' !in a
    ensures P.Split(a + b) == [a + P.Split(b)[0]] + P.Split(b)[1..]
  {
    if a == "" {
      assert a + b == b && a + P.Split(b)[0] == P.Split(b)[0];
    } else {
      assert a == [a[0]] + a[1..];
      assert a + b == [a[0]] + (a[1..] + b);
      P.SplitCons(a[0], a[1..] + b);
      SplitAfter(a[1..], b);
      assert [a[0]] + (a[1..] + P.Split(b)[0]) == a + P.Split(b)[0];
    }
  }

  /**
    Values fill the segments of the path and nothing else: the filled path has the path's
    own segments, in order, each with its literals and encoded values.
   */
  lemma {:induction false} FilledBySegment(segments: seq<Segment>, values: map<string, string>)
    requires forall s :: s in segments && s.Param? ==> T.IsIdent(s.name)
    ensures P.Split(ReplaceAll(segments, values)) == Filled(Groups(segments), values)
  {
    if segments == [] {
      assert Filled(Groups(segments), values) == [""];
    } else {
      var first, rest := segments[0], Groups(segments[1..]);
      assert segments == [first] + segments[1..];
      FilledBySegment(segments[1..], values);
      FilledNext(first, rest, values);
      hide P.Split, Filled, Replaced;
      if first == Literal('/') {
        P.SplitCons('/', ReplaceAll(segments[1..], values));
      } else {
        PieceHasNoSlash(first, values);
        SplitAfter(Replaced(first, values), ReplaceAll(segments[1..], values));
      }
    }
  }

  /** One more segment of the scan opens a new group after a slash and extends the first one otherwise. */
  lemma FilledNext(first: Segment, rest: seq<seq<Segment>>, values: map<string, string>)
    requires rest != []
    ensures Replaced(Literal('/'), values) == ['/']
    ensures Filled(rest, values) != []
    ensures Filled([[]] + rest, values) == [""] + Filled(rest, values)
    ensures Filled([[first] + rest[0]] + rest[1..], values) ==
            [Replaced(first, values) + Filled(rest, values)[0]] + Filled(rest, values)[1..]
  {
    ReplaceCons(first, rest[0], values);
    PlainReplaced(values);
    FilledCons([], rest, values);
    FilledCons([first] + rest[0], rest[1..], values);
    FilledCons(rest[0], rest[1..], values);
    hide ReplaceAll, Replaced, Filled;
    assert [rest[0]] + rest[1..] == rest;
  }

  lemma PlainReplaced(values: map<string, string>)
    ensures ReplaceAll([], values) == "" && Replaced(Literal('/'), values) == ['/']
  {
  }

  lemma FilledCons(group: seq<Segment>, rest: seq<seq<Segment>>, values: map<string, string>)
    ensures Filled([group] + rest, values) == [ReplaceAll(group, values)] + Filled(rest, values)
  {
    assert ([group] + rest)[1..] == rest;
  }

  lemma PieceHasNoSlash(segment: Segment, values: map<string, string>)
    requires segment != Literal('/') && (segment.Param? ==> T.IsIdent(segment.name))
    ensures '/' !in Replaced(segment, values)
  {
    if segment.Param? && segment.name in values {
      QuoteIsQuoted(values[segment.name]);
    }
  }

  /** So values never change how many segments the path has before it is joined to the base URL. */
  lemma SegmentsAreKept(path: string, values: map<string, string>)
    ensures BuildPath(path, values).Some? ==>
              P.Split(BuildPath(path, values).value) == Filled(Groups(Scan(path)), values)
    ensures BuildPath(path, values).Some? ==> |P.Split(BuildPath(path, values).value)| == |P.Split(path)|
  {
    ScannedNames(path);
    ScanKeepsText(path);
    FilledBySegment(Scan(path), values);
    FilledBySegment(Scan(path), map[]);
    hide Scan;
  }

  // ------------------------------------------------------------------- dot segments

  predicate IsDotSegment(s: string) { s == "." || s == ".." }

  predicate OnlyDots(s: string) { forall i :: 0 <= i < |s| ==> s[i] == '.' }

  /** The literals and the values themselves, before encoding. */
  function Spelled(segments: seq<Segment>, values: map<string, string>): string {
    if segments == [] then ""
    else
      var first := segments[0];
      (if first.Param? && first.name in values then values[first.name] else Print(first)) + Spelled(segments[1..], values)
  }

  lemma {:induction false} PercentShows(bytes: seq<Byte>)
    requires bytes != []
    ensures Percent(bytes) != "" && Percent(bytes)[0] == '%'
  {
  }

  /** Encoding leaves dots alone and makes none. */
  lemma {:induction false} QuoteKeepsDots(v: string)
    ensures OnlyDots(Quote(v)) <==> OnlyDots(v)
    ensures OnlyDots(v) ==> Quote(v) == v
  {
    if v != "" {
      QuoteKeepsDots(v[1..]);
      assert v == [v[0]] + v[1..];
      PercentShows(Bytes(v[0]));
      DotsConcat([v[0]], v[1..]);
      var head := if IsUnreserved(v[0]) then [v[0]] else Percent(Bytes(v[0]));
      assert Quote(v) == head + Quote(v[1..]);
      DotsConcat(head, Quote(v[1..]));
    }
  }

  lemma DotsConcat(a: string, b: string)
    ensures OnlyDots(a + b) <==> OnlyDots(a) && OnlyDots(b)
  {
    assert forall i :: 0 <= i < |a| ==> (a + b)[i] == a[i];
    assert forall i :: 0 <= i < |b| ==> (a + b)[|a| + i] == b[i];
  }

  lemma {:induction false} FilledDots(segments: seq<Segment>, values: map<string, string>)
    ensures OnlyDots(ReplaceAll(segments, values)) <==> OnlyDots(Spelled(segments, values))
    ensures OnlyDots(Spelled(segments, values)) ==> ReplaceAll(segments, values) == Spelled(segments, values)
  {
    if segments != [] {
      var first := segments[0];
      FilledDots(segments[1..], values);
      var raw := if first.Param? && first.name in values then values[first.name] else Print(first);
      DotsConcat(raw, Spelled(segments[1..], values));
      DotsConcat(Replaced(first, values), ReplaceAll(segments[1..], values));
      if first.Param? && first.name in values {
        QuoteKeepsDots(values[first.name]);
      }
      hide OnlyDots;
    }
  }

  /**
    A segment of the filled path is "." or "..", which joining it to the base URL removes,
    exactly when the literals and values of that segment spell it.
   */
  lemma {:induction false} DotSegmentIff(path: string, values: map<string, string>, k: nat)
    requires BuildPath(path, values).Some? && k < |Groups(Scan(path))|
    ensures k < |P.Split(BuildPath(path, values).value)|
    ensures IsDotSegment(P.Split(BuildPath(path, values).value)[k]) <==> IsDotSegment(Spelled(Groups(Scan(path))[k], values))
  {
    SegmentsAreKept(path, values);
    hide Scan;
    FilledDots(Groups(Scan(path))[k], values);
    hide ReplaceAll, Spelled, BuildPath;
  }

  /** The value of a segment that is one parameter reaches the path as a dot segment when it is one. */
  lemma DotValueIff(name: string, values: map<string, string>)
    requires name in values
    ensures IsDotSegment(ReplaceAll([Param(name)], values)) <==> IsDotSegment(values[name])
  {
    ReplaceCons(Param(name), [], values);
    assert [Param(name)] + [] == [Param(name)];
    QuoteKeepsDots(values[name]);
    hide Quote;
    assert ReplaceAll([Param(name)], values) == Quote(values[name]);
  }

  /** A path that is one parameter, whose value is the parent directory. */
  lemma ParentValueExample()
    ensures BuildPath("{id}", map["id" := ".."]) == Some("..")
    ensures P.Split("..") == [".."] && IsDotSegment("..")
  {
    var values := map["id" := ".."];
    assert Print(Param("id")) + "" == "{id}";
    PrintedMatches("id", "");
    assert Scan("{id}") == [Param("id")] by {
      assert "{id}"[|Print(Param("id"))|..] == "" && Scan("") == [];
    }
    QuoteKeepsDots("..");
    ReplaceCons(Param("id"), [], values);
    assert [Param("id")] + [] == [Param("id")] && ReplaceAll([], values) == "";
    assert ReplaceAll([Param("id")], values) == "..";
    hide Scan, ReplaceAll, Quote;
    assert forall i :: 0 <= i < 2 ==> ".."[i..][0] == ".."[i];
    assert !HasParameter("..");
    P.SplitWord("..");
  }
}
