/**
  SQL annotation chunks (backend/app/modules/knowledge/chunker.py): the bracket
  scanner `_annotation_end` against a grammar of balanced texts, and `_sql_chunks`.
 */
module Chunker {
  import opened Wrappers

  // ------------------------------------------------------- the reference grammar

  /** One character of a string literal: itself, or a backslash and what it escapes. */
  datatype LitChar = Bare(c: char) | Escape(c: char)

  /** Balanced text: characters, string literals, and groups of balanced text. */
  datatype Item = Plain(c: char) | Literal(chars: seq<LitChar>) | Group(items: seq<Item>)

  predicate IsPlain(c: char) { c != '(' && c != ')' && c != '"' }

  predicate LitOk(chars: seq<LitChar>) {
    forall i :: 0 <= i < |chars| && chars[i].Bare? ==> chars[i].c != '"' && chars[i].c != '\\'
  }

  predicate ItemOk(item: Item)
    decreases item, 1
  {
    match item
    case Plain(c) => IsPlain(c)
    case Literal(chars) => LitOk(chars)
    case Group(items) => WellFormed(items)
  }

  predicate WellFormed(items: seq<Item>)
    decreases items, 0
  {
    items == [] || (ItemOk(items[0]) && WellFormed(items[1..]))
  }

  function PrintChar(ch: LitChar): string {
    match ch case Bare(c) => [c] case Escape(c) => ['\\', c]
  }

  function PrintLit(chars: seq<LitChar>): string {
    if chars == [] then "\"" else PrintChar(chars[0]) + PrintLit(chars[1..])
  }

  function PrintItem(item: Item): string
    decreases item, 1
  {
    match item
    case Plain(c) => [c]
    case Literal(chars) => "\"" + PrintLit(chars)
    case Group(items) => "(" + Print(items) + ")"
  }

  function Print(items: seq<Item>): string
    decreases items, 0
  {
    if items == [] then "" else PrintItem(items[0]) + Print(items[1..])
  }

  /** The text is one parenthesised group. */
  ghost predicate IsAnnotation(text: string) {
    exists items :: WellFormed(items) && text == PrintItem(Group(items))
  }

  // ------------------------------------------------------------------ the scanner

  /** Number of characters read by the time the open groups are closed, if they are. */
  function ScanFrom(s: string, depth: nat, inString: bool, escaped: bool): (r: Option<nat>)
    ensures r.Some? ==> 0 < r.value <= |s|
  {
    if s == "" then None
    else
      var c := s[0];
      if inString then Shift(ScanFrom(s[1..], depth, !(c == '"' && !escaped), c == '\\' && !escaped))
      else if c == '"' then Shift(ScanFrom(s[1..], depth, true, escaped))
      else if c == '(' then Shift(ScanFrom(s[1..], depth + 1, false, escaped))
      else if c == ')' then
        if depth == 1 then Some(1)
        else if depth == 0 then None
        else Shift(ScanFrom(s[1..], depth - 1, false, escaped))
      else Shift(ScanFrom(s[1..], depth, false, escaped))
  }

  function Shift(r: Option<nat>): Option<nat> {
    match r case Some(n) => Some(n + 1) case None => None
  }

  /** One character outside a literal. */
  lemma ScanStep(s: string, depth: nat)
    requires s != "" && depth > 0
    ensures ScanFrom(s, depth, false, false) ==
            if s[0] == ')' && depth == 1 then Some(1)
            else Shift(ScanFrom(s[1..], if s[0] == '(' then depth + 1 else if s[0] == ')' then depth - 1 else depth, s[0] == '"', false))
  {
  }

  lemma ScanStepInside(s: string, depth: nat, escaped: bool)
    requires s != ""
    ensures ScanFrom(s, depth, true, escaped) ==
            Shift(ScanFrom(s[1..], depth, !(s[0] == '"' && !escaped), s[0] == '\\' && !escaped))
  {
  }

  lemma ScanStart(s: string)
    requires s != "" && s[0] == '('
    ensures ScanFrom(s, 0, false, false) == Shift(ScanFrom(s[1..], 1, false, false))
  {
  }

  lemma ScanNothing(depth: nat, inString: bool, escaped: bool)
    ensures ScanFrom("", depth, inString, escaped) == None
  {
  }

  /** `_annotation_end`, called with the index of an opening parenthesis. */
  method AnnotationEnd(content: string, opening: nat) returns (end: Option<nat>)
    requires opening < |content| && content[opening] == '('
    ensures end == match ScanFrom(content[opening..], 0, false, false)
                   case Some(n) => Some(opening + n)
                   case None => None
  {
    hide ScanFrom;
    var depth, inString, escaped := 0, false, false;
    ghost var all := ScanFrom(content[opening..], 0, false, false);
    for index := opening to |content|
      invariant !inString ==> !escaped
      invariant if index == opening then depth == 0 && !inString else depth > 0
      invariant all == ShiftBy(ScanFrom(content[index..], depth, inString, escaped), index - opening)
    {
      ghost var rest := content[index..];
      var character := content[index];
      assert rest[0] == character && rest[1..] == content[index + 1..];
      if inString {
        ScanStepInside(rest, depth, escaped);
      } else if depth > 0 {
        ScanStep(rest, depth);
      } else {
        ScanStart(rest);
      }
      if inString {
        if character == '"' && !escaped {
          inString := false;
        }
        escaped := character == '\\' && !escaped;
      } else if character == '"' {
        inString := true;
      } else if character == '(' {
        depth := depth + 1;
      } else if character == ')' {
        depth := depth - 1;
        if depth == 0 {
          return Some(index + 1);
        }
      }
    }
    assert content[|content|..] == "";
    ScanNothing(depth, inString, escaped);
    return None;
  }

  function ShiftBy(r: Option<nat>, k: nat): Option<nat> {
    match r case Some(n) => Some(n + k) case None => None
  }

  // ------------------------------------------------- the scanner reads the grammar

  lemma ScanBare(c: char, tail: string, depth: nat)
    requires c != '"' && c != '\\'
    ensures ScanFrom([c] + tail, depth, true, false) == ShiftBy(ScanFrom(tail, depth, true, false), 1)
  {
    assert ([c] + tail)[1..] == tail;
  }

  lemma ScanEscape(c: char, tail: string, depth: nat)
    ensures ScanFrom(['\\', c] + tail, depth, true, false) == ShiftBy(ScanFrom(tail, depth, true, false), 2)
  {
    assert (['\\', c] + tail)[1..] == [c] + tail;
    assert ([c] + tail)[1..] == tail;
  }

  lemma ScanChar(ch: LitChar, tail: string, depth: nat)
    requires ch.Bare? ==> ch.c != '"' && ch.c != '\\'
    ensures ScanFrom(PrintChar(ch) + tail, depth, true, false) ==
            ShiftBy(ScanFrom(tail, depth, true, false), |PrintChar(ch)|)
  {
    hide ScanFrom;
    match ch
    case Bare(c) => ScanBare(c, tail, depth);
    case Escape(c) => ScanEscape(c, tail, depth);
  }

  /** Reading a literal body to its closing quote. */
  lemma {:induction false} ScanLiteral(chars: seq<LitChar>, rest: string, depth: nat)
    requires LitOk(chars)
    ensures ScanFrom(PrintLit(chars) + rest, depth, true, false) ==
            ShiftBy(ScanFrom(rest, depth, false, false), |PrintLit(chars)|)
  {
    if chars == [] {
      assert (PrintLit(chars) + rest)[1..] == rest;
    } else {
      hide ScanFrom, PrintChar;
      ScanLiteral(chars[1..], rest, depth);
      ScanChar(chars[0], PrintLit(chars[1..]) + rest, depth);
      assert PrintLit(chars) + rest == PrintChar(chars[0]) + (PrintLit(chars[1..]) + rest);
    }
  }

  /** Balanced text is read through without closing any enclosing group. */
  lemma {:induction false} ScanItems(items: seq<Item>, rest: string, depth: nat)
    requires WellFormed(items) && depth > 0
    ensures ScanFrom(Print(items) + rest, depth, false, false) ==
            ShiftBy(ScanFrom(rest, depth, false, false), |Print(items)|)
    decreases items, 0
  {
    if items == [] {
      assert Print(items) + rest == rest;
    } else {
      var tail := Print(items[1..]) + rest;
      assert Print(items) + rest == PrintItem(items[0]) + tail;
      ScanItem(items[0], tail, depth);
      ScanItems(items[1..], rest, depth);
    }
  }

  lemma {:induction false} ScanItem(item: Item, rest: string, depth: nat)
    requires ItemOk(item) && depth > 0
    ensures ScanFrom(PrintItem(item) + rest, depth, false, false) ==
            ShiftBy(ScanFrom(rest, depth, false, false), |PrintItem(item)|)
    decreases item, 1
  {
    var s := PrintItem(item) + rest;
    match item
    case Plain(c) => assert s[0] == c && s[1..] == rest;
    case Literal(chars) =>
      assert s == ['"'] + (PrintLit(chars) + rest) && s[1..] == PrintLit(chars) + rest;
      ScanLiteral(chars, rest, depth);
    case Group(items) =>
      assert s == ['('] + (Print(items) + ([')'] + rest)) && s[1..] == Print(items) + ([')'] + rest);
      ScanItems(items, [')'] + rest, depth + 1);
      assert ([')'] + rest)[1..] == rest;
  }

  /** One group, scanned from its opening parenthesis, ends where the grammar says. */
  lemma ScanGroup(items: seq<Item>, rest: string)
    requires WellFormed(items)
    ensures ScanFrom(PrintItem(Group(items)) + rest, 0, false, false) == Some(|PrintItem(Group(items))|)
  {
    var s := PrintItem(Group(items)) + rest;
    assert s == ['('] + (Print(items) + ([')'] + rest)) && s[1..] == Print(items) + ([')'] + rest);
    ScanItems(items, [')'] + rest, 1);
  }

  // ----------------------------------------- what the scanner accepts is grammatical

  lemma PrependChar(ch: LitChar, chars: seq<LitChar>, s: string, tail: string)
    requires LitOk([ch]) && LitOk(chars) && PrintLit(chars) <= tail && s == PrintChar(ch) + tail
    ensures LitOk([ch] + chars) && PrintLit([ch] + chars) <= s
    ensures s[|PrintLit([ch] + chars)|..] == tail[|PrintLit(chars)|..]
  {
    assert ([ch] + chars)[1..] == chars;
    assert PrintLit([ch] + chars) == PrintChar(ch) + PrintLit(chars);
    assert LitOk([ch]) ==> ch.Bare? ==> ch.c != '"' && ch.c != '\\';
  }

  /** What an unfinished literal that does get closed starts with. */
  lemma LiteralStep(s: string, depth: nat)
    requires ScanFrom(s, depth, true, false).Some?
    ensures s != ""
    ensures s[0] == '"' ==> ScanFrom(s[1..], depth, false, false).Some?
    ensures s[0] == '\\' ==> |s| > 1 && ScanFrom(s[2..], depth, true, false).Some? && s == PrintChar(Escape(s[1])) + s[2..]
    ensures s[0] != '"' && s[0] != '\\' ==> ScanFrom(s[1..], depth, true, false).Some? && s == PrintChar(Bare(s[0])) + s[1..]
  {
    assert s[0] == '\\' ==> ScanFrom(s[1..], depth, true, true).Some? && s[1..][1..] == s[2..];
  }

  /** A literal body closed within the text. */
  lemma {:induction false} LiteralEnds(s: string, depth: nat) returns (chars: seq<LitChar>)
    requires ScanFrom(s, depth, true, false).Some?
    ensures LitOk(chars) && PrintLit(chars) <= s
    ensures ScanFrom(s[|PrintLit(chars)|..], depth, false, false).Some?
    decreases |s|
  {
    LiteralStep(s, depth);
    hide ScanFrom, PrintChar;
    if s[0] == '"' {
      chars := [];
      assert PrintLit(chars) == ['"'] <= s;
    } else {
      hide PrintLit;
      var ch, n := if s[0] == '\\' then Escape(s[1]) else Bare(s[0]), if s[0] == '\\' then 2 else 1;
      var rest := LiteralEnds(s[n..], depth);
      PrependChar(ch, rest, s, s[n..]);
      chars := [ch] + rest;
    }
  }

  lemma PrependItem(item: Item, items: seq<Item>)
    requires ItemOk(item) && WellFormed(items)
    ensures WellFormed([item] + items) && Print([item] + items) == PrintItem(item) + Print(items)
  {
    assert ([item] + items)[1..] == items;
  }

  /** Text read in front of balanced text and its closing parenthesis. */
  lemma PrependText(s: string, k: nat, m: nat, item: Item, items: seq<Item>)
    requires k <= |s| && m <= |s| - k && ItemOk(item) && WellFormed(items)
    requires s[..k] == PrintItem(item) && s[k..][..m] == Print(items) + ")"
    ensures WellFormed([item] + items) && s[..k + m] == Print([item] + items) + ")"
  {
    hide PrintItem, Print, ItemOk, WellFormed;
    PrependItem(item, items);
    assert s[..k + m] == s[..k] + s[k..][..m];
  }

  /** A scan that ends has read balanced text up to the first parenthesis closing a group. */
  lemma {:induction false} BalancedPart(s: string, depth: nat) returns (items: seq<Item>, k: nat)
    requires depth > 0 && ScanFrom(s, depth, false, false).Some?
    ensures WellFormed(items) && k <= |s| && s[..k] == Print(items) + ")"
    ensures ScanFrom(s, depth, false, false) ==
            if depth == 1 then Some(k) else ShiftBy(ScanFrom(s[k..], depth - 1, false, false), k)
    decreases |s|
  {
    if s[0] == ')' {
      items, k := [], 1;
      assert s[..1] == [')'] && Print([]) + ")" == [')'];
    } else {
      var j, item := FirstItem(s, depth);
      var rest, m := BalancedPart(s[j..], depth);
      items, k := [item] + rest, j + m;
      PrependText(s, j, m, item, rest);
    }
    BalancedEnds(s, depth, items, k);
  }

  lemma BalancedEnds(s: string, depth: nat, items: seq<Item>, k: nat)
    requires depth > 0 && WellFormed(items) && k <= |s| && s[..k] == Print(items) + ")"
    ensures ScanFrom(s, depth, false, false) ==
            if depth == 1 then Some(k) else ShiftBy(ScanFrom(s[k..], depth - 1, false, false), k)
  {
    var rest := [')'] + s[k..];
    assert s == s[..k] + s[k..] && s == Print(items) + rest;
    ScanItems(items, rest, depth);
    assert rest[1..] == s[k..];
  }

  /** The item at the head of a scan that ends and does not close a group at once. */
  lemma {:induction false} FirstItem(s: string, depth: nat) returns (j: nat, item: Item)
    requires depth > 0 && ScanFrom(s, depth, false, false).Some? && s[0] != ')'
    ensures 0 < j <= |s| && ItemOk(item) && s[..j] == PrintItem(item)
    ensures ScanFrom(s[j..], depth, false, false).Some?
    decreases |s|, 0
  {
    var c := s[0];
    if c == '(' {
      var items, k := BalancedPart(s[1..], depth + 1);
      j, item := 1 + k, Group(items);
      assert s[..j] == [c] + s[1..][..k];
      assert s[1..][k..] == s[j..];
    } else if c == '"' {
      var chars := LiteralEnds(s[1..], depth);
      j, item := 1 + |PrintLit(chars)|, Literal(chars);
      assert s[..j] == [c] + s[1..][..j - 1];
      assert s[1..][j - 1..] == s[j..];
    } else {
      j, item := 1, Plain(c);
      assert s[..1] == [c];
    }
  }

  lemma {:induction false} GroupText(s: string, items: seq<Item>, k: nat)
    requires s != "" && s[0] == '(' && k <= |s[1..]| && WellFormed(items) && s[1..][..k] == Print(items) + ")"
    ensures k + 1 <= |s| && IsAnnotation(s[..k + 1])
  {
    hide Print, WellFormed;
    assert s[..k + 1] == ['('] + s[1..][..k];
    assert s[..k + 1] == PrintItem(Group(items));
  }

  lemma {:induction false} ScanSound(s: string, n: nat)
    requires s != "" && s[0] == '(' && ScanFrom(s, 0, false, false) == Some(n)
    ensures n <= |s| && IsAnnotation(s[..n])
  {
    assert ScanFrom(s, 0, false, false) == Shift(ScanFrom(s[1..], 1, false, false));
    hide ScanFrom, IsAnnotation;
    var items, k := BalancedPart(s[1..], 1);
    GroupText(s, items, k);
  }

  lemma ScanComplete(s: string, n: nat)
    requires n <= |s| && IsAnnotation(s[..n])
    ensures ScanFrom(s, 0, false, false) == Some(n)
  {
    hide ScanFrom;
    var items :| WellFormed(items) && s[..n] == PrintItem(Group(items));
    assert s == PrintItem(Group(items)) + s[n..];
    ScanGroup(items, s[n..]);
  }

  /**
    The scanner returns exactly the length of the annotation at the head of the text:
    the one prefix that is a parenthesised group of balanced text, if there is any.
   */
  lemma ScanExact(s: string, n: nat)
    requires s != "" && s[0] == '('
    ensures ScanFrom(s, 0, false, false) == Some(n) <==> n <= |s| && IsAnnotation(s[..n])
  {
    hide ScanFrom, IsAnnotation;
    if ScanFrom(s, 0, false, false) == Some(n) {
      ScanSound(s, n);
    }
    if n <= |s| && IsAnnotation(s[..n]) {
      ScanComplete(s, n);
    }
  }

  /** So the end is unique: no shorter or longer prefix is an annotation. */
  lemma AnnotationUnique(s: string, m: nat, n: nat)
    requires m <= |s| && n <= |s| && IsAnnotation(s[..m]) && IsAnnotation(s[..n])
    ensures m == n
  {
    ScanComplete(s, m);
    ScanComplete(s, n);
  }

  // ------------------------------------------------------------------ SQL chunks

  /** The characters `\s` matches and `strip` removes. */
  predicate IsSpace(c: char) {
    || '\U{09}' <= c <= '\U{0D}' || '\U{1C}' <= c <= ' ' || c == '\U{85}' || c == '\U{A0}' || c == '\U{1680}'
    || '\U{2000}' <= c <= '\U{200A}' || c == '\U{2028}' || c == '\U{2029}' || c == '\U{202F}' || c == '\U{205F}'
    || c == '\U{3000}'
  }

  function SpaceRun(s: string): (n: nat)
    ensures n <= |s|
  {
    if s != "" && IsSpace(s[0]) then 1 + SpaceRun(s[1..]) else 0
  }

  function Keyword(s: string): Option<string> {
    if "Select" <= s then Some("Select")
    else if "Insert" <= s then Some("Insert")
    else if "Update" <= s then Some("Update")
    else if "Delete" <= s then Some("Delete")
    else None
  }

  /** `SQL_ANNOTATION_PATTERN.match`: the annotation and the length up to its parenthesis. */
  function MatchSql(s: string): (r: Option<(string, nat)>)
    ensures r.Some? ==> 1 < r.value.1 <= |s| && s[0] == '@' && s[r.value.1 - 1] == '('
  {
    if s == "" || s[0] != '@' || Keyword(s[1..]).None? then None
    else
      var start := 1 + |Keyword(s[1..]).value|;
      var n := start + SpaceRun(s[start..]);
      if n < |s| && s[n] == '(' then Some((Keyword(s[1..]).value, n + 1)) else None
  }

  const ANNOTATIONS: set<string> := {"Select", "Insert", "Update", "Delete"}

  /** An annotation head of n characters: the sign, a keyword, white space, an opening parenthesis. */
  ghost predicate IsHead(s: string, annotation: string, n: nat) {
    annotation in ANNOTATIONS && |annotation| + 2 <= n <= |s| && s[0] == '@' && s[n - 1] == '(' &&
    annotation == s[1..|annotation| + 1] && forall i :: |annotation| < i < n - 1 ==> IsSpace(s[i])
  }

  lemma {:induction false} SpaceRunExact(s: string, n: nat)
    requires n <= |s|
    ensures SpaceRun(s) == n <==> (forall i :: 0 <= i < n ==> IsSpace(s[i])) && (n < |s| ==> !IsSpace(s[n]))
  {
    hide IsSpace;
    if s != "" && IsSpace(s[0]) && n > 0 {
      SpaceRunExact(s[1..], n - 1);
      assert forall i :: 0 < i < n ==> s[i] == s[1..][i - 1];
      assert forall i :: 0 <= i < n - 1 ==> s[1..][i] == s[i + 1];
    }
  }

  lemma KeywordExact(s: string, annotation: string)
    ensures Keyword(s) == Some(annotation) <==> annotation in ANNOTATIONS && annotation <= s
  {
    assert |"Select"| == |"Insert"| == |"Update"| == |"Delete"|;
    if annotation in ANNOTATIONS && annotation <= s {
      assert annotation[0] == s[0];
    }
  }

  /** The pattern matches exactly at the heads of annotations. */
  lemma MatchSqlExact(s: string, annotation: string, n: nat)
    ensures MatchSql(s) == Some((annotation, n)) <==> IsHead(s, annotation, n)
  {
    if s != "" {
      KeywordExact(s[1..], annotation);
      if |annotation| < |s| && n >= |annotation| + 2 && n <= |s| {
        var start := 1 + |annotation|;
        SpaceRunExact(s[start..], n - 1 - start);
        assert s[n - 1] == '(' ==> !IsSpace(s[n - 1]);
        assert forall i :: start <= i < |s| ==> s[i] == s[start..][i - start];
        assert forall i :: 0 <= i < |s| - start ==> s[start..][i] == s[i + start];
        assert annotation <= s[1..] <==> annotation == s[1..start];
      }
    }
    hide IsSpace, SpaceRun, Keyword;
  }

  datatype Span = Span(annotation: string, start: nat, end: nat)

  /** The spans that start where the scanner stands, and where it goes on. */
  function SpanAt(content: string, from: nat): (r: (seq<Span>, nat))
    requires from < |content|
    ensures from < r.1 <= |content|
  {
    match MatchSql(content[from..])
    case None => ([], from + 1)
    case Some((annotation, n)) =>
      (match ScanFrom(content[from + n - 1..], 0, false, false)
       case Some(k) => [Span(annotation, from, from + n - 1 + k)]
       case None => [], from + n)
  }

  /** The annotations `finditer` meets from an index on, those that never close left out. */
  function Spans(content: string, from: nat): (spans: seq<Span>)
    requires from <= |content|
    decreases |content| - from
  {
    if from == |content| then []
    else SpanAt(content, from).0 + Spans(content, SpanAt(content, from).1)
  }

  function Newlines(s: string): nat {
    if s == "" then 0 else Newlines(s[..|s| - 1]) + if s[|s| - 1] == '\n' then 1 else 0
  }

  function StripLeft(s: string): string {
    if s != "" && IsSpace(s[0]) then StripLeft(s[1..]) else s
  }

  function StripRight(s: string): string {
    if s != "" && IsSpace(s[|s| - 1]) then StripRight(s[..|s| - 1]) else s
  }

  function Strip(s: string): string { StripRight(StripLeft(s)) }

  datatype SqlChunk = SqlChunk(content: string, startLine: nat, endLine: nat, annotation: string)

  function ChunkOf(content: string, span: Span): SqlChunk
    requires IsWithin(content, span)
  {
    SqlChunk(Strip(content[span.start..span.end]), Newlines(content[..span.start]) + 1,
             Newlines(content[..span.end]) + 1, span.annotation)
  }

  lemma {:induction false} NewlinesExact(s: string)
    ensures Newlines(s) == |set i | 0 <= i < |s| && s[i] == '\n'|
  {
    var all := set i | 0 <= i < |s| && s[i] == '\n';
    if s != "" {
      var n := |s| - 1;
      NewlinesExact(s[..n]);
      var before := set i | 0 <= i < |s[..n]| && s[..n][i] == '\n';
      assert all == if s[n] == '\n' then before + {n} else before;
    }
  }

  lemma NewlinesBefore(content: string, k: nat)
    requires k <= |content|
    ensures Newlines(content[..k]) == |set i | 0 <= i < k && content[i] == '\n'|
  {
    NewlinesExact(content[..k]);
    hide Newlines;
    assert (set i | 0 <= i < |content[..k]| && content[..k][i] == '\n') == (set i | 0 <= i < k && content[i] == '\n');
  }

  lemma {:induction false} NewlinesConcat(a: string, b: string)
    ensures Newlines(a + b) == Newlines(a) + Newlines(b)
  {
    if b == "" {
      assert a + b == a;
    } else {
      assert (a + b)[..|a + b| - 1] == a + b[..|b| - 1];
      NewlinesConcat(a, b[..|b| - 1]);
    }
  }

  /** Every span is an annotation: its text ends with a parenthesised balanced group. */
  ghost predicate IsSpan(content: string, span: Span) {
    span.start < span.end <= |content| &&
    exists n: nat :: IsHead(content[span.start..], span.annotation, n) &&
      span.start + n - 1 <= span.end && IsAnnotation(content[span.start + n - 1..span.end])
  }

  lemma SpanAtIsAnnotation(content: string, from: nat)
    requires from < |content|
    ensures forall span :: span in SpanAt(content, from).0 ==> IsSpan(content, span)
  {
    hide MatchSql, ScanFrom, IsAnnotation, IsHead;
    var m := MatchSql(content[from..]);
    if m.Some? {
      var (annotation, n) := m.value;
      MatchSqlExact(content[from..], annotation, n);
      var tail := content[from + n - 1..];
      assert tail[0] == content[from..][n - 1];
      var k := ScanFrom(tail, 0, false, false);
      if k.Some? {
        ScanExact(tail, k.value);
        assert tail[..k.value] == content[from + n - 1..from + n - 1 + k.value];
        assert IsSpan(content, Span(annotation, from, from + n - 1 + k.value));
      }
    }
  }

  /** No second annotation can begin inside the head of a match. */
  lemma HeadHasNoAt(s: string, annotation: string, n: nat)
    requires MatchSql(s) == Some((annotation, n))
    ensures forall j :: 0 < j < n ==> s[j] != '@'
  {
    var start := 1 + |Keyword(s[1..]).value|;
    var spaces := SpaceRun(s[start..]);
    SpacesAreSpaces(s[start..]);
    forall j | 0 < j < n ensures s[j] != '@' {
      if j < start {
        assert s[j] == s[1..][j - 1] == Keyword(s[1..]).value[j - 1];
      } else if j < start + spaces {
        assert s[j] == s[start..][j - start];
      }
    }
  }

  lemma {:induction false} SpacesAreSpaces(s: string)
    ensures forall j :: 0 <= j < SpaceRun(s) ==> IsSpace(s[j])
  {
    if s != "" && IsSpace(s[0]) {
      SpacesAreSpaces(s[1..]);
      assert forall j :: 0 < j < SpaceRun(s) ==> s[j] == s[1..][j - 1];
    }
  }

  lemma SliceOfTail(s: string, from: nat, end: nat)
    requires from <= end <= |s|
    ensures s[from..][..end - from] == s[from..end]
  {
  }

  /** An annotation is at a position exactly when the scanner yields it there. */
  lemma SpanAtExact(content: string, span: Span)
    requires IsSpan(content, span)
    ensures span.start < |content| && SpanAt(content, span.start).0 == [span]
  {
    hide MatchSql, ScanFrom, IsAnnotation;
    var n: nat :| IsHead(content[span.start..], span.annotation, n) &&
      span.start + n - 1 <= span.end && IsAnnotation(content[span.start + n - 1..span.end]);
    MatchSqlExact(content[span.start..], span.annotation, n);
    var tail := content[span.start + n - 1..];
    SliceOfTail(content, span.start + n - 1, span.end);
    ScanComplete(tail, span.end - (span.start + n - 1));
  }

  /** The scanner steps over no annotation. */
  lemma NextIsNear(content: string, from: nat, start: nat)
    requires from < start < |content| && content[start] == '@'
    ensures SpanAt(content, from).1 <= start
  {
    var m := MatchSql(content[from..]);
    if m.Some? {
      HeadHasNoAt(content[from..], m.value.0, m.value.1);
      hide MatchSql, ScanFrom;
      assert content[start] == content[from..][start - from];
    }
  }

  lemma SpanAtShape(content: string, from: nat)
    requires from < |content|
    ensures |SpanAt(content, from).0| <= 1 && forall span :: span in SpanAt(content, from).0 ==> span.start == from
  {
    hide MatchSql, ScanFrom;
  }

  /** Every annotation from an index on is found, and nothing else, in the order of their starts. */
  lemma {:induction false} SpansExact(content: string, from: nat)
    requires from <= |content|
    ensures forall span: Span :: span in Spans(content, from) <==> span.start >= from && IsSpan(content, span)
    ensures forall i, j :: 0 <= i < j < |Spans(content, from)| ==> Spans(content, from)[i].start < Spans(content, from)[j].start
    decreases |content| - from
  {
    hide SpanAt, IsSpan;
    if from == |content| {
      forall span | IsSpan(content, span) ensures span.start < |content| {
        SpanAtExact(content, span);
      }
    } else {
      var (now, next) := SpanAt(content, from);
      SpansExact(content, next);
      SpanAtIsAnnotation(content, from);
      SpanAtShape(content, from);
      forall span: Span | span.start >= from && IsSpan(content, span) ensures span in Spans(content, from) {
        SpanAtExact(content, span);
        if span.start > from {
          SpanText(content, span);
          NextIsNear(content, from, span.start);
          hide Spans;
          assert span in Spans(content, next);
        }
      }
      forall i, j | 0 <= i < j < |Spans(content, from)|
        ensures Spans(content, from)[i].start < Spans(content, from)[j].start
      {
        var later := Spans(content, next);
        assert Spans(content, from) == now + later;
        hide Spans;
        assert later[j - |now|] in later;
        assert i < |now| ==> now[i] in now;
      }
    }
  }

  lemma StripsNothing(s: string)
    requires s != "" && !IsSpace(s[0]) && !IsSpace(s[|s| - 1])
    ensures Strip(s) == s
  {
  }

  /** The text of a span begins with the at sign and ends with the closing parenthesis. */
  lemma SpanText(content: string, span: Span)
    requires IsSpan(content, span)
    ensures IsWithin(content, span) && span.start < span.end
    ensures content[span.start] == '@' && content[span.end - 1] == ')'
  {
    hide IsAnnotation, WellFormed, Print;
    var n: nat :| IsHead(content[span.start..], span.annotation, n) &&
      span.start + n - 1 <= span.end && IsAnnotation(content[span.start + n - 1..span.end]);
    AnnotationEnds(content[span.start + n - 1..span.end]);
    assert content[span.start] == content[span.start..][0];
  }

  lemma AnnotationEnds(text: string)
    requires IsAnnotation(text)
    ensures text != "" && text[|text| - 1] == ')'
  {
    hide WellFormed, Print;
    var items :| WellFormed(items) && text == PrintItem(Group(items));
    assert text == "(" + Print(items) + ")";
  }

  /**
    Every SQL chunk is the whole text of one annotation, and its line range covers exactly
    the lines of that text: it starts on the line after the line breaks in front of the
    annotation, and has one line more than its content has line breaks.
   */
  lemma ChunkLines(content: string, span: Span)
    requires IsSpan(content, span)
    ensures IsWithin(content, span)
    ensures var c := ChunkOf(content, span);
            && c.content == content[span.start..span.end]
            && c.startLine == 1 + |set i | 0 <= i < span.start && content[i] == '\n'|
            && c.startLine <= c.endLine && c.annotation == span.annotation
            && c.endLine - c.startLine == Newlines(c.content)
            && c.endLine <= Newlines(content) + 1
  {
    SpanText(content, span);
    NewlinesBefore(content, span.start);
    hide IsSpan, Newlines, Strip;
    var text := content[span.start..span.end];
    StripsNothing(text);
    assert content[..span.end] == content[..span.start] + text;
    NewlinesConcat(content[..span.start], text);
    assert content == content[..span.end] + content[span.end..];
    NewlinesConcat(content[..span.end], content[span.end..]);
  }

  predicate IsWithin(content: string, span: Span) { span.start <= span.end <= |content| }

  /** What the loop of `_sql_chunks` has produced by the time it stands at a position. */
  ghost predicate Produced(content: string, position: nat, chunks: seq<SqlChunk>) {
    var all := Spans(content, 0);
    && position <= |content| && |chunks| <= |all| && all[|chunks|..] == Spans(content, position)
    && (forall i :: 0 <= i < |all| ==> IsSpan(content, all[i]) && IsWithin(content, all[i]))
    && forall i :: 0 <= i < |chunks| ==> chunks[i] == ChunkOf(content, all[i])
  }

  lemma ProducedAtStart(content: string)
    ensures Produced(content, 0, [])
  {
    var all := Spans(content, 0);
    SpansExact(content, 0);
    assert all[0..] == all;
    hide Spans, IsHead, IsAnnotation;
    forall i | 0 <= i < |all| ensures IsSpan(content, all[i]) && IsWithin(content, all[i]) {
      assert all[i] in all;
    }
    hide IsSpan, IsWithin, ChunkOf;
  }

  lemma ProducedAtEnd(content: string, chunks: seq<SqlChunk>)
    requires Produced(content, |content|, chunks)
    ensures |chunks| == |Spans(content, 0)|
    ensures forall i :: 0 <= i < |chunks| ==>
              && IsSpan(content, Spans(content, 0)[i]) && IsWithin(content, Spans(content, 0)[i])
              && chunks[i] == ChunkOf(content, Spans(content, 0)[i])
  {
    hide IsSpan, IsWithin, ChunkOf, SpanAt;
  }

  lemma ProducedStep(content: string, position: nat, chunks: seq<SqlChunk>)
    requires position < |content| && Produced(content, position, chunks)
    ensures var (now, next) := SpanAt(content, position);
            && (forall i :: 0 <= i < |now| ==> IsWithin(content, now[i]))
            && (now == [] ==> Produced(content, next, chunks))
            && (|now| == 1 ==> Produced(content, next, chunks + [ChunkOf(content, now[0])]))
  {
    hide SpanAt, IsSpan, IsWithin, ChunkOf;
    var all := Spans(content, 0);
    var (now, next) := SpanAt(content, position);
    assert all[|chunks|..] == now + Spans(content, next);
    hide Spans;
    assert all[|chunks| + |now|..] == all[|chunks|..][|now|..];
    assert forall i :: 0 <= i < |now| ==> now[i] == all[|chunks|..][i] == all[|chunks| + i];
  }

  lemma SpanAtMatch(content: string, from: nat, annotation: string, n: nat, end: Option<nat>)
    requires from < |content| && MatchSql(content[from..]) == Some((annotation, n))
    requires end == match ScanFrom(content[from + n - 1..], 0, false, false)
                    case Some(k) => Some(from + n - 1 + k)
                    case None => None
    ensures SpanAt(content, from) == (if end.Some? then [Span(annotation, from, end.value)] else [], from + n)
  {
    hide ScanFrom, MatchSql;
  }

  lemma MatchOpens(content: string, from: nat, annotation: string, n: nat)
    requires from < |content| && MatchSql(content[from..]) == Some((annotation, n))
    ensures 0 < n && from + n <= |content| && content[from + n - 1] == '('
  {
    assert content[from..][n - 1] == content[from + n - 1];
  }

  /** `_sql_chunks`. */
  method SqlChunks(content: string) returns (chunks: seq<SqlChunk>)
    ensures |chunks| == |Spans(content, 0)|
    ensures forall i :: 0 <= i < |chunks| ==>
              && IsSpan(content, Spans(content, 0)[i]) && IsWithin(content, Spans(content, 0)[i])
              && chunks[i] == ChunkOf(content, Spans(content, 0)[i])
  {
    hide *;
    chunks := [];
    ProducedAtStart(content);
    var position := 0;
    while position < |content|
      invariant 0 <= position <= |content| && Produced(content, position, chunks)
    {
      ProducedStep(content, position, chunks);
      var m := MatchSql(content[position..]);
      if m.None? {
        SpanAtNothing(content, position);
        position := position + 1;
      } else {
        var (annotation, n) := m.value;
        MatchOpens(content, position, annotation, n);
        var end := AnnotationEnd(content, position + n - 1);
        SpanAtMatch(content, position, annotation, n, end);
        if end.Some? {
          assert IsWithin(content, SpanAt(content, position).0[0]);
          chunks := chunks + [ChunkOf(content, Span(annotation, position, end.value))];
        }
        position := position + n;
      }
    }
    ProducedAtEnd(content, chunks);
  }

  lemma SpanAtNothing(content: string, from: nat)
    requires from < |content| && MatchSql(content[from..]).None?
    ensures SpanAt(content, from) == ([], from + 1)
  {
  }
}
