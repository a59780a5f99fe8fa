/**
  The two route normalisers whose results are compared as merge keys:
  `_normalize_path` of backend/app/modules/source_scans/java_parser.py (class and method
  path) and of backend/app/modules/source_scans/openapi_parser.py (document path).
 */
module PathNormalizers {

  // ------------------------------------------------------------------ text helpers

  /** `text.split("/")`. */
  function Split(s: string): (segments: seq<string>)
    ensures segments != []
  {
    if s == "" then [""]
    else if s[0] == '/' then [""] + Split(s[1..])
    else [[s[0]] + Split(s[1..])[0]] + Split(s[1..])[1..]
  }

  /** `"/".join(segments)`. */
  function Join(segments: seq<string>): string {
    if segments == [] then ""
    else if |segments| == 1 then segments[0]
    else segments[0] + "/" + Join(segments[1..])
  }

  /** `[segment for segment in segments if segment]`. */
  function NonEmpty(segments: seq<string>): seq<string> {
    if segments == [] then []
    else (if segments[0] != "" then [segments[0]] else []) + NonEmpty(segments[1..])
  }

  function StripLeft(s: string): string {
    if s != "" && s[0] == '/' then StripLeft(s[1..]) else s
  }

  function StripRight(s: string): string {
    if s != "" && s[|s| - 1] == '/' then StripRight(s[..|s| - 1]) else s
  }

  /** `text.strip("/")`. */
  function Strip(s: string): string { StripRight(StripLeft(s)) }

  // -------------------------------------------------------------- the two functions

  function Slashed(segments: seq<string>): string {
    if segments != [] then "/" + Join(segments) else "/"
  }

  /** `_normalize_path` of the Java parser. */
  function JavaPath(classPath: string, methodPath: string): string {
    Slashed(NonEmpty([Strip(classPath), Strip(methodPath)]))
  }

  /** `_normalize_path` of the OpenAPI parser. */
  function OpenApiPath(path: string): string { Slashed(NonEmpty(Split(path))) }

  // ------------------------------------------------------------------ split and join

  predicate IsWord(s: string) { s != "" && '/' !in s }

  predicate Clean(words: seq<string>) { forall word :: word in words ==> IsWord(word) }

  function Words(s: string): seq<string> { NonEmpty(Split(s)) }

  lemma {:induction false} SplitHasNoSlash(s: string)
    ensures forall segment :: segment in Split(s) ==> '/' !in segment
  {
    if s != "" {
      SplitHasNoSlash(s[1..]);
      assert Split(s[1..])[0] in Split(s[1..]);
    }
  }

  lemma {:induction false} NonEmptyIsClean(segments: seq<string>)
    requires forall segment :: segment in segments ==> '/' !in segment
    ensures Clean(NonEmpty(segments))
  {
    if segments != [] {
      NonEmptyIsClean(segments[1..]);
    }
  }

  lemma WordsAreClean(s: string)
    ensures Clean(Words(s))
  {
    SplitHasNoSlash(s);
    NonEmptyIsClean(Split(s));
  }

  lemma {:induction false} NonEmptyConcat(xs: seq<string>, ys: seq<string>)
    ensures NonEmpty(xs + ys) == NonEmpty(xs) + NonEmpty(ys)
  {
    if xs == [] {
      assert xs + ys == ys;
    } else {
      assert (xs + ys)[1..] == xs[1..] + ys;
      NonEmptyConcat(xs[1..], ys);
    }
  }

  lemma {:induction false} NonEmptyKeepsWords(words: seq<string>)
    requires "" !in words
    ensures NonEmpty(words) == words
  {
    if words != [] {
      NonEmptyKeepsWords(words[1..]);
    }
  }

  lemma SplitCons(c: char, s: string)
    ensures Split([c] + s) == if c == '/' then [""] + Split(s) else [[c] + Split(s)[0]] + Split(s)[1..]
  {
    assert ([c] + s)[1..] == s;
  }

  lemma {:induction false} SplitConcat(a: string, b: string)
    ensures Split(a + "/" + b) == Split(a) + Split(b)
  {
    if a == "" {
      assert a + "/" + b == ['/'] + b;
      SplitCons('/', b);
    } else {
      assert a + "/" + b == [a[0]] + (a[1..] + "/" + b);
      SplitCons(a[0], a[1..] + "/" + b);
      SplitConcat(a[1..], b);
    }
  }

  /** Words of a path are found part by part. */
  lemma WordsConcat(a: string, b: string)
    ensures Words(a + "/" + b) == Words(a) + Words(b)
  {
    SplitConcat(a, b);
    NonEmptyConcat(Split(a), Split(b));
  }

  lemma {:induction false} SplitWord(word: string)
    requires '/' !in word
    ensures Split(word) == [word]
  {
    if word != "" {
      SplitWord(word[1..]);
      assert word[0] in word && [word[0]] + word[1..] == word;
    }
  }

  /** Splitting what was joined gives the words back. */
  lemma {:induction false} SplitJoin(words: seq<string>)
    requires Clean(words) && words != []
    ensures Split(Join(words)) == words
  {
    assert words[0] in words;
    SplitWord(words[0]);
    if |words| > 1 {
      SplitJoin(words[1..]);
      SplitConcat(words[0], Join(words[1..]));
    }
  }

  lemma JoinMore(first: string, rest: seq<string>)
    ensures Join([first] + rest) == if rest == [] then first else first + ("/" + Join(rest))
  {
    assert ([first] + rest)[1..] == rest;
  }

  /** Text in front of the first segment is text in front of the join. */
  lemma JoinExtended(c: char, first: string, rest: seq<string>)
    ensures Join([[c] + first] + rest) == [c] + Join([first] + rest)
  {
    hide Join;
    JoinMore(first, rest);
    JoinMore([c] + first, rest);
    if rest != [] {
      var tail := "/" + Join(rest);
      assert ([c] + first) + tail == [c] + (first + tail);
    }
  }

  lemma JoinAfterSlash(segments: seq<string>)
    requires segments != []
    ensures Join([""] + segments) == ['/'] + Join(segments)
  {
    assert ([""] + segments)[1..] == segments;
  }

  /** Joining what was split gives the text back. */
  lemma {:induction false} JoinSplit(s: string)
    ensures Join(Split(s)) == s
  {
    if s != "" {
      JoinSplit(s[1..]);
      var rest := Split(s[1..]);
      JoinExtended(s[0], rest[0], rest[1..]);
      JoinAfterSlash(rest);
      assert rest == [rest[0]] + rest[1..];
      assert s == [s[0]] + s[1..];
    }
  }

  lemma WordsOfJoin(words: seq<string>)
    requires Clean(words)
    ensures Words(Join(words)) == words
  {
    if words == [] {
      assert Words("") == [];
    } else {
      SplitJoin(words);
      NonEmptyKeepsWords(words);
    }
  }

  lemma WordsOfSlashed(segments: seq<string>)
    ensures Words(Slashed(segments)) == Words(Join(segments))
  {
    SplitCons('/', Join(segments));
    NonEmptyConcat([""], Split(Join(segments)));
    assert Slashed(segments) == ['/'] + Join(segments);
  }

  // --------------------------------------------------------------------- stripping

  lemma {:induction false} StripLeftKeepsWords(s: string)
    ensures Words(StripLeft(s)) == Words(s)
    ensures StripLeft(s) != "" ==> StripLeft(s)[0] != '/'
  {
    if s != "" && s[0] == '/' {
      StripLeftKeepsWords(s[1..]);
      NonEmptyConcat([""], Split(s[1..]));
    }
  }

  lemma {:induction false} StripRightKeepsWords(s: string)
    ensures Words(StripRight(s)) == Words(s)
    ensures StripRight(s) != "" ==> StripRight(s)[|StripRight(s)| - 1] != '/' && StripRight(s)[0] == s[0]
  {
    if s != "" && s[|s| - 1] == '/' {
      StripRightKeepsWords(s[..|s| - 1]);
      assert s == s[..|s| - 1] + "/" + "";
      WordsConcat(s[..|s| - 1], "");
      assert Words("") == [];
    }
  }

  predicate Stripped(s: string) { s != "" ==> s[0] != '/' && s[|s| - 1] != '/' }

  lemma StripKeepsWords(s: string)
    ensures Words(Strip(s)) == Words(s) && Stripped(Strip(s))
  {
    hide Split, NonEmpty;
    StripLeftKeepsWords(s);
    StripRightKeepsWords(StripLeft(s));
  }

  /** The Java path without its leading slash. */
  function JavaBody(a: string, b: string): string { Join(NonEmpty([Strip(a), Strip(b)])) }

  lemma JavaBodyCases(a: string, b: string)
    ensures JavaPath(a, b) == "/" + JavaBody(a, b)
    ensures var (x, y) := (Strip(a), Strip(b));
            JavaBody(a, b) == if x == "" then y else if y == "" then x else x + "/" + y
  {
    hide Strip;
    var x, y := Strip(a), Strip(b);
    assert [x, y][1..] == [y] && [y][1..] == [];
    assert NonEmpty([y]) == if y != "" then [y] else [];
    assert NonEmpty([x, y]) == (if x != "" then [x] else []) + NonEmpty([y]);
    assert [x] + [y] == [x, y] && [x] + [] == [x] && [] + NonEmpty([y]) == NonEmpty([y]);
    assert Join([x, y]) == x + "/" + Join([y]);
  }

  lemma JavaBodyIsStripped(a: string, b: string)
    ensures Stripped(JavaBody(a, b)) && Words(JavaBody(a, b)) == Words(a) + Words(b)
  {
    assert Words("") == [];
    hide Strip, Words;
    JavaBodyCases(a, b);
    StripKeepsWords(a);
    StripKeepsWords(b);
    WordsConcat(Strip(a), Strip(b));
    hide JavaBody;
  }

  // ------------------------------------------------------------------ main results

  lemma OpenApiIdempotent(path: string)
    ensures OpenApiPath(OpenApiPath(path)) == OpenApiPath(path)
  {
    hide Split, NonEmpty, Join;
    WordsAreClean(path);
    WordsOfSlashed(Words(path));
    WordsOfJoin(Words(path));
    assert Words(OpenApiPath(path)) == Words(path);
  }

  lemma {:induction false} StrippedIsKept(s: string)
    requires Stripped(s)
    ensures Strip(s) == s && Strip("/" + s) == s
  {
    assert ("/" + s)[1..] == s;
  }

  /** A Java path is unchanged as a class path and as a method path. */
  lemma JavaIdempotent(a: string, b: string)
    ensures JavaPath(JavaPath(a, b), "") == JavaPath(a, b)
    ensures JavaPath("", JavaPath(a, b)) == JavaPath(a, b)
  {
    var body := JavaBody(a, b);
    JavaBodyIsStripped(a, b);
    StrippedIsKept(body);
    StrippedIsKept("");
    JavaBodyCases(a, b);
    JavaBodyCases(JavaPath(a, b), "");
    JavaBodyCases("", JavaPath(a, b));
    hide Strip, JavaBody, JavaPath;
  }

  /** Normalising the Java path as a document path loses the difference between the two. */
  lemma NormalisersAgree(a: string, b: string)
    ensures OpenApiPath(JavaPath(a, b)) == OpenApiPath(a + "/" + b)
  {
    hide Split, NonEmpty, Join, Strip;
    JavaBodyIsStripped(a, b);
    WordsOfSlashed(NonEmpty([Strip(a), Strip(b)]));
    WordsConcat(a, b);
    assert Words(JavaPath(a, b)) == Words(a + "/" + b);
  }

  // ------------------------------------------------------ when the merge keys coincide

  predicate DoubledSlash(s: string) { exists i :: 0 <= i < |s| - 1 && s[i] == '/' && s[i + 1] == '/' }

  lemma DoubledCons(c: char, s: string)
    ensures DoubledSlash([c] + s) <==> (c == '/' && s != "" && s[0] == '/') || DoubledSlash(s)
  {
    var t := [c] + s;
    if c == '/' && s != "" && s[0] == '/' {
      assert t[0] == '/' && t[0 + 1] == '/';
    }
    if DoubledSlash(s) {
      var i :| 0 <= i < |s| - 1 && s[i] == '/' && s[i + 1] == '/';
      assert t[i + 1] == '/' && t[i + 1 + 1] == '/';
    }
    if DoubledSlash(t) {
      var i :| 0 <= i < |t| - 1 && t[i] == '/' && t[i + 1] == '/';
      assert i > 0 ==> s[i - 1] == '/' && s[i - 1 + 1] == '/';
    }
  }

  predicate EndsWithSlash(s: string) { s != "" && s[|s| - 1] == '/' }

  /** The segments after the first are all non-empty when no slash is doubled or last. */
  lemma {:induction false} LaterSegments(s: string)
    ensures "" !in Split(s)[1..] <==> !DoubledSlash(s) && !EndsWithSlash(s)
    ensures Split(s)[0] == "" <==> s == "" || s[0] == '/'
  {
    if s != "" {
      LaterSegments(s[1..]);
      DoubledCons(s[0], s[1..]);
      assert s == [s[0]] + s[1..];
      hide DoubledSlash;
      var rest := Split(s[1..]);
      assert rest == [rest[0]] + rest[1..];
      assert "" in rest <==> rest[0] == "" || "" in rest[1..];
      assert EndsWithSlash(s) <==> EndsWithSlash(s[1..]) || s == "/";
      if s[0] == '/' {
        assert Split(s)[1..] == rest;
      } else {
        assert Split(s)[1..] == rest[1..];
      }
    }
  }

  /** A stripped text is the join of its words exactly when no slash is doubled. */
  lemma NormalIffNoDouble(s: string)
    requires Stripped(s)
    ensures Join(Words(s)) == s <==> !DoubledSlash(s)
  {
    if s != "" {
      LaterSegments(s);
      assert Split(s) == [Split(s)[0]] + Split(s)[1..];
      hide DoubledSlash;
      if !DoubledSlash(s) {
        NonEmptyKeepsWords(Split(s));
        JoinSplit(s);
      }
      if Join(Words(s)) == s {
        WordsAreClean(s);
        assert Words(s) != [];
        SplitJoin(Words(s));
        assert "" !in Split(s);
      }
    }
  }

  lemma DoubledInParts(x: string, y: string)
    requires x != "" && y != "" && Stripped(x) && Stripped(y)
    ensures DoubledSlash(x + "/" + y) <==> DoubledSlash(x) || DoubledSlash(y)
  {
    var s := x + "/" + y;
    if DoubledSlash(x) {
      var i :| 0 <= i < |x| - 1 && x[i] == '/' && x[i + 1] == '/';
      assert s[i] == '/' && s[i + 1] == '/';
    }
    if DoubledSlash(y) {
      var i :| 0 <= i < |y| - 1 && y[i] == '/' && y[i + 1] == '/';
      assert s[|x| + 1 + i] == '/' && s[|x| + 1 + i + 1] == '/';
    }
    if DoubledSlash(s) {
      var i :| 0 <= i < |s| - 1 && s[i] == '/' && s[i + 1] == '/';
      assert s[|x| - 1] == x[|x| - 1] && s[|x| + 1] == y[0];
      assert i < |x| - 1 || i > |x|;
      assert i < |x| - 1 ==> x[i] == '/' && x[i + 1] == '/';
      assert i > |x| ==> y[i - |x| - 1] == '/' && y[i - |x| - 1 + 1] == '/';
    }
  }

  /**
    The route found in the source and the same route written as one document path get
    the same merge key exactly when neither stripped part has a doubled slash.
   */
  lemma KeysCoincideIff(a: string, b: string)
    ensures JavaPath(a, b) == OpenApiPath(a + "/" + b) <==>
            !DoubledSlash(Strip(a)) && !DoubledSlash(Strip(b))
  {
    var (x, y) := (Strip(a), Strip(b));
    StripKeepsWords(a);
    StripKeepsWords(b);
    JavaBodyCases(a, b);
    JavaBodyIsStripped(a, b);
    NormalIffNoDouble(JavaBody(a, b));
    WordsConcat(a, b);
    OpenApiBody(a + "/" + b);
    if x != "" && y != "" {
      DoubledInParts(x, y);
    }
    assert !DoubledSlash("");
    hide DoubledSlash, Strip, JavaBody, JavaPath, Words, OpenApiPath;
    assert ("/" + JavaBody(a, b))[1..] == JavaBody(a, b);
    assert ("/" + Join(Words(a) + Words(b)))[1..] == Join(Words(a) + Words(b));
  }

  lemma OpenApiBody(path: string)
    ensures OpenApiPath(path) == "/" + Join(Words(path))
  {
    hide Split, NonEmpty;
  }

  /** For instance the class path `a//b` by itself. */
  lemma DoubledSlashDiffers()
    ensures JavaPath("a//b", "") != OpenApiPath("a//b" + "/" + "")
  {
    StrippedIsKept("a//b");
    assert DoubledSlash("a//b") by { assert "a//b"[1] == '/' && "a//b"[1 + 1] == '/'; }
    KeysCoincideIff("a//b", "");
    hide JavaPath, OpenApiPath;
  }
}
