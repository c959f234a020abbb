/**
 * The writers read back through the pattern: a rewritten import is again
 * an import statement that the scanner finds whole, with a single-quoted
 * specifier and the trimmed bindings; a statement built by the require
 * writers is a require-form match, which the dispatch skips.
 */
module RoundTrip {
  import opened Wrappers
  import opened JsString
  import opened Pattern
  import opened Completeness
  import opened Writers
  import opened Rewriter

  predicate NoQuote(s: string) {
    forall i :: 0 <= i < |s| ==> !IsQuote(s[i])
  }

  /** `'spec'` at `q`, with no single quote inside `spec`, reads as that specifier. */
  lemma SingleQuotedAt(s: string, q: nat, spec: string)
    requires GoodSpec(spec, '\'') && q + |spec| + 2 <= |s|
    requires s[q..q + |spec| + 2] == QuotedText('\'', spec)
    ensures QuotedAt(s, q) == Some(Quoted(spec, '\'', q + |spec| + 2))
  {
    QuotedRecognized(s, q, '\'', spec);
  }

  /** Where `s` holds characters without quotes, no `from` clause can start four or five characters earlier. */
  lemma NoFromClause(s: string, x: nat)
    requires x + 6 <= |s| && !IsQuote(s[x + 4]) && !IsQuote(s[x + 5])
    ensures FromClause(s, x).None?
  {
  }

  /** ` from '<target>';` as the import writer emits it: the `from` clause matches with the space and the semicolon. */
  lemma WrittenFromClause(s: string, j: nat, target: string, end: nat)
    requires GoodSpec(target, '\'')
    requires end == j + |target| + 8 && end <= |s| && s[j..end] == "from " + QuotedText('\'', target) + ";"
    ensures FromClause(s, j) == Some(Tail(target, '\'', true, true, end))
  {
    FromPieces(s, j, target, end);
    SingleQuotedAt(s, j + 5, target);
  }

  /** The pieces of ` from '<target>';` at `j`, where the `from` clause looks at them. */
  lemma FromPieces(s: string, j: nat, target: string, end: nat)
    requires end == j + |target| + 8 && end <= |s| && s[j..end] == "from " + QuotedText('\'', target) + ";"
    ensures s[j..j + 4] == "from" && s[j + 4] == ' ' && s[end - 1] == ';'
    ensures s[j + 5..j + 5 + |target| + 2] == QuotedText('\'', target)
  {
    var e := QuotedText('\'', target);
    assert "from " + e + ";" == "from " + (e + ";");
    SplitAt(s, j, "from ", e + ";");
    SplitAt(s, j + 5, e, ";");
    assert s[j..j + 4] == "from" by { assert s[j..j + 4] == s[j..j + 5][..4]; }
    assert s[j + 4] == s[j..j + 5][4] == ' ';
    assert s[j + 5 + |e|] == s[j + 5 + |e|..j + 5 + |e| + 1][0] == ';';
  }

  /** Over padded bindings without quotes or line terminators, followed by `from `, the lazy group cannot stop early. */
  lemma BindingsDoNotStop(s: string, k: nat, b: string)
    requires NoLineTerminator(b) && NoQuote(b)
    requires k + |b| + 5 <= |s| && s[k..k + |b| + 5] == b + "from "
    ensures forall x :: k <= x < k + |b| ==> ClauseAt(FromPart, s, x).None? && !IsLineTerminator(s[x])
  {
    var u := b + "from ";
    assert forall y :: k <= y < k + |b| + 5 ==> s[y] == u[y - k] by {
      forall y | k <= y < k + |b| + 5 ensures s[y] == u[y - k] { assert s[y] == s[k..k + |b| + 5][y - k]; }
    }
    assert forall i :: 0 <= i < |u| ==> !IsQuote(u[i]) by {
      forall i | 0 <= i < |u| ensures !IsQuote(u[i]) { if i < |b| { assert u[i] == b[i]; } }
    }
    forall x | k <= x < k + |b|
      ensures ClauseAt(FromPart, s, x).None? && !IsLineTerminator(s[x])
    {
      assert u[x - k] == b[x - k];
      NoFromClause(s, x);
    }
  }

  /** A slice of the text at `p` is the same slice of `s`, shifted by `p`. */
  lemma SubSlice(s: string, p: nat, n: nat, i: nat, k: nat)
    requires p + n <= |s| && i <= k <= n
    ensures s[p + i..p + k] == s[p..p + n][i..k]
  {
    var u, w := s[p + i..p + k], s[p..p + n][i..k];
    assert forall x :: 0 <= x < |u| ==> u[x] == w[x];
  }

  /** The import writer's output, cut where the scanner looks at it. */
  lemma PipeImportPieces(r: string, imports: string, target: string)
    requires r == PipeImport(imports, target)
    ensures |r| == |imports| + |target| + 16
    ensures r[..6] == "import"
    ensures r[6..|imports| + 8] == " " + imports + " "
    ensures r[6..|imports| + 13] == " " + imports + " " + "from "
    ensures r[|imports| + 8..] == "from " + QuotedText('\'', target) + ";"
  {
    var b := " " + imports + " ";
    var e := QuotedText('\'', target);
    assert r == "import" + b + "from " + e + ";";
    assert r == "import" + (b + ("from " + e + ";"));
    assert r[6..] == b + ("from " + e + ";");
    assert r[6..][..|b| + 5] == b + "from ";
  }

  /** Where the import writer's output sits at `p`, its pieces sit at the matching offsets of `s`. */
  lemma WrittenImportSlices(s: string, p: nat, r: string, imports: string, target: string)
    requires r == PipeImport(imports, target)
    requires p + |r| <= |s| && s[p..p + |r|] == r
    ensures |r| == |imports| + |target| + 16
    ensures s[p..p + 6] == "import"
    ensures s[p + 6..p + |imports| + 13] == " " + imports + " " + "from "
    ensures s[p + 6..p + |imports| + 8] == " " + imports + " "
    ensures s[p + |imports| + 8..p + |imports| + |target| + 16] == "from " + QuotedText('\'', target) + ";"
  {
    PipeImportPieces(r, imports, target);
    SubSlice(s, p, |r|, 0, 6);
    SubSlice(s, p, |r|, 6, |imports| + 8);
    SubSlice(s, p, |r|, 6, |imports| + 13);
    SubSlice(s, p, |r|, |imports| + 8, |r|);
  }

  /** The writer pads the bindings with one space on each side, adding no quote and no line terminator. */
  lemma WrittenBindings(imports: string)
    requires NoLineTerminator(imports) && NoQuote(imports)
    ensures NoLineTerminator(" " + imports + " ") && NoQuote(" " + imports + " ")
  {
    var b := " " + imports + " ";
    forall i | 0 < i < |b| - 1 ensures b[i] == imports[i - 1] { }
  }

  /** Over such bindings, the lazy group stops right before the `from` that follows them. */
  lemma BindingsStop(s: string, k: nat, b: string, j: nat)
    requires NoLineTerminator(b) && NoQuote(b)
    requires j == k + |b| && j + 5 <= |s| && s[k..j + 5] == b + "from "
    requires ClauseAt(FromPart, s, j).Some?
    ensures LazyEnd(FromPart, s, k) == Some(j)
  {
    BindingsDoNotStop(s, k, b);
    LazyEndAt(FromPart, s, k, j);
  }

  /** The import alternative at `p` succeeds with the match built from where its lazy part stops and the `from` clause there. */
  lemma ImportAtFrom(s: string, p: nat, j: nat, t: Tail)
    requires p + 6 <= |s| && s[p..p + 6] == "import"
    requires LazyEnd(FromPart, s, p + 6) == Some(j) && FromClause(s, j) == Some(t)
    ensures p + 6 <= j < t.end <= |s| && ImportAt(s, p) == Some(ImportMatch(s, p, j, t))
  {
  }

  /** The import alternative is tried first: when it matches, that is the match at `p`. */
  lemma ImportFirst(s: string, p: nat, m: RegexMatch)
    requires p <= |s| && ImportAt(s, p) == Some(m)
    ensures MatchAt(s, p) == Some(m)
  {
  }

  /** The match of an import whose specifier is single-quoted: group 1 the bindings, group 3 the specifier. */
  lemma SingleQuotedImportMatch(s: string, p: nat, j: nat, t: Tail, r: string, b: string)
    requires p + 6 <= j < t.end <= |s| && t.quote == '\'' && s[p..t.end] == r && s[p + 6..j] == b
    ensures ImportMatch(s, p, j, t) == RegexMatch(p, t.end, r, [Some(b), None, Some(t.spec), None, None, None])
  {
    assert QuoteGroups(t) == [None, Some(t.spec)];
  }

  /** The import alternative at `p` succeeds with the match built from where its lazy part stops and the single-quoted `from` clause there. */
  lemma ImportAtIs(s: string, p: nat, j: nat, t: Tail, r: string, b: string)
    requires p + 6 <= |s| && s[p..p + 6] == "import"
    requires LazyEnd(FromPart, s, p + 6) == Some(j) && FromClause(s, j) == Some(t)
    requires t.quote == '\'' && t.end <= |s| && s[p..t.end] == r && p + 6 <= j <= |s| && s[p + 6..j] == b
    ensures ImportAt(s, p) == Some(RegexMatch(p, t.end, r, [Some(b), None, Some(t.spec), None, None, None]))
  {
    ImportAtFrom(s, p, j, t);
    SingleQuotedImportMatch(s, p, j, t, r, b);
  }

  /** Where the import writer's output sits at `p`, the lazy bindings stop before `from` and the `from` clause takes the quoted target with the space and the semicolon. */
  lemma WrittenImportParts(s: string, p: nat, r: string, imports: string, target: string, j: nat, t: Tail)
    requires NoLineTerminator(imports) && NoQuote(imports) && GoodSpec(target, '\'')
    requires r == PipeImport(imports, target)
    requires p + |r| <= |s| && s[p..p + |r|] == r
    requires j == p + |imports| + 8 && t == Tail(target, '\'', true, true, p + |r|)
    ensures p + 6 <= |s| && s[p..p + 6] == "import"
    ensures LazyEnd(FromPart, s, p + 6) == Some(j) && FromClause(s, j) == Some(t)
    ensures t.quote == '\'' && t.end <= |s| && s[p..t.end] == r && p + 6 <= j <= |s| && s[p + 6..j] == " " + imports + " "
  {
    WrittenImportSlices(s, p, r, imports, target);
    assert s[j..p + |r|] == "from " + QuotedText('\'', target) + ";";
    assert s[p + 6..j + 5] == " " + imports + " " + "from ";
    WrittenFromClause(s, j, target, p + |r|);
    assert ClauseAt(FromPart, s, j).Some?;
    WrittenBindings(imports);
    BindingsStop(s, p + 6, " " + imports + " ", j);
  }

  /** The import alternative alone, on the import writer's output at `p`. */
  lemma WrittenImportAt(s: string, p: nat, r: string, imports: string, target: string)
    requires NoLineTerminator(imports) && NoQuote(imports) && GoodSpec(target, '\'')
    requires r == PipeImport(imports, target)
    requires p + |r| <= |s| && s[p..p + |r|] == r
    ensures ImportAt(s, p) == Some(RegexMatch(p, p + |r|, r, [Some(" " + imports + " "), None, Some(target), None, None, None]))
  {
    var j := p + |imports| + 8;
    var t := Tail(target, '\'', true, true, p + |r|);
    WrittenImportParts(s, p, r, imports, target, j, t);
    ImportAtIs(s, p, j, t, r, " " + imports + " ");
  }

  /**
   * Completeness of the scanner on the import writer's output: where
   * `import <bindings> from '<target>';` sits at `p`, the pattern matches
   * exactly that statement there, with group 1 the bindings padded by the
   * two spaces and group 3 the target.
   */
  lemma ImportRecognizedAt(s: string, p: nat, r: string, imports: string, target: string)
    requires NoLineTerminator(imports) && NoQuote(imports) && GoodSpec(target, '\'')
    requires r == PipeImport(imports, target)
    requires p + |r| <= |s| && s[p..p + |r|] == r
    ensures MatchAt(s, p) == Some(RegexMatch(p, p + |r|, r, [Some(" " + imports + " "), None, Some(target), None, None, None]))
  {
    WrittenImportAt(s, p, r, imports, target);
    ImportFirst(s, p, RegexMatch(p, p + |r|, r, [Some(" " + imports + " "), None, Some(target), None, None, None]));
  }

  /** The record the pattern makes of a written import has the dispatch rewrite it as an import of its trimmed bindings. */
  lemma ClassifyWrittenImport(m: RegexMatch, imports: string, target: string)
    requires target != "" && m.groups == [Some(" " + imports + " "), None, Some(target), None, None, None]
    ensures ImportBindingsPresent(m) && Classify(m) == Rewrite(Import, Trim(imports), target)
  {
    assert m.At(1) == Some(" " + imports + " ") && m.At(2).None? && m.At(3) == Some(target);
    assert m.At(6).None? && m.At(7).None?;
    assert Classify(m) == Rewrite(Import, Trim(" " + imports + " "), target);
    PaddedTrim(imports);
  }

  /** The import writer's output, on its own, is read back as one import statement with its bindings and target. */
  lemma PipeImportReadsBack(r: string, imports: string, target: string)
    requires NoLineTerminator(imports) && NoQuote(imports) && GoodSpec(target, '\'')
    requires r == PipeImport(imports, target)
    ensures FindMatch(r, 0) == Some(RegexMatch(0, |r|, r, [Some(" " + imports + " "), None, Some(target), None, None, None]))
    ensures Classify(FindMatch(r, 0).value) == Rewrite(Import, Trim(imports), target)
  {
    ImportRecognizedAt(r, 0, r, imports, target);
    assert FindMatch(r, 0) == MatchAt(r, 0);
    ClassifyWrittenImport(FindMatch(r, 0).value, imports, target);
  }

  /** The require writers' keywords. */
  predicate RequireKeyword(kw: string) {
    kw == "const" || kw == "let" || kw == "var"
  }

  /** A generic require statement, cut where the scanner looks at it. */
  lemma PipeRequirePieces(r: string, kw: string, imports: string, target: string)
    requires r == PipeGenericRequire(kw, imports, target)
    ensures |r| == |kw| + |imports| + |target| + 16
    ensures r[..|kw|] == kw && r[|kw|] == ' '
    ensures r[|kw| + 1..|kw| + |imports| + 2] == imports + " "
    ensures r[|kw| + |imports| + 2..] == "= require(" + QuotedText('\'', target) + ");"
  {
    var b := imports + " ";
    var c := "= require(" + QuotedText('\'', target) + ");";
    assert r == kw + " " + b + c;
    assert r == kw + ([' '] + (b + c));
    assert r[|kw| + 1..] == b + c;
  }

  /** The pieces of `<keyword> <bindings> = require('<target>');` at their offsets from `p`, the statement ending at `e`. */
  predicate RequireLaidOut(s: string, p: nat, kw: string, imports: string, target: string, e: nat) {
    && e == p + |kw| + |imports| + |target| + 16 && e <= |s|
    && s[p..p + |kw|] == kw && s[p + |kw|] == ' '
    && s[p + |kw| + 1..p + |kw| + |imports| + 2] == imports + " "
    && s[p + |kw| + |imports| + 2..e] == "= require(" + QuotedText('\'', target) + ");"
  }

  /** Where a generic require statement sits at `p`, its pieces sit at the matching offsets of `s`. */
  lemma WrittenRequireSlices(s: string, p: nat, r: string, kw: string, imports: string, target: string)
    requires r == PipeGenericRequire(kw, imports, target)
    requires p + |r| <= |s| && s[p..p + |r|] == r
    ensures |r| == |kw| + |imports| + |target| + 16
    ensures RequireLaidOut(s, p, kw, imports, target, p + |r|)
  {
    PipeRequirePieces(r, kw, imports, target);
    SubSlice(s, p, |r|, 0, |kw|);
    assert s[p + |kw|] == s[p..p + |r|][|kw|];
    SubSlice(s, p, |r|, |kw| + 1, |kw| + |imports| + 2);
    SubSlice(s, p, |r|, |kw| + |imports| + 2, |r|);
  }

  /** `require('<target>');` at `c`: the call matches with the semicolon. */
  lemma WrittenRequireCall(s: string, c: nat, target: string, end: nat)
    requires GoodSpec(target, '\'')
    requires end == c + |target| + 12 && end <= |s| && s[c..end] == "require(" + QuotedText('\'', target) + ");"
    ensures RequireCall(s, c) == Some(Tail(target, '\'', false, true, end))
  {
    RequireCallPieces(s, c, target, end);
    SingleQuotedAt(s, c + 8, target);
  }

  /** The pieces of `require('<target>');` at `c`, where the call clause looks at them. */
  lemma RequireCallPieces(s: string, c: nat, target: string, end: nat)
    requires end == c + |target| + 12 && end <= |s| && s[c..end] == "require(" + QuotedText('\'', target) + ");"
    ensures s[c..c + 8] == "require(" && s[end - 2] == ')' && s[end - 1] == ';'
    ensures s[c + 8..c + 8 + |target| + 2] == QuotedText('\'', target)
  {
    var e := QuotedText('\'', target);
    assert "require(" + e + ");" == "require(" + (e + ");");
    SplitAt(s, c, "require(", e + ");");
    SplitAt(s, c + 8, e, ");");
    assert s[c + 8 + |e|] == s[c + 8 + |e|..c + 8 + |e| + 2][0] == ')';
    assert s[c + 9 + |e|] == s[c + 8 + |e|..c + 8 + |e| + 2][1] == ';';
  }

  /** `= require('<target>');` at `j`, as the require writers emit it: the clause matches with the space and the semicolon. */
  lemma WrittenEqualsClause(s: string, j: nat, target: string, e: nat)
    requires GoodSpec(target, '\'')
    requires e == j + |target| + 14 && e <= |s| && s[j..e] == "= require(" + QuotedText('\'', target) + ");"
    ensures EqualsClause(s, j) == Some(Tail(target, '\'', true, true, e))
  {
    EqualsPieces(s, j, target, e);
    WrittenRequireCall(s, j + 2, target, e);
  }

  /** The pieces of `= require('<target>');` at `j`: the `=`, the space, and the call. */
  lemma EqualsPieces(s: string, j: nat, target: string, e: nat)
    requires e == j + |target| + 14 && e <= |s| && s[j..e] == "= require(" + QuotedText('\'', target) + ");"
    ensures s[j] == '=' && s[j + 1] == ' ' && s[j + 2..e] == "require(" + QuotedText('\'', target) + ");"
  {
    var c := "require(" + QuotedText('\'', target) + ");";
    assert "= require(" + QuotedText('\'', target) + ");" == "= " + c;
    SplitAt(s, j, "= ", c);
    assert s[j] == s[j..j + 2][0] == '=';
    assert s[j + 1] == s[j..j + 2][1] == ' ';
  }

  /** Over text without `=` or line terminators, followed by `=`, the lazy group of the require alternative cannot stop early. */
  lemma EqualsDoNotStop(s: string, k: nat, b: string)
    requires NoLineTerminator(b) && '=' !in b
    requires k + |b| <= |s| && s[k..k + |b|] == b
    ensures forall x :: k <= x < k + |b| ==> ClauseAt(EqualsPart, s, x).None? && !IsLineTerminator(s[x])
  {
    forall x | k <= x < k + |b|
      ensures ClauseAt(EqualsPart, s, x).None? && !IsLineTerminator(s[x])
    {
      assert s[x] == s[k..k + |b|][x - k] == b[x - k];
    }
  }

  /** Over such bindings, the lazy group stops right at the `=` that follows them. */
  lemma EqualsStop(s: string, k: nat, b: string, j: nat)
    requires NoLineTerminator(b) && '=' !in b
    requires j == k + |b| && j <= |s| && s[k..j] == b
    requires ClauseAt(EqualsPart, s, j).Some?
    ensures LazyEnd(EqualsPart, s, k) == Some(j)
  {
    EqualsDoNotStop(s, k, b);
    LazyEndAt(EqualsPart, s, k, j);
  }

  /** The writer puts one space before and one after the bindings, adding no `=` and no line terminator. */
  lemma WrittenRequireBindings(imports: string)
    requires NoLineTerminator(imports) && '=' !in imports
    ensures NoLineTerminator(imports + " ") && '=' !in imports + " "
  {
    var b := imports + " ";
    forall i | 0 <= i < |b| - 1 ensures b[i] == imports[i] { }
  }

  /** The keyword branch at `p` succeeds with the match built from where its lazy part stops and the call clause there. */
  lemma KeywordAtFrom(s: string, p: nat, kw: string, j: nat, t: Tail)
    requires p + |kw| < |s| && s[p..p + |kw|] == kw && !IsLineTerminator(s[p + |kw|])
    requires LazyEnd(EqualsPart, s, p + |kw| + 1) == Some(j) && EqualsClause(s, j) == Some(t)
    ensures p + |kw| < j < t.end <= |s| && KeywordAt(s, p, kw) == Some(RequireMatch(s, p, kw, j, t))
  {
  }

  /** The match of a require whose specifier is single-quoted: group 4 the keyword, group 6 the specifier. */
  lemma SingleQuotedRequireMatch(s: string, p: nat, kw: string, j: nat, t: Tail, r: string)
    requires p + |kw| < j < t.end <= |s| && t.quote == '\'' && s[p..t.end] == r
    ensures RequireMatch(s, p, kw, j, t) == RegexMatch(p, t.end, r, [None, None, None, Some(kw), None, Some(t.spec)])
  {
    assert QuoteGroups(t) == [None, Some(t.spec)];
  }

  /** Both together. */
  lemma KeywordAtIs(s: string, p: nat, kw: string, j: nat, t: Tail, r: string)
    requires p + |kw| < |s| && s[p..p + |kw|] == kw && !IsLineTerminator(s[p + |kw|])
    requires LazyEnd(EqualsPart, s, p + |kw| + 1) == Some(j) && EqualsClause(s, j) == Some(t)
    requires t.quote == '\'' && t.end <= |s| && s[p..t.end] == r
    ensures KeywordAt(s, p, kw) == Some(RegexMatch(p, t.end, r, [None, None, None, Some(kw), None, Some(t.spec)]))
  {
    KeywordAtFrom(s, p, kw, j, t);
    SingleQuotedRequireMatch(s, p, kw, j, t, r);
  }

  /** Past the keyword and its space, bindings without `=` and a space, then `= require('<target>');`: the lazy part stops at the `=` and the clause there takes the single-quoted target. */
  lemma RequireParts(s: string, p: nat, kw: string, imports: string, target: string, j: nat, e: nat)
    requires NoLineTerminator(imports) && '=' !in imports && GoodSpec(target, '\'')
    requires j == p + |kw| + |imports| + 2 && e == j + |target| + 14 && e <= |s|
    requires s[p + |kw| + 1..j] == imports + " "
    requires s[j..e] == "= require(" + QuotedText('\'', target) + ");"
    ensures LazyEnd(EqualsPart, s, p + |kw| + 1) == Some(j)
    ensures EqualsClause(s, j) == Some(Tail(target, '\'', true, true, e))
  {
    WrittenEqualsClause(s, j, target, e);
    assert ClauseAt(EqualsPart, s, j).Some?;
    WrittenRequireBindings(imports);
    EqualsStop(s, p + |kw| + 1, imports + " ", j);
  }

  /** A text that does not start with `i` holds no import there. */
  lemma NotImportAt(s: string, p: nat)
    requires p < |s| && s[p] != 'i'
    ensures ImportAt(s, p).None?
  {
    assert p + 6 <= |s| ==> s[p..p + 6][0] == s[p];
  }

  /** A text that does not start with the keyword's first letter holds no match of that keyword's branch. */
  lemma NotKeywordAt(s: string, p: nat, kw: string)
    requires p < |s| && kw != "" && s[p] != kw[0]
    ensures KeywordAt(s, p, kw).None?
  {
    assert p + |kw| <= |s| ==> s[p..p + |kw|][0] == s[p];
  }

  /** A statement that starts with one of the three keywords is no import, and the keyword branches are tried in the pattern's order. */
  lemma KeywordFirst(s: string, p: nat, kw: string, m: RegexMatch)
    requires RequireKeyword(kw) && p + |kw| <= |s| && s[p..p + |kw|] == kw
    requires KeywordAt(s, p, kw) == Some(m)
    ensures MatchAt(s, p) == Some(m)
  {
    assert s[p] == s[p..p + |kw|][0] == kw[0];
    NotImportAt(s, p);
    if kw != "const" {
      NotKeywordAt(s, p, "const");
    }
    if kw == "var" {
      NotKeywordAt(s, p, "let");
    }
  }

  /** The keyword branch alone, on a generic require statement at `p`. */
  lemma WrittenKeywordAt(s: string, p: nat, r: string, kw: string, imports: string, target: string)
    requires NoLineTerminator(imports) && '=' !in imports && GoodSpec(target, '\'')
    requires r == PipeGenericRequire(kw, imports, target)
    requires p + |r| <= |s| && s[p..p + |r|] == r
    ensures KeywordAt(s, p, kw) == Some(RegexMatch(p, p + |r|, r, [None, None, None, Some(kw), None, Some(target)]))
  {
    WrittenRequireSlices(s, p, r, kw, imports, target);
    KeywordAtFromSlices(s, p, r, kw, imports, target, p + |r|);
  }

  /** With the lazy part stopping at `j` and the clause there reading the single-quoted target up to `p + |r|`, the keyword branch matches `r`. */
  lemma KeywordAtWritten(s: string, p: nat, r: string, kw: string, j: nat, target: string)
    requires p + |kw| < |s| && s[p..p + |kw|] == kw && !IsLineTerminator(s[p + |kw|])
    requires LazyEnd(EqualsPart, s, p + |kw| + 1) == Some(j)
    requires EqualsClause(s, j) == Some(Tail(target, '\'', true, true, p + |r|))
    requires p + |r| <= |s| && s[p..p + |r|] == r
    ensures KeywordAt(s, p, kw) == Some(RegexMatch(p, p + |r|, r, [None, None, None, Some(kw), None, Some(target)]))
  {
    KeywordAtIs(s, p, kw, j, Tail(target, '\'', true, true, p + |r|), r);
  }

  /** The keyword branch on the pieces of a generic require statement `r` that ends at `e`. */
  lemma KeywordAtFromSlices(s: string, p: nat, r: string, kw: string, imports: string, target: string, e: nat)
    requires NoLineTerminator(imports) && '=' !in imports && GoodSpec(target, '\'')
    requires RequireLaidOut(s, p, kw, imports, target, e) && s[p..e] == r
    ensures KeywordAt(s, p, kw) == Some(RegexMatch(p, e, r, [None, None, None, Some(kw), None, Some(target)]))
  {
    LaidOutKeyword(s, p, kw, imports, target, e);
    RequireParts(s, p, kw, imports, target, p + |kw| + |imports| + 2, e);
    KeywordAtWritten(s, p, r, kw, p + |kw| + |imports| + 2, target);
  }

  lemma LaidOutKeyword(s: string, p: nat, kw: string, imports: string, target: string, e: nat)
    requires RequireLaidOut(s, p, kw, imports, target, e)
    ensures p + |kw| < |s| && s[p..p + |kw|] == kw && !IsLineTerminator(s[p + |kw|])
  {
  }

  /**
   * Completeness of the scanner on the require writers' output: where
   * `<keyword> <bindings> = require('<target>');` sits at `p`, the pattern
   * matches exactly that statement there, with group 4 the keyword and
   * group 6 the target, and no group holding the bindings.
   */
  lemma RequireRecognizedAt(s: string, p: nat, r: string, kw: string, imports: string, target: string)
    requires RequireKeyword(kw) && NoLineTerminator(imports) && '=' !in imports && GoodSpec(target, '\'')
    requires r == PipeGenericRequire(kw, imports, target)
    requires p + |r| <= |s| && s[p..p + |r|] == r
    ensures MatchAt(s, p) == Some(RegexMatch(p, p + |r|, r, [None, None, None, Some(kw), None, Some(target)]))
  {
    WrittenKeywordAt(s, p, r, kw, imports, target);
    KeywordFirst(s, p, kw, RegexMatch(p, p + |r|, r, [None, None, None, Some(kw), None, Some(target)]));
  }

  /** The record the pattern makes of a written require is skipped: group 6 is set and group 5 is not. */
  lemma ClassifyWrittenRequire(m: RegexMatch, kw: string, target: string)
    requires target != "" && m.groups == [None, None, None, Some(kw), None, Some(target)]
    ensures ImportBindingsPresent(m) && Classify(m) == Skip
  {
    assert m.At(5).None? && m.At(6) == Some(target);
  }

  /** A require writer's output, on its own, is read back as one require statement, which the dispatch then skips. */
  lemma PipeRequireReadsBack(r: string, kw: string, imports: string, target: string)
    requires RequireKeyword(kw) && NoLineTerminator(imports) && '=' !in imports && GoodSpec(target, '\'')
    requires r == PipeGenericRequire(kw, imports, target)
    ensures FindMatch(r, 0) == Some(RegexMatch(0, |r|, r, [None, None, None, Some(kw), None, Some(target)]))
    ensures Classify(FindMatch(r, 0).value) == Skip
  {
    RequireFoundAtStart(r, kw, imports, target);
    ClassifyWrittenRequire(FindMatch(r, 0).value, kw, target);
  }

  /** A require writer's output, on its own, is the first match of the pattern in it. */
  lemma RequireFoundAtStart(r: string, kw: string, imports: string, target: string)
    requires RequireKeyword(kw) && NoLineTerminator(imports) && '=' !in imports && GoodSpec(target, '\'')
    requires r == PipeGenericRequire(kw, imports, target)
    ensures FindMatch(r, 0) == Some(RegexMatch(0, |r|, r, [None, None, None, Some(kw), None, Some(target)]))
  {
    RequireRecognizedAt(r, 0, r, kw, imports, target);
    assert FindMatch(r, 0) == MatchAt(r, 0);
  }
}
