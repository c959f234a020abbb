/**
 * The plugin's own example: a file that imports `{ Something }` from
 * `nowhere`, with `nowhere` mapped to the string `somewhere`, comes out
 * with only the specifier changed, and the `const` line after it, which
 * is no require call, stays as it is.
 */
module Examples {
  import opened Wrappers
  import opened JsString
  import opened Pattern
  import opened Writers
  import opened Paths
  import opened Vinyl
  import opened Rewriter
  import opened RoundTrip
  import opened Completeness
  import opened Properties

  const Bindings: string := "{ Something }"

  /** The import statement of the test, and what the mapping makes of it. */
  const Statement: string := "import { Something } from 'nowhere';"

  const NewStatement: string := "import { Something } from 'somewhere';"

  const Rest: string := "\nconst instance = new Something();\n"

  const Input: string := Statement + Rest

  const Expected: string := NewStatement + Rest

  const Mappings: Options := Options(map["nowhere" := Literal("somewhere")])

  /** The record `exec` makes of the import statement. */
  const StatementMatch: RegexMatch :=
    RegexMatch(0, |Statement|, Statement, [Some(" " + Bindings + " "), None, Some("nowhere"), None, None, None])

  /** Both statements are what the import writer makes of the bindings and a module. */
  lemma StatementsWritten()
    ensures Statement == PipeImport(Bindings, "nowhere")
    ensures NewStatement == PipeImport(Bindings, "somewhere")
  {
    OldStatementWritten();
    NewStatementWritten();
  }

  lemma OldStatementWritten()
    ensures Statement == PipeImport(Bindings, "nowhere")
  {
    assert Statement == PipeImport("{ Something }", "nowhere");
  }

  lemma NewStatementWritten()
    ensures NewStatement == PipeImport(Bindings, "somewhere")
  {
    assert NewStatement == PipeImport("{ Something }", "somewhere");
  }

  /** The rewritten statement holds no `$`, so `replace` inserts it as it is. */
  lemma NoDollar()
    ensures '$' !in NewStatement
  {
  }

  /** Any match holds an `import` (with its `p`) or a `require(` (with its `q`) from where it starts. */
  lemma MatchContainsImportOrRequire(s: string, from: nat, p: nat)
    requires from <= p <= |s| && MatchAt(s, p).Some?
    ensures 'p' in s[from..] || 'q' in s[from..]
  {
    if ImportAt(s, p).Some? {
      assert s[p..p + 6][2] == s[p + 2];
      assert s[from..][p + 2 - from] == s[p + 2];
    } else {
      var kw := if KeywordAt(s, p, "const").Some? then "const" else if KeywordAt(s, p, "let").Some? then "let" else "var";
      KeywordCall(s, from, p, kw);
    }
  }

  lemma KeywordCall(s: string, from: nat, p: nat, kw: string)
    requires from <= p <= |s| && KeywordAt(s, p, kw).Some?
    ensures 'q' in s[from..]
  {
    var j := LazyEnd(EqualsPart, s, p + |kw| + 1).value;
    CallHasQ(s, j);
    var k := if s[j + 3] == 'q' then j + 3 else j + 4;
    assert s[from..][k - from] == s[k];
  }

  lemma CallHasQ(s: string, j: nat)
    requires j <= |s| && EqualsClause(s, j).Some?
    ensures j + 4 < |s| && (s[j + 3] == 'q' || s[j + 4] == 'q')
  {
    var t := EqualsClause(s, j).value;
    var o := if t.spaced then 1 else 0;
    assert CallText(t.quote, t.spec, t.spaced, t.semi)[o + 3] == 'q';
    assert |CallText(t.quote, t.spec, t.spaced, t.semi)| > 5;
    assert s[j..t.end][o + 3] == s[j + o + 3];
  }

  /** A text with neither `p` nor `q` from `from` on holds no further match. */
  lemma NoMatchWithoutImportOrRequire(s: string, from: nat)
    requires from <= |s| && 'p' !in s[from..] && 'q' !in s[from..]
    ensures FindMatch(s, from).None?
  {
    FindMatchLeftmost(s, from);
    if FindMatch(s, from).Some? {
      MatchContainsImportOrRequire(s, from, FindMatch(s, from).value.start);
      assert false;
    }
  }

  lemma InputFirstMatch()
    ensures FindMatch(Input, 0) == Some(StatementMatch)
  {
    StatementsWritten();
    assert Input[0..|Statement|] == Statement;
    ImportRecognizedAt(Input, 0, Statement, Bindings, "nowhere");
  }

  lemma InputNoMoreMatches()
    ensures FindMatch(Input, |Statement|).None?
  {
    assert Input[|Statement|..] == Rest;
    NoMatchWithoutImportOrRequire(Input, |Statement|);
  }

  lemma StatementRendered(file: VinylFile, host: HostPath)
    ensures ImportBindingsPresent(StatementMatch)
    ensures Rendered(StatementMatch, Mappings, file, host) == Some(NewStatement)
  {
    ClassifyWrittenImport(StatementMatch, Bindings, "nowhere");
    BindingsTrimmed();
    StatementsWritten();
  }

  lemma BindingsTrimmed()
    ensures Trim(Bindings) == Bindings
  {
    assert Bindings[0] == '{' && Bindings[|Bindings| - 1] == '}';
    TrimOfTrimmed(Bindings);
  }

  lemma StatementStep(file: VinylFile, host: HostPath)
    ensures ImportBindingsPresent(StatementMatch)
    ensures Step(StatementMatch, Input, Mappings, file, host) == Ok(Expected)
  {
    StatementRendered(file, host);
    NoDollar();
    PrefixReplaced(Statement, Rest, NewStatement, StatementMatch, Mappings, file, host);
  }

  /**
   * The whole transform of the example buffer: the import is rewritten to
   * the mapped module and the `const` line, which calls no `require`, is
   * left alone.
   */
  lemma PluginExample(file: VinylFile, host: HostPath)
    ensures Rewritten(Input, Mappings, file, host) == Ok(Expected)
  {
    InputFirstMatch();
    InputNoMoreMatches();
    StatementStep(file, host);
    assert RewriteFrom(Input, |Statement|, Expected, Mappings, file, host) == Ok(Expected);
  }

  /** A double-quoted import without a semicolon. */
  const DoubleQuotedImport: string := "import a from " + [DoubleQuote] + "b" + [DoubleQuote]

  /** The same without the space after `from`. */
  const UnspacedImport: string := "import a from" + [DoubleQuote] + "b" + [DoubleQuote]

  /** A double-quoted require without a semicolon. */
  const DoubleQuotedRequire: string := "const x = require(" + [DoubleQuote] + "a" + [DoubleQuote] + ")"

  /** Each of the three is matched where it starts, and so found by `exec`. */
  lemma OtherFormsMatched()
    ensures MatchAt(DoubleQuotedImport, 0).Some? && FindMatch(DoubleQuotedImport, 0).Some?
    ensures MatchAt(UnspacedImport, 0).Some? && FindMatch(UnspacedImport, 0).Some?
    ensures MatchAt(DoubleQuotedRequire, 0).Some? && FindMatch(DoubleQuotedRequire, 0).Some?
  {
    DoubleQuotedImportMatched();
    UnspacedImportMatched();
    DoubleQuotedRequireMatched();
  }

  lemma DoubleQuotedImportMatched()
    ensures MatchAt(DoubleQuotedImport, 0).Some?
  {
    assert DoubleQuotedImport == "import" + " a " + FromText(DoubleQuote, "b", true, false);
    assert GoodSpec("b", DoubleQuote);
    ImportStatementMatched(DoubleQuotedImport, 0, " a ", DoubleQuote, "b", true, false, |DoubleQuotedImport|);
  }

  lemma UnspacedImportMatched()
    ensures MatchAt(UnspacedImport, 0).Some?
  {
    assert UnspacedImport == "import" + " a " + FromText(DoubleQuote, "b", false, false);
    assert GoodSpec("b", DoubleQuote);
    ImportStatementMatched(UnspacedImport, 0, " a ", DoubleQuote, "b", false, false, |UnspacedImport|);
  }

  lemma DoubleQuotedRequireMatched()
    ensures MatchAt(DoubleQuotedRequire, 0).Some?
  {
    assert DoubleQuotedRequire == "const" + " x " + CallText(DoubleQuote, "a", true, false);
    assert GoodSpec("a", DoubleQuote);
    RequireStatementMatched(DoubleQuotedRequire, 0, "const", " x ", DoubleQuote, "a", true, false, |DoubleQuotedRequire|);
  }
}
