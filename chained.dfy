/**
 * The loop replaces the first occurrence of each match's text in the
 * output built so far, not the occurrence it matched.  When a mapping
 * turns one statement into the text of a later one, the later statement's
 * rewrite lands on the earlier, already rewritten statement: with `x`
 * mapped to `y` and `y` to `z`, the file
 *
 *     import a from 'x';
 *     import a from 'y';
 *
 * comes out as
 *
 *     import a from 'z';
 *     import a from 'y';
 */
module ChainedExample {
  import opened Wrappers
  import opened JsString
  import opened Pattern
  import opened Writers
  import opened Paths
  import opened Vinyl
  import opened Rewriter
  import opened RoundTrip
  import opened Properties

  /** Bindings the import writer's output carries through unchanged. */
  predicate PlainBindings(imports: string) {
    NoLineTerminator(imports) && NoQuote(imports) && Trim(imports) == imports
  }

  /** The mappings `x` to `y` and `y` to `z`, both plain strings. */
  function ChainMappings(x: string, y: string, z: string): Options {
    Options(map[x := Literal(y), y := Literal(z)])
  }

  /** The record the pattern makes of the import writer's output at `start`. */
  function ImportRecord(start: nat, text: string, imports: string, target: string): RegexMatch {
    RegexMatch(start, start + |text|, text, [Some(" " + imports + " "), None, Some(target), None, None, None])
  }

  lemma TwoLines(a: string, b: string)
    ensures (a + "\n" + b)[|a|] == '\n'
    ensures (a + "\n" + b)[0..|a|] == a && (a + "\n" + b)[|a| + 1..|a| + 1 + |b|] == b
  {
    assert (a + "\n" + b)[|a| + 1..] == b;
  }

  /** The import writer's output at the start of the text is found there. */
  lemma ChainFirstMatch(a: string, b: string, imports: string, x: string)
    requires PlainBindings(imports) && GoodSpec(x, '\'') && a == PipeImport(imports, x)
    ensures FindMatch(a + "\n" + b, 0) == Some(ImportRecord(0, a, imports, x))
  {
    TwoLines(a, b);
    ImportRecognizedAt(a + "\n" + b, 0, a, imports, x);
  }

  /** The import writer's output on the second line is found from the end of the first. */
  lemma ChainSecondMatch(a: string, b: string, imports: string, y: string)
    requires PlainBindings(imports) && GoodSpec(y, '\'') && b == PipeImport(imports, y)
    ensures FindMatch(a + "\n" + b, |a|) == Some(ImportRecord(|a| + 1, b, imports, y))
  {
    SecondRecognized(a, b, imports, y);
    SecondOfTwoLines(a, b, ImportRecord(|a| + 1, b, imports, y));
  }

  lemma SecondRecognized(a: string, b: string, imports: string, y: string)
    requires PlainBindings(imports) && GoodSpec(y, '\'') && b == PipeImport(imports, y)
    ensures MatchAt(a + "\n" + b, |a| + 1) == Some(ImportRecord(|a| + 1, b, imports, y))
  {
    TwoLines(a, b);
    ImportRecognizedAt(a + "\n" + b, |a| + 1, b, imports, y);
  }

  /** Where the second of two lines holds a match at its start, `exec` from the end of the first finds it. */
  lemma SecondOfTwoLines(a: string, b: string, m: RegexMatch)
    requires MatchAt(a + "\n" + b, |a| + 1) == Some(m)
    ensures FindMatch(a + "\n" + b, |a|) == Some(m)
  {
    TwoLines(a, b);
    NoMatchAtNewline(a + "\n" + b, |a|);
    NextPosition(a + "\n" + b, |a|, m);
  }

  lemma NoMatchAtNewline(s: string, p: nat)
    requires p < |s| && s[p] == '\n'
    ensures MatchAt(s, p).None?
  {
    NotImportAt(s, p);
    NotKeywordAt(s, p, "const");
    NotKeywordAt(s, p, "let");
    NotKeywordAt(s, p, "var");
  }

  lemma NextPosition(s: string, p: nat, m: RegexMatch)
    requires p < |s| && MatchAt(s, p).None? && MatchAt(s, p + 1) == Some(m)
    ensures FindMatch(s, p) == Some(m)
  {
  }

  /** The first statement, an import of `x`, is rewritten to `b`, the text of the second. */
  lemma FirstStep(a: string, b: string, imports: string, x: string, y: string, z: string, file: VinylFile, host: HostPath)
    requires PlainBindings(imports) && GoodSpec(x, '\'') && GoodSpec(y, '\'') && x != y
    requires a == PipeImport(imports, x) && b == PipeImport(imports, y) && '$' !in b
    ensures ImportBindingsPresent(ImportRecord(0, a, imports, x))
    ensures Step(ImportRecord(0, a, imports, x), a + "\n" + b, ChainMappings(x, y, z), file, host) == Ok(b + "\n" + b)
  {
    var m := ImportRecord(0, a, imports, x);
    WrittenImportRendered(m, imports, x, ChainMappings(x, y, z), file, host, b);
    assert a + "\n" + b == a + ("\n" + b);
    assert b + "\n" + b == b + ("\n" + b);
    PrefixReplaced(a, "\n" + b, b, m, ChainMappings(x, y, z), file, host);
  }

  /** The second statement's rewrite replaces the first copy of its text, which is the statement just rewritten. */
  lemma SecondStep(a: string, b: string, c: string, imports: string, x: string, y: string, z: string, file: VinylFile, host: HostPath)
    requires PlainBindings(imports) && GoodSpec(y, '\'') && GoodSpec(z, '\'') && x != y
    requires b == PipeImport(imports, y) && c == PipeImport(imports, z) && '$' !in c
    ensures ImportBindingsPresent(ImportRecord(|a| + 1, b, imports, y))
    ensures Step(ImportRecord(|a| + 1, b, imports, y), b + "\n" + b, ChainMappings(x, y, z), file, host) == Ok(c + "\n" + b)
  {
    var m := ImportRecord(|a| + 1, b, imports, y);
    WrittenImportRendered(m, imports, y, ChainMappings(x, y, z), file, host, c);
    assert b + "\n" + b == b + ("\n" + b);
    assert c + "\n" + b == c + ("\n" + b);
    PrefixReplaced(b, "\n" + b, c, m, ChainMappings(x, y, z), file, host);
  }

  /**
   * With `x` mapped to `y` and `y` to `z`, the import of `x` followed by
   * the import of `y` comes out as the import of `z` followed by the
   * import of `y`: the second statement stays, and the first is
   * rewritten twice.
   */
  lemma RewritesEarlierStatement(imports: string, x: string, y: string, z: string, file: VinylFile, host: HostPath)
    requires PlainBindings(imports) && GoodSpec(x, '\'') && GoodSpec(y, '\'') && GoodSpec(z, '\'') && x != y
    requires '$' !in PipeImport(imports, y) && '$' !in PipeImport(imports, z)
    ensures Rewritten(PipeImport(imports, x) + "\n" + PipeImport(imports, y), ChainMappings(x, y, z), file, host)
      == Ok(PipeImport(imports, z) + "\n" + PipeImport(imports, y))
  {
    var a, b, c := PipeImport(imports, x), PipeImport(imports, y), PipeImport(imports, z);
    ChainFirstMatch(a, b, imports, x);
    ChainSecondMatch(a, b, imports, y);
    FirstStep(a, b, imports, x, y, z, file, host);
    SecondStep(a, b, c, imports, x, y, z, file, host);
    TwoMatchRun(a + "\n" + b, ImportRecord(0, a, imports, x), ImportRecord(|a| + 1, b, imports, y),
      b + "\n" + b, c + "\n" + b, ChainMappings(x, y, z), file, host);
  }

  /** A text whose loop sees two matches, the second one ending the text, comes out as the two steps make it. */
  lemma TwoMatchRun(s: string, m1: RegexMatch, m2: RegexMatch, out1: string, out2: string, options: Options, file: VinylFile, host: HostPath)
    requires FindMatch(s, 0) == Some(m1) && m1.end <= |s| && FindMatch(s, m1.end) == Some(m2) && m2.end == |s|
    requires ImportBindingsPresent(m1) && Step(m1, s, options, file, host) == Ok(out1)
    requires ImportBindingsPresent(m2) && Step(m2, out1, options, file, host) == Ok(out2)
    ensures Rewritten(s, options, file, host) == Ok(out2)
  {
    NoMatchAtEnd(s);
    assert RewriteFrom(s, |s|, out2, options, file, host) == Ok(out2);
    assert RewriteFrom(s, m1.end, out1, options, file, host) == Ok(out2);
  }

  /** The two-line file above, literally. */
  lemma ChainExample(file: VinylFile, host: HostPath)
    ensures Rewritten("import a from 'x';\nimport a from 'y';", ChainMappings("x", "y", "z"), file, host)
      == Ok("import a from 'z';\nimport a from 'y';")
  {
    ChainPremises();
    ChainInput();
    ChainOutput();
    RewritesEarlierStatement("a", "x", "y", "z", file, host);
  }

  lemma ChainPremises()
    ensures PlainBindings("a") && GoodSpec("x", '\'') && GoodSpec("y", '\'') && GoodSpec("z", '\'')
    ensures '$' !in PipeImport("a", "y") && '$' !in PipeImport("a", "z")
  {
    TrimOfTrimmed("a");
  }

  lemma ChainInput()
    ensures PipeImport("a", "x") + "\n" + PipeImport("a", "y") == "import a from 'x';\nimport a from 'y';"
  {
  }

  lemma ChainOutput()
    ensures PipeImport("a", "z") + "\n" + PipeImport("a", "y") == "import a from 'z';\nimport a from 'y';"
  {
  }
}
