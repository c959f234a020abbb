/**
 * What the transform promises, stated over the whole loop: it sees
 * exactly the matches of the original text, in order; a match whose
 * specifier has no truthy mapping changes nothing; an import is rewritten
 * to the single-quoted form of the import writer; a require statement is
 * never rewritten; and each rewrite touches only the first occurrence of
 * the matched text.
 */
module Properties {
  import opened Wrappers
  import opened JsString
  import opened Pattern
  import opened Writers
  import opened Paths
  import opened Vinyl
  import opened Rewriter
  import opened RoundTrip

  /** A match the loop rewrites: it is dispatched to a writer and its specifier has a truthy mapping. */
  predicate Mapped(m: RegexMatch, options: Options) {
    ImportBindingsPresent(m) && Classify(m).Rewrite? && TruthyTarget(Lookup(options, Classify(m).srcModule))
  }

  /** The loop body applied to the matches `ms` in order, from output `out`. */
  function StepAll(ms: seq<RegexMatch>, out: string, options: Options, file: VinylFile, host: HostPath): Result<string, PluginError>
    requires forall i :: 0 <= i < |ms| ==> ImportBindingsPresent(ms[i])
  {
    if ms == [] then Ok(out)
    else
      match Step(ms[0], out, options, file, host)
      case Err(e) => Err(e)
      case Ok(next) => StepAll(ms[1..], next, options, file, host)
  }

  /** Every match the loop sees has the group the import branch reads. */
  lemma AllMatchesBindings(s: string, from: nat)
    requires from <= |s|
    ensures forall i :: 0 <= i < |AllMatches(s, from)| ==> ImportBindingsPresent(AllMatches(s, from)[i])
  {
    forall i | 0 <= i < |AllMatches(s, from)| ensures ImportBindingsPresent(AllMatches(s, from)[i]) {
      AllMatchesValid(s, from, i);
      ValidBindingsPresent(s, AllMatches(s, from)[i]);
    }
  }

  /**
   * Rewritten text is never rescanned: the loop is the body folded over
   * the matches of the original text, found one after the other from
   * `lastIndex`, whatever the output has become.
   */
  lemma {:induction false} RewriteIsFold(s: string, from: nat, out: string, options: Options, file: VinylFile, host: HostPath)
    requires from <= |s|
    ensures forall i :: 0 <= i < |AllMatches(s, from)| ==> ImportBindingsPresent(AllMatches(s, from)[i])
    ensures RewriteFrom(s, from, out, options, file, host) == StepAll(AllMatches(s, from), out, options, file, host)
    decreases |s| - from
  {
    AllMatchesBindings(s, from);
    match FindMatch(s, from)
    case None =>
    case Some(m) =>
      var ms := AllMatches(s, from);
      assert ms == [m] + AllMatches(s, m.end);
      assert ms[1..] == AllMatches(s, m.end);
      FindMatchValid(s, from);
      match Step(m, out, options, file, host)
      case Err(e) =>
      case Ok(next) =>
        RewriteIsFold(s, m.end, next, options, file, host);
  }

  /** Matches that are not mapped and not invalid leave the output as it is. */
  lemma {:induction false} StepAllUnmapped(ms: seq<RegexMatch>, out: string, options: Options, file: VinylFile, host: HostPath)
    requires forall i :: 0 <= i < |ms| ==> ImportBindingsPresent(ms[i])
    requires forall i :: 0 <= i < |ms| ==> !Mapped(ms[i], options) && !Classify(ms[i]).Invalid?
    ensures StepAll(ms, out, options, file, host) == Ok(out)
    decreases |ms|
  {
    if ms != [] {
      assert Step(ms[0], out, options, file, host) == Ok(out);
      StepAllUnmapped(ms[1..], out, options, file, host);
    }
  }

  /**
   * When no match of the text has a truthy mapping, whether because its
   * specifier is not in the mappings or because its value is falsy, the
   * output is the input, character for character.
   */
  lemma UnmappedIdentity(s: string, options: Options, file: VinylFile, host: HostPath)
    requires forall i :: 0 <= i < |AllMatches(s, 0)| ==> !Mapped(AllMatches(s, 0)[i], options)
    ensures Rewritten(s, options, file, host) == Ok(s)
  {
    RewriteIsFold(s, 0, s, options, file, host);
    forall i | 0 <= i < |AllMatches(s, 0)| ensures !Classify(AllMatches(s, 0)[i]).Invalid? {
      AllMatchesValid(s, 0, i);
      ClassifyValid(s, AllMatches(s, 0)[i]);
    }
    StepAllUnmapped(AllMatches(s, 0), s, options, file, host);
  }

  /** With no mappings at all, every file comes out as it went in. */
  lemma NoMappingsIdentity(s: string, file: VinylFile, host: HostPath)
    ensures Rewritten(s, Options(map[]), file, host) == Ok(s)
  {
    forall i | 0 <= i < |AllMatches(s, 0)| ensures !Mapped(AllMatches(s, 0)[i], Options(map[])) { }
    UnmappedIdentity(s, Options(map[]), file, host);
  }

  /**
   * The loop meets require statements but never rewrites one: every
   * match it sees is either skipped or sent to the import writer, and
   * only an import-form match is.
   */
  lemma OnlyImportsRewritten(s: string, from: nat, i: nat)
    requires from <= |s| && i < |AllMatches(s, from)|
    ensures ImportBindingsPresent(AllMatches(s, from)[i])
    ensures !Classify(AllMatches(s, from)[i]).Invalid?
    ensures Classify(AllMatches(s, from)[i]).Rewrite? ==> Classify(AllMatches(s, from)[i]).writer == Import
    ensures RequireForm(AllMatches(s, from)[i]) ==> Classify(AllMatches(s, from)[i]) == Skip
  {
    var m := AllMatches(s, from)[i];
    AllMatchesValid(s, from, i);
    if ImportForm(m) {
      ClassifyImportForm(m);
    } else {
      ClassifyRequireForm(m);
    }
  }

  /**
   * A mapped import is replaced by `import `, its trimmed bindings,
   * ` from '`, the resolved target and `';`: single quotes and one
   * semicolon whatever the original quoting, spacing or semicolon.
   */
  lemma ImportRewriteForm(s: string, m: RegexMatch, out: string, options: Options, file: VinylFile, host: HostPath)
    requires ValidMatch(s, m) && ImportForm(m)
    requires TruthyTarget(Lookup(options, Or(m.groups[1], m.groups[2]).value))
    ensures ImportBindingsPresent(m)
    ensures Step(m, out, options, file, host) == Ok(ReplaceFirst(out, m.text,
      "import " + Trim(m.groups[0].value) + " from '"
      + ResolveTarget(Lookup(options, Or(m.groups[1], m.groups[2]).value).value, file, host) + "';"))
  {
    ClassifyImportForm(m);
    var spec := Or(m.groups[1], m.groups[2]).value;
    var rewritten := PipeImport(Trim(m.groups[0].value), ResolveTarget(Lookup(options, spec).value, file, host));
    assert Rendered(m, options, file, host) == Some(rewritten);
    assert "import " + Trim(m.groups[0].value) + " from '" + ResolveTarget(Lookup(options, spec).value, file, host) + "';" == rewritten;
  }

  /**
   * A mapped match changes the output only where its text first occurs,
   * when it occurs at all, and the replacement is inserted literally
   * when it holds no `$`.
   */
  lemma StepReplacesFirstOccurrence(m: RegexMatch, out: string, options: Options, file: VinylFile, host: HostPath, rewritten: string, i: nat)
    requires ImportBindingsPresent(m) && Rendered(m, options, file, host) == Some(rewritten)
    requires OccursAt(out, m.text, i) && forall j :: 0 <= j < i ==> !OccursAt(out, m.text, j)
    requires '$' !in rewritten
    ensures Step(m, out, options, file, host) == Ok(out[..i] + rewritten + out[i + |m.text|..])
  {
    StepRewrites(m, out, options, file, host, rewritten);
    ReplaceFirstAt(out, m.text, rewritten, i);
  }

  lemma StepRewrites(m: RegexMatch, out: string, options: Options, file: VinylFile, host: HostPath, rewritten: string)
    requires ImportBindingsPresent(m) && Rendered(m, options, file, host) == Some(rewritten)
    ensures Step(m, out, options, file, host) == Ok(ReplaceFirst(out, m.text, rewritten))
  {
  }

  /** A mapped match whose text no longer occurs in the output changes nothing. */
  lemma StepWithoutOccurrence(m: RegexMatch, out: string, options: Options, file: VinylFile, host: HostPath)
    requires ImportBindingsPresent(m) && Rendered(m, options, file, host).Some?
    requires forall j :: 0 <= j <= |out| ==> !OccursAt(out, m.text, j)
    ensures Step(m, out, options, file, host) == Ok(out)
  {
    assert IndexOf(out, m.text).None?;
  }

  /** No match starts at the very end of the text. */
  lemma NoMatchAtEnd(s: string)
    ensures FindMatch(s, |s|).None?
  {
    assert ImportAt(s, |s|).None? && RequireAt(s, |s|).None?;
  }

  /**
   * A file that is one import statement in the writer's own form, with a
   * truthy mapping for its specifier, comes out as the same statement
   * naming the mapped module.
   */
  lemma WrittenImportRewritten(r: string, imports: string, target: string, options: Options, file: VinylFile, host: HostPath)
    requires NoLineTerminator(imports) && NoQuote(imports) && GoodSpec(target, '\'')
    requires r == PipeImport(imports, target) && TruthyTarget(Lookup(options, target))
    requires '$' !in PipeImport(Trim(imports), ResolveTarget(Lookup(options, target).value, file, host))
    ensures Rewritten(r, options, file, host)
      == Ok(PipeImport(Trim(imports), ResolveTarget(Lookup(options, target).value, file, host)))
  {
    PipeImportReadsBack(r, imports, target);
    WrittenMatchRewritten(r, FindMatch(r, 0).value, imports, target, options, file, host,
      PipeImport(Trim(imports), ResolveTarget(Lookup(options, target).value, file, host)));
  }

  lemma WrittenMatchRewritten(r: string, m: RegexMatch, imports: string, target: string, options: Options, file: VinylFile, host: HostPath, rewritten: string)
    requires FindMatch(r, 0) == Some(m) && m == RegexMatch(0, |r|, r, [Some(" " + imports + " "), None, Some(target), None, None, None])
    requires target != "" && TruthyTarget(Lookup(options, target))
    requires rewritten == PipeImport(Trim(imports), ResolveTarget(Lookup(options, target).value, file, host))
    requires '$' !in rewritten
    ensures Rewritten(r, options, file, host) == Ok(rewritten)
  {
    WrittenStep(r, m, imports, target, options, file, host, rewritten);
    WholeFileStep(r, m, options, file, host, rewritten);
  }

  lemma WrittenStep(r: string, m: RegexMatch, imports: string, target: string, options: Options, file: VinylFile, host: HostPath, rewritten: string)
    requires m == RegexMatch(0, |r|, r, [Some(" " + imports + " "), None, Some(target), None, None, None])
    requires target != "" && TruthyTarget(Lookup(options, target))
    requires rewritten == PipeImport(Trim(imports), ResolveTarget(Lookup(options, target).value, file, host))
    requires '$' !in rewritten
    ensures ImportBindingsPresent(m) && Step(m, r, options, file, host) == Ok(rewritten)
  {
    WrittenImportRendered(m, imports, target, options, file, host, rewritten);
    WholeStep(r, m, options, file, host, rewritten);
  }

  /** A mapped match that is the whole output replaces all of it. */
  lemma WholeStep(r: string, m: RegexMatch, options: Options, file: VinylFile, host: HostPath, rewritten: string)
    requires m.text == r && ImportBindingsPresent(m) && Rendered(m, options, file, host) == Some(rewritten)
    requires '$' !in rewritten
    ensures Step(m, r, options, file, host) == Ok(rewritten)
  {
    OccursWhole(r);
    StepReplacesFirstOccurrence(m, r, options, file, host, rewritten, 0);
    ReplaceWhole(r, rewritten);
  }

  lemma WrittenImportRendered(m: RegexMatch, imports: string, target: string, options: Options, file: VinylFile, host: HostPath, rewritten: string)
    requires target != "" && m.groups == [Some(" " + imports + " "), None, Some(target), None, None, None]
    requires TruthyTarget(Lookup(options, target))
    requires rewritten == PipeImport(Trim(imports), ResolveTarget(Lookup(options, target).value, file, host))
    ensures ImportBindingsPresent(m) && Rendered(m, options, file, host) == Some(rewritten)
  {
    ClassifyWrittenImport(m, imports, target);
    RenderedImport(m, Trim(imports), target, options, file, host, rewritten);
  }

  lemma RenderedImport(m: RegexMatch, imports: string, target: string, options: Options, file: VinylFile, host: HostPath, rewritten: string)
    requires ImportBindingsPresent(m) && Classify(m) == Rewrite(Import, imports, target)
    requires TruthyTarget(Lookup(options, target))
    requires rewritten == PipeImport(imports, ResolveTarget(Lookup(options, target).value, file, host))
    ensures Rendered(m, options, file, host) == Some(rewritten)
  {
    assert Write(Import, imports, ResolveTarget(Lookup(options, target).value, file, host)) == rewritten;
  }

  /** A mapped match whose text starts the output is replaced there, and the rest of the output stays. */
  lemma PrefixReplaced(a: string, rest: string, c: string, m: RegexMatch, options: Options, file: VinylFile, host: HostPath)
    requires m.text == a && ImportBindingsPresent(m) && Rendered(m, options, file, host) == Some(c) && '$' !in c
    ensures Step(m, a + rest, options, file, host) == Ok(c + rest)
  {
    assert (a + rest)[0..|a|] == a;
    StepReplacesFirstOccurrence(m, a + rest, options, file, host, c, 0);
    assert (a + rest)[..0] + c + (a + rest)[|a|..] == c + rest;
  }

  lemma OccursWhole(r: string)
    ensures OccursAt(r, r, 0)
  {
    assert r[0..|r|] == r;
  }

  lemma ReplaceWhole(r: string, x: string)
    ensures r[..0] + x + r[|r|..] == x
  {
    assert r[..0] == [] && r[|r|..] == [];
  }

  /** A text that is one match from end to end comes out as that match's step makes it. */
  lemma WholeFileStep(r: string, m: RegexMatch, options: Options, file: VinylFile, host: HostPath, rewritten: string)
    requires FindMatch(r, 0) == Some(m) && m.end == |r| && ImportBindingsPresent(m)
    requires Step(m, r, options, file, host) == Ok(rewritten)
    ensures Rewritten(r, options, file, host) == Ok(rewritten)
  {
    NoMatchAtEnd(r);
    assert RewriteFrom(r, |r|, rewritten, options, file, host) == Ok(rewritten);
  }

  /** A file that is one require statement in the writers' own form comes out unchanged, whatever the mappings. */
  lemma WrittenRequireKept(r: string, kw: string, imports: string, target: string, options: Options, file: VinylFile, host: HostPath)
    requires RequireKeyword(kw) && NoLineTerminator(imports) && '=' !in imports && GoodSpec(target, '\'')
    requires r == PipeGenericRequire(kw, imports, target)
    ensures Rewritten(r, options, file, host) == Ok(r)
  {
    PipeRequireReadsBack(r, kw, imports, target);
    NoMatchAtEnd(r);
    assert RewriteFrom(r, |r|, r, options, file, host) == Ok(r);
  }
}
