/**
 * The require branch as the dispatch evidently means it.  The dispatch
 * reads the keyword from group 4, the bindings from group 5 and the
 * specifier from group 6 or 7, which is the numbering of a pattern whose
 * require alternative captures its `.+?` as well.  Capturing changes
 * nothing about what the pattern matches, so that pattern's record of a
 * match is the record of the same match with the bindings group put in
 * after the keyword.  The engine below is the transform's loop reading
 * those records.
 */
module Intended {
  import opened Wrappers
  import opened JsString
  import opened Pattern
  import opened Writers
  import opened Paths
  import opened Vinyl
  import opened Rewriter
  import opened RoundTrip
  import opened Properties

  /** What the corrected pattern's `(.+?)` captures after keyword `kw` at `start`: from the end of the keyword to where the lazy part stops. */
  function RequireBindings(s: string, start: nat, kw: string): (r: Option<string>)
  {
    if start + |kw| < |s| then
      match LazyEnd(EqualsPart, s, start + |kw| + 1)
      case Some(j) => Some(s[start + |kw|..j])
      case None => None
    else None
  }

  /**
   * The record of match `m` of `s` under the corrected pattern: for a
   * require match, the bindings become group 5, and the specifier groups
   * become 6 and 7.  An import match keeps its record.
   */
  function Regroup(s: string, m: RegexMatch): (r: RegexMatch)
    ensures r.start == m.start && r.end == m.end && r.text == m.text
    ensures |m.groups| == 6 && m.groups[3].None? ==> r == m
  {
    if |m.groups| == 6 && m.groups[3].Some? then
      match RequireBindings(s, m.start, m.groups[3].value)
      case Some(b) => m.(groups := m.groups[..4] + [Some(b)] + m.groups[4..])
      case None => m
    else m
  }

  /** The writer the dispatch picks for each of the three keywords. */
  function KeywordWriter(kw: string): (w: ImportWriter)
    requires RequireKeyword(kw)
    ensures forall imports, moduleName :: Write(w, imports, moduleName) == PipeGenericRequire(kw, imports, moduleName)
  {
    if kw == "let" then LetRequire else if kw == "const" then ConstRequire else VarRequire
  }

  lemma RegroupBindingsPresent(s: string, m: RegexMatch)
    requires ValidMatch(s, m)
    ensures ImportBindingsPresent(Regroup(s, m))
  {
    if ImportForm(m) {
      ValidBindingsPresent(s, m);
    } else {
      assert Regroup(s, m).At(2).None? && Regroup(s, m).At(3).None?;
    }
  }

  /** The loop over the corrected records; it is the transform's loop in every other respect. */
  function IntendedRewriteFrom(s: string, from: nat, out: string, options: Options, file: VinylFile, host: HostPath): Result<string, PluginError>
    requires from <= |s|
    decreases |s| - from
  {
    match FindMatch(s, from)
    case None => Ok(out)
    case Some(m) =>
      FindMatchValid(s, from);
      RegroupBindingsPresent(s, m);
      match Step(Regroup(s, m), out, options, file, host)
      case Err(e) => Err(e)
      case Ok(next) => IntendedRewriteFrom(s, m.end, next, options, file, host)
  }

  function IntendedRewritten(s: string, options: Options, file: VinylFile, host: HostPath): Result<string, PluginError> {
    IntendedRewriteFrom(s, 0, s, options, file, host)
  }

  /** With the record of an import unchanged, imports are read as before. */
  lemma RegroupImport(s: string, m: RegexMatch)
    requires ImportForm(m)
    ensures Regroup(s, m) == m
  {
  }

  /** For a written require, the lazy part stops at the writer's `=`, so group 5 is the bindings with the writer's spaces round them. */
  lemma WrittenBindingsGroup(s: string, p: nat, r: string, kw: string, imports: string, target: string)
    requires NoLineTerminator(imports) && '=' !in imports && GoodSpec(target, '\'')
    requires r == PipeGenericRequire(kw, imports, target)
    requires p + |r| <= |s| && s[p..p + |r|] == r
    ensures RequireBindings(s, p, kw) == Some(" " + imports + " ")
  {
    var j := p + |kw| + |imports| + 2;
    WrittenRequireSlices(s, p, r, kw, imports, target);
    RequireParts(s, p, kw, imports, target, j, p + |r|);
    SpaceThen(s, p + |kw|, j, imports + " ");
    BindingsFromStop(s, p, kw, j, " " + imports + " ");
  }

  lemma SpaceThen(s: string, i: nat, j: nat, x: string)
    requires i < j <= |s| && s[i] == ' ' && s[i + 1..j] == x
    ensures s[i..j] == " " + x
  {
    assert s[i..j] == [s[i]] + s[i + 1..j];
  }

  lemma BindingsFromStop(s: string, p: nat, kw: string, j: nat, b: string)
    requires p + |kw| < |s| && LazyEnd(EqualsPart, s, p + |kw| + 1) == Some(j) && s[p + |kw|..j] == b
    ensures RequireBindings(s, p, kw) == Some(b)
  {
  }

  lemma RegroupWritten(s: string, m: RegexMatch, kw: string, b: string, target: string)
    requires m.groups == [None, None, None, Some(kw), None, Some(target)]
    requires RequireBindings(s, m.start, kw) == Some(b)
    ensures Regroup(s, m) == m.(groups := [None, None, None, Some(kw), Some(b), None, Some(target)])
  {
    InsertBindings(m.groups, kw, target, b);
    RegroupAt(s, m, kw, b);
  }

  /** Where the lazy part of a require match stops, group 5 goes in after the keyword. */
  lemma RegroupAt(s: string, m: RegexMatch, kw: string, b: string)
    requires |m.groups| == 6 && m.groups[3] == Some(kw) && RequireBindings(s, m.start, kw) == Some(b)
    ensures Regroup(s, m) == m.(groups := m.groups[..4] + [Some(b)] + m.groups[4..])
  {
  }

  lemma InsertBindings(g: seq<Option<string>>, kw: string, target: string, b: string)
    requires g == [None, None, None, Some(kw), None, Some(target)]
    ensures |g| == 6 && g[3] == Some(kw)
    ensures g[..4] + [Some(b)] + g[4..] == [None, None, None, Some(kw), Some(b), None, Some(target)]
  {
    assert g[..4] == [None, None, None, Some(kw)] && g[4..] == [None, Some(target)];
  }

  /**
   * Under the corrected pattern the require writers' output is read back
   * as its own statement: group 4 the keyword, group 5 the bindings with
   * their spaces, group 7 the specifier.
   */
  lemma IntendedRequireRecognized(r: string, kw: string, imports: string, target: string)
    requires RequireKeyword(kw) && NoLineTerminator(imports) && '=' !in imports && GoodSpec(target, '\'')
    requires r == PipeGenericRequire(kw, imports, target)
    ensures FindMatch(r, 0).Some?
    ensures Regroup(r, FindMatch(r, 0).value)
      == RegexMatch(0, |r|, r, [None, None, None, Some(kw), Some(" " + imports + " "), None, Some(target)])
  {
    RequireFoundAtStart(r, kw, imports, target);
    OccursWhole(r);
    WrittenBindingsGroup(r, 0, r, kw, imports, target);
    var m := RegexMatch(0, |r|, r, [None, None, None, Some(kw), None, Some(target)]);
    RegroupWritten(r, m, kw, " " + imports + " ", target);
  }

  /** Such a record is dispatched to the writer of its keyword, with the bindings trimmed. */
  lemma ClassifyIntendedRequire(m: RegexMatch, kw: string, imports: string, target: string)
    requires RequireKeyword(kw) && target != ""
    requires m.groups == [None, None, None, Some(kw), Some(" " + imports + " "), None, Some(target)]
    ensures ImportBindingsPresent(m) && Classify(m) == Rewrite(KeywordWriter(kw), Trim(imports), target)
  {
    assert m.At(4) == Some(kw) && m.At(5) == Some(" " + imports + " ");
    assert m.At(6).None? && m.At(7) == Some(target);
    PaddedTrim(imports);
    if kw == "let" {
      assert Classify(m) == Rewrite(LetRequire, Trim(imports), target);
    } else if kw == "const" {
      assert Classify(m) == Rewrite(ConstRequire, Trim(imports), target);
    } else {
      assert Classify(m) == Rewrite(VarRequire, Trim(imports), target);
    }
  }

  lemma IntendedRequireRendered(m: RegexMatch, kw: string, imports: string, target: string, options: Options, file: VinylFile, host: HostPath, rewritten: string)
    requires RequireKeyword(kw) && target != "" && TruthyTarget(Lookup(options, target))
    requires m.groups == [None, None, None, Some(kw), Some(" " + imports + " "), None, Some(target)]
    requires rewritten == PipeGenericRequire(kw, Trim(imports), ResolveTarget(Lookup(options, target).value, file, host))
    ensures ImportBindingsPresent(m) && Rendered(m, options, file, host) == Some(rewritten)
  {
    ClassifyIntendedRequire(m, kw, imports, target);
  }

  lemma IntendedRequireStep(r: string, m: RegexMatch, kw: string, imports: string, target: string, options: Options, file: VinylFile, host: HostPath, rewritten: string)
    requires RequireKeyword(kw) && target != "" && TruthyTarget(Lookup(options, target))
    requires m == RegexMatch(0, |r|, r, [None, None, None, Some(kw), Some(" " + imports + " "), None, Some(target)])
    requires rewritten == PipeGenericRequire(kw, Trim(imports), ResolveTarget(Lookup(options, target).value, file, host))
    requires '$' !in rewritten
    ensures ImportBindingsPresent(m) && Step(m, r, options, file, host) == Ok(rewritten)
  {
    IntendedRequireRendered(m, kw, imports, target, options, file, host, rewritten);
    WholeStep(r, m, options, file, host, rewritten);
  }

  lemma IntendedWholeFileStep(r: string, m: RegexMatch, options: Options, file: VinylFile, host: HostPath, rewritten: string)
    requires FindMatch(r, 0).Some? && m == Regroup(r, FindMatch(r, 0).value) && m.end == |r| && ImportBindingsPresent(m)
    requires Step(m, r, options, file, host) == Ok(rewritten)
    ensures IntendedRewritten(r, options, file, host) == Ok(rewritten)
  {
    NoMatchAtEnd(r);
    assert IntendedRewriteFrom(r, |r|, rewritten, options, file, host) == Ok(rewritten);
  }

  /**
   * The property the require branch is there for: a file that is one
   * require statement in the writers' own form, with a truthy mapping for
   * its specifier, comes out as the same statement, with the same
   * keyword, naming the mapped module.
   */
  lemma IntendedRequireRewritten(r: string, kw: string, imports: string, target: string, options: Options, file: VinylFile, host: HostPath)
    requires RequireKeyword(kw) && NoLineTerminator(imports) && '=' !in imports && GoodSpec(target, '\'')
    requires r == PipeGenericRequire(kw, imports, target) && TruthyTarget(Lookup(options, target))
    requires '$' !in PipeGenericRequire(kw, Trim(imports), ResolveTarget(Lookup(options, target).value, file, host))
    ensures IntendedRewritten(r, options, file, host)
      == Ok(PipeGenericRequire(kw, Trim(imports), ResolveTarget(Lookup(options, target).value, file, host)))
  {
    var rewritten := PipeGenericRequire(kw, Trim(imports), ResolveTarget(Lookup(options, target).value, file, host));
    IntendedRequireRecognized(r, kw, imports, target);
    var m := RegexMatch(0, |r|, r, [None, None, None, Some(kw), Some(" " + imports + " "), None, Some(target)]);
    IntendedRequireStep(r, m, kw, imports, target, options, file, host, rewritten);
    IntendedWholeFileStep(r, m, options, file, host, rewritten);
  }
}
