/**
 * The plugin's transform: for each buffered file, scan the original text
 * for import and require statements, look each specifier up in the
 * mappings, and rewrite the output text one statement at a time.
 */
module Rewriter {
  import opened Wrappers
  import opened JsString
  import opened Pattern
  import opened Writers
  import opened Paths
  import opened Vinyl

  const PluginName: string := "gulp-rewrite-imports"

  const StreamingError: string := "Streaming is currently not supported"

  /** A mapping value: a path used as it is, or an object with a path and the `relative` flag (absent reads as false). */
  datatype TargetPath = Literal(path: string) | Located(path: string, relative: bool)

  datatype Options = Options(mappings: map<string, TargetPath>)

  /** JavaScript truthiness of a capture group: `undefined` and `''` are falsy. */
  predicate Truthy(g: Option<string>) {
    g.Some? && g.value != ""
  }

  /** `a || b` on two capture groups. */
  function Or(a: Option<string>, b: Option<string>): (r: Option<string>)
    ensures Truthy(r) <==> Truthy(a) || Truthy(b)
  {
    if Truthy(a) then a else b
  }

  /** `options.mappings[srcModule]`: `undefined` for a key that is not there. */
  function Lookup(options: Options, srcModule: string): (r: Option<TargetPath>)
    ensures r.Some? <==> srcModule in options.mappings
    ensures r.Some? ==> r.value == options.mappings[srcModule]
  {
    if srcModule in options.mappings then Some(options.mappings[srcModule]) else None
  }

  /** JavaScript truthiness of a mapping value: `undefined` and the empty string are falsy, every object is truthy. */
  predicate TruthyTarget(t: Option<TargetPath>) {
    match t
    case None => false
    case Some(Literal(p)) => p != ""
    case Some(Located(_, _)) => true
  }

  /** What the loop body decides for one match before the mappings are consulted. */
  datatype Action =
    | Skip
    | Invalid
    | Rewrite(writer: ImportWriter, imports: string, srcModule: string)

  /** The code reads `match[1]` whenever groups 2 or 3 are set and 6 and 7 are not; the pattern guarantees it is there. */
  predicate ImportBindingsPresent(m: RegexMatch) {
    Truthy(Or(m.At(6), m.At(7))) || !Truthy(Or(m.At(2), m.At(3))) || m.At(1).Some?
  }

  /**
   * The dispatch on capture groups, reading the group indices exactly as
   * the code does.  For a match of the pattern the require branch never
   * produces a writer: a single-quoted require sets group 6 but never
   * group 5, and a double-quoted one sets group 5 but neither 6 nor the
   * nonexistent group 7, nor 2 or 3.
   */
  function Classify(m: RegexMatch): Action
    requires ImportBindingsPresent(m)
  {
    if Truthy(Or(m.At(6), m.At(7))) then
      if !Truthy(m.At(4)) || !Truthy(m.At(5)) then Skip
      else
        var keyword := m.At(4).value;
        var imports := Trim(m.At(5).value);
        var srcModule := Or(m.At(6), m.At(7)).value;
        if keyword == "let" then Rewrite(LetRequire, imports, srcModule)
        else if keyword == "const" then Rewrite(ConstRequire, imports, srcModule)
        else if keyword == "var" then Rewrite(VarRequire, imports, srcModule)
        else Invalid
    else if Truthy(Or(m.At(2), m.At(3))) then
      Rewrite(Import, Trim(m.At(1).value), Or(m.At(2), m.At(3)).value)
    else Skip
  }

  /** The module a mapping value names: a string as it is, an object through `resolveRelativePath`. */
  function ResolveTarget(t: TargetPath, file: VinylFile, host: HostPath): (r: string)
    ensures t.Literal? ==> r == t.path
    ensures t.Located? && !t.relative ==> r == t.path
    ensures t.Located? && t.relative ==> '\\' !in r && SameUpToSeparators(HostRelative(host, t.path, file), r)
  {
    match t
    case Literal(p) => p
    case Located(p, relative) => ResolveRelativePath(p, relative, file, host)
  }

  /** The error the code reports for a require whose keyword is none of the three. */
  function InvalidImport(file: VinylFile, m: RegexMatch): PluginError {
    PluginError(PluginName, "Encountered invalid import in file " + file.basename + ": " + m.text)
  }

  /** The statement that replaces match `m`, when its specifier has a truthy mapping. */
  function Rendered(m: RegexMatch, options: Options, file: VinylFile, host: HostPath): (r: Option<string>)
    requires ImportBindingsPresent(m)
    ensures r.Some? <==> Classify(m).Rewrite? && TruthyTarget(Lookup(options, Classify(m).srcModule))
  {
    match Classify(m)
    case Rewrite(w, imports, srcModule) =>
      var dest := Lookup(options, srcModule);
      if !TruthyTarget(dest) then None
      else Some(Write(w, imports, ResolveTarget(dest.value, file, host)))
    case _ => None
  }

  /** One pass of the loop body over match `m`, with `out` the output text so far. */
  function Step(m: RegexMatch, out: string, options: Options, file: VinylFile, host: HostPath): (r: Result<string, PluginError>)
    requires ImportBindingsPresent(m)
    ensures r.Err? <==> Classify(m).Invalid?
    ensures r.Ok? && Rendered(m, options, file, host).None? ==> r.value == out
    ensures Rendered(m, options, file, host).Some? ==> r == Ok(ReplaceFirst(out, m.text, Rendered(m, options, file, host).value))
  {
    if Classify(m).Invalid? then Err(InvalidImport(file, m))
    else match Rendered(m, options, file, host)
      case None => Ok(out)
      case Some(rewritten) => Ok(ReplaceFirst(out, m.text, rewritten))
  }

  lemma ValidBindingsPresent(s: string, m: RegexMatch)
    requires ValidMatch(s, m)
    ensures ImportBindingsPresent(m)
  {
  }

  /** An import-form match is sent to the import writer with its trimmed bindings and its specifier, whichever the quotes. */
  lemma ClassifyImportForm(m: RegexMatch)
    requires ImportForm(m)
    ensures ImportBindingsPresent(m)
    ensures Classify(m) == Rewrite(Import, Trim(m.groups[0].value), Or(m.groups[1], m.groups[2]).value)
  {
  }

  /**
   * A require-form match never reaches a writer: with single quotes group
   * 6 is set but group 5 is not, so the inner check skips it; with double
   * quotes groups 6, 7, 2 and 3 are all unset, so the last branch skips it.
   */
  lemma ClassifyRequireForm(m: RegexMatch)
    requires RequireForm(m)
    ensures ImportBindingsPresent(m)
    ensures Classify(m) == Skip
  {
  }

  /** No match of the pattern is classified as an invalid import. */
  lemma ClassifyValid(s: string, m: RegexMatch)
    requires ValidMatch(s, m)
    ensures ImportBindingsPresent(m) && !Classify(m).Invalid?
  {
    if ImportForm(m) { ClassifyImportForm(m); } else { ClassifyRequireForm(m); }
  }

  /** The rest of the loop from `lastIndex == from` with output `out` so far; only the original text `s` is ever scanned. */
  function RewriteFrom(s: string, from: nat, out: string, options: Options, file: VinylFile, host: HostPath): Result<string, PluginError>
    requires from <= |s|
    decreases |s| - from
  {
    match FindMatch(s, from)
    case None => Ok(out)
    case Some(m) =>
      FindMatchValid(s, from);
      match Step(m, out, options, file, host)
      case Err(e) => Err(e)
      case Ok(next) => RewriteFrom(s, m.end, next, options, file, host)
  }

  /** What the transform makes of a buffer's text. */
  function Rewritten(s: string, options: Options, file: VinylFile, host: HostPath): Result<string, PluginError> {
    RewriteFrom(s, 0, s, options, file, host)
  }

  /** The invalid-import error is unreachable: the rest of the loop never fails, whatever the output so far. */
  lemma {:induction false} RewriteFromOk(s: string, from: nat, out: string, options: Options, file: VinylFile, host: HostPath)
    requires from <= |s|
    ensures RewriteFrom(s, from, out, options, file, host).Ok?
    decreases |s| - from
  {
    match FindMatch(s, from)
    case None =>
    case Some(m) =>
      FindMatchValid(s, from);
      ClassifyValid(s, m);
      RewriteFromOk(s, m.end, Step(m, out, options, file, host).value, options, file, host);
  }

  /** So the transform of a buffer never reports an error. */
  lemma RewrittenOk(s: string, options: Options, file: VinylFile, host: HostPath)
    ensures Rewritten(s, options, file, host).Ok?
  {
    RewriteFromOk(s, 0, s, options, file, host);
  }

  /**
   * The loop of the transform: `regex.exec` on the unchanged input with
   * an explicit `lastIndex`, one classification and lookup per match, and
   * the output rewritten by a first-occurrence `replace`.
   */
  method RewriteContents(inContent: string, options: Options, file: VinylFile, host: HostPath) returns (r: Result<string, PluginError>)
    ensures r == Rewritten(inContent, options, file, host)
  {
    var outContent := inContent;
    var lastIndex := 0;
    while true
      invariant lastIndex <= |inContent|
      invariant RewriteFrom(inContent, lastIndex, outContent, options, file, host) == Rewritten(inContent, options, file, host)
      decreases |inContent| - lastIndex
    {
      var found := FindMatch(inContent, lastIndex);
      if found.None? {
        return Ok(outContent);
      }
      var m := found.value;
      FindMatchValid(inContent, lastIndex);
      lastIndex := m.end;
      match Classify(m)
      case Skip =>
      case Invalid =>
        return Err(InvalidImport(file, m));
      case Rewrite(importWriter, imports, srcModule) =>
        var destModule := Lookup(options, srcModule);
        if TruthyTarget(destModule) {
          var dest := ResolveTarget(destModule.value, file, host);
          var rewrittenImport := Write(importWriter, imports, dest);
          outContent := ReplaceFirst(outContent, m.text, rewrittenImport);
        }
    }
  }

  /**
   * The per-file callback: null and directory entries pass through, a
   * stream is refused with the plugin's error and no file, and a buffer
   * gets its text rewritten.
   */
  method Transform(options: Options, file: VinylFile, host: HostPath) returns (r: Result<VinylFile, PluginError>)
    ensures file.contents.Null? || file.contents.Directory? ==> r == Ok(file)
    ensures file.contents.Stream? ==> r == Err(PluginError(PluginName, StreamingError))
    ensures file.contents.Buffer? && Rewritten(file.contents.text, options, file, host).Ok? ==> r == Ok(file.(contents := Buffer(Rewritten(file.contents.text, options, file, host).value)))
    ensures file.contents.Buffer? && Rewritten(file.contents.text, options, file, host).Err? ==> r == Err(Rewritten(file.contents.text, options, file, host).error)
  {
    if file.contents.Null? || file.contents.Directory? {
      return Ok(file);
    }
    if file.contents.Stream? {
      return Err(PluginError(PluginName, StreamingError));
    }
    var inContent := file.contents.text;
    var outcome := RewriteContents(inContent, options, file, host);
    match outcome
    case Err(e) =>
      return Err(e);
    case Ok(outContent) =>
      return Ok(file.(contents := Buffer(outContent)));
  }
}
