# gulp-rewrite-imports, modelled in Dafny

gulp-rewrite-imports is a gulp plugin that rewrites the module specifiers
of `import … from '…'` statements (and, by intent, of `const|let|var … =
require('…')` statements) in every buffered file that passes through it,
according to a `mappings` table from specifier to target.  A target is a
string used as it is, or an object `{ path, relative }` whose path is made
relative to the file being rewritten when `relative` is set.

The model follows `src/index.ts` piece by piece:

- `Pattern` (pattern.dfy): the global regular expression of the transform,
  as an explicit backtracking scanner with JavaScript's semantics.  The import
  alternative comes first.  Lazy parts are shortest first and never cross a
  line terminator.  The optional space and semicolon are greedy.  `exec`
  returns the leftmost match.  A match record holds its start, its end,
  `match[0]` and the six capture groups.  `At(i)` reads `match[i]`, and
  gives `undefined` for the nonexistent group 7.
- `JsString` (js_string.dfy): `trim` with ECMAScript's white space, `indexOf`,
  and `String.prototype.replace` with a string pattern.  `replace` changes
  only the first occurrence and expands the `$` patterns of the replacement.
- `Writers` (writers.dfy): the import writers `pipeGenericRequire`,
  `pipeLetRequire`, `pipeConstRequire`, `pipeVarRequire` and `pipeImport`.
- `Paths` (paths.dfy): `resolveRelativePath`.  Node's `path.join`,
  `path.resolve` and `path.relative` are parameters (`HostPath`).
- `Vinyl` (vinyl.dfy): the parts of a vinyl file and of a plugin error that
  the transform reads or builds.
- `Rewriter` (rewriter.dfy): the per-file callback (`Transform`) and its
  `while ((match = regex.exec(inContent)))` loop (`RewriteContents`, a
  method with an explicit `lastIndex`).  The loop is proved equal to the
  function `Rewritten`, which folds the loop body `Step` over the matches.
  `Classify` is the dispatch on capture groups, with the group indices read
  exactly as the code reads them.
- `Completeness` (completeness.dfy): the converse of the shapes `Pattern`
  proves.  Where the text holds a quoted specifier, a `from` clause, a
  require call or a whole import or require statement, in any of its
  quotes, spacings and semicolon forms, the scanner matches it there.
- `RoundTrip` (roundtrip.dfy): what the scanner makes of the writers' own
  output.
- `Properties` (properties.dfy): what the whole loop promises.
- `Examples` (examples.dfy): the plugin's own test, proved, and three
  statement forms the writers never emit, each found by the scanner.
- `ChainedExample` (chained.dfy): a rewrite that lands on an earlier,
  already rewritten statement.
- `Intended` (intended.dfy): the require branch as its code evidently
  means it to work (see Findings).

Three behaviours of the source are modelled as written:

- `replace` is called with the matched text on the output built so far, so
  it rewrites the first copy of that text.  This can be an earlier,
  already rewritten statement (`ChainedExample.RewritesEarlierStatement`).
- A `$` in the replacement is expanded.
- The dispatch never rewrites a require statement.

`Rewriter.Transform` and `Rewriter.RewriteContents` are the code as written.
The corrected require reading lives beside them in `Intended`.

## Model

| member | source | states |
|---|---|---|
| Pattern.QuotedAt | src/index.ts:59 | a quoted specifier is one or more characters up to the next quote of the same kind, double quotes tried first; it fails exactly when neither quote kind reads a specifier there |
| Pattern.FromClause | src/index.ts:59 | `from`, an optional space, a quoted specifier and an optional `;`: the text matched is exactly that, and the space is taken only when the rest then matches; it fails exactly when `from` is not followed, directly or after one space, by a quoted specifier |
| Pattern.RequireCall | src/index.ts:59 | `require(`, a quoted specifier, `)` and an optional `;`: the text matched is exactly that; it fails exactly when one of those pieces is missing |
| Pattern.EqualsClause | src/index.ts:59 | `=`, an optional space and the require call: the text matched is exactly that; it fails exactly when `=` is not followed, directly or after one space, by a require call |
| Pattern.ImportAt | src/index.ts:59 | the import alternative tried at one position: a match starts there, ends within the text and its `match[0]` is what it spans |
| Pattern.KeywordAt | src/index.ts:59 | one keyword branch of the require alternative: a match starts with that keyword, and its `match[0]` is what it spans |
| Pattern.RequireAt | src/index.ts:59 | the require alternative, its keywords tried in the order `const`, `let`, `var`: a match spans its own text |
| Pattern.MatchAt | src/index.ts:59 | one match attempt at one position, the import alternative before the require one: a match spans its own text |
| Pattern.FindMatch | src/index.ts:61 | `regex.exec` with `lastIndex`: a match starts at or after `lastIndex` and its `match[0]` is what it spans (leftmost by `FindMatchLeftmost`) |
| Pattern.LazyEnd | src/index.ts:59 | a lazy part stops at the first position where its continuation matches, has crossed no line terminator, and fails only when no such position exists on the line |
| Pattern.MatchAtValid | src/index.ts:59 | every match is import-form (groups 1 and 2 or 3 set, its text `import`, bindings, `from` clause) or require-form (group 4 a keyword, group 5 or 6 the specifier, groups 1 to 3 unset) |
| Pattern.FindMatchLeftmost | src/index.ts:61 | `exec` from `lastIndex` returns the match at the leftmost position where the pattern matches, and nothing when it matches nowhere |
| Pattern.FindMatchValid | src/index.ts:61 | the match `exec` returns has one of the two shapes |
| Pattern.AllMatches | src/index.ts:59-61 | the matches the loop sees are non-empty, lie left to right and never overlap |
| Pattern.AllMatchesValid | src/index.ts:59-61 | each of them has one of the two shapes |
| Completeness.QuotedRecognized | src/index.ts:59 | a specifier in double or single quotes, holding no quote of its kind, is read as exactly that specifier |
| Completeness.FromClauseRecognized | src/index.ts:59 | a `from` clause that is there, with or without its space and semicolon, is found with its specifier, its quotes and its space; it ends after the text, or one further when a `;` follows |
| Completeness.RequireCallRecognized | src/index.ts:59 | a require call that is there is found with its specifier and quotes |
| Completeness.EqualsClauseRecognized | src/index.ts:59 | an `=` clause that is there is found with its specifier, its quotes and its space |
| Completeness.ImportAtComplete | src/index.ts:59 | `import` followed on the same line by a position where the `from` clause matches is matched by the import alternative |
| Completeness.KeywordAtComplete | src/index.ts:59 | a keyword followed by at least one character and then, on the same line, an `=` clause is matched by that keyword's branch |
| Completeness.RequireAtComplete | src/index.ts:59 | where one keyword's branch matches, the require alternative and the pattern match |
| Completeness.ImportStatementMatched | src/index.ts:59 | an import statement, bindings on one line and a `from` clause in any form, is matched where it starts |
| Completeness.RequireStatementMatched | src/index.ts:59 | a `const`, `let` or `var` statement, at least one character on one line and an `=` clause in any form, is matched where it starts |
| Completeness.FindMatchComplete | src/index.ts:61 | `exec` finds a match no later than any position where the pattern matches |
| JsString.Trim | src/index.ts:73 | `String.prototype.trim`: leading and then trailing ECMAScript white space removed (its properties are `TrimIsSlice`, `TrimIdempotent` and `PaddedTrim`) |
| JsString.TrimIsSlice | src/index.ts:73 | `trim` returns the input with white space cut off both ends, and nothing else |
| JsString.TrimIdempotent | src/index.ts:86 | trimming twice is trimming once |
| JsString.PaddedTrim | src/index.ts:86 | a space either side of the bindings makes no difference to the trimmed bindings |
| JsString.IndexOfFrom | src/index.ts:103 | the search finds the first occurrence at or after its start, and none when there is none |
| JsString.Expand | src/index.ts:103 | the `$$`, `$&`, `` $` `` and `$'` patterns of a string replacement, every other `$` kept (its property is `ExpandLiteral`) |
| JsString.ExpandLiteral | src/index.ts:103 | a replacement without `$` is inserted literally |
| JsString.ReplaceFirst | src/index.ts:103 | `replace` with a string pattern changes nothing when the pattern does not occur, and otherwise puts the expanded replacement in place of its first occurrence, keeping both sides |
| JsString.ReplaceFirstAt | src/index.ts:103 | `replace` substitutes at the first occurrence only and leaves the text on both sides alone |
| Paths.ToForwardSlashes | src/index.ts:45 | every backslash becomes a slash, every other character stays, and no backslash is left |
| Paths.ToForwardSlashesIdempotent | src/index.ts:45 | normalising twice is normalising once |
| Paths.ResolveRelativePath | src/index.ts:39-46 | without `relative` the path is returned as it is; with it, the host's relative path with slashes only |
| Rewriter.Or | src/index.ts:74 | `a \|\| b` on capture groups is truthy exactly when one of them is |
| Rewriter.Lookup | src/index.ts:93 | the lookup finds a value exactly for the keys in the mappings, and finds that key's value |
| Rewriter.ResolveTarget | src/index.ts:93-100 | a string target and an object target without `relative` are used verbatim; a relative object target is the host's relative path with every backslash turned into a slash |
| Rewriter.Rendered | src/index.ts:93-102 | a statement is written exactly when the dispatch picked a writer and the mapping value is truthy |
| Rewriter.Step | src/index.ts:66-103 | one pass fails exactly on an invalid keyword, leaves the output alone when nothing is written, and otherwise `replace`s the match text with the written statement |
| Rewriter.Classify | src/index.ts:66-91 | the dispatch on `match[4]` to `match[7]` and `match[1]` to `match[3]`, reading the groups as the code does (its properties are `ClassifyImportForm`, `ClassifyRequireForm` and `ClassifyValid`) |
| Rewriter.ClassifyImportForm | src/index.ts:84-88 | an import-form match goes to the import writer with its trimmed bindings and its specifier, whichever the quotes |
| Rewriter.ClassifyRequireForm | src/index.ts:66-91 | a require-form match is skipped: by line 68 with single quotes, by line 89 with double quotes |
| Rewriter.ClassifyValid | src/index.ts:75-83 | no match of the pattern reaches the invalid-import error |
| Rewriter.RewriteFrom | src/index.ts:61-104 | the loop from a given `lastIndex` and output: each match's step applied in turn, stopping at the first error (its properties are `RewriteFromOk` and `Properties.RewriteIsFold`) |
| Rewriter.Rewritten | src/index.ts:57-104 | the loop from `lastIndex` 0 with the output starting as the input |
| Rewriter.RewriteFromOk | src/index.ts:61-104 | the loop never ends in an error |
| Rewriter.RewrittenOk | src/index.ts:82 | so the transform of a buffer never reports the invalid-import error |
| Rewriter.RewriteContents | src/index.ts:57-104 | the loop over an explicit `lastIndex` computes `Rewritten` of the input |
| Rewriter.Transform | src/index.ts:48-108 | null and directory files pass through, a stream gets the plugin's streaming error and no file, a buffer gets its rewritten text |
| Writers.PipeGenericRequire | src/index.ts:19-21 | the keyword, the bindings and the module, laid out as `<keyword> <imports> = require('<module>');` (split into pieces by `RoundTrip.PipeRequirePieces`) |
| Writers.PipeLetRequire | src/index.ts:23-25 | the generic require statement with `let` |
| Writers.PipeConstRequire | src/index.ts:27-29 | the generic require statement with `const` |
| Writers.PipeVarRequire | src/index.ts:31-33 | the generic require statement with `var` |
| Writers.PipeImport | src/index.ts:35-37 | `import <imports> from '<module>';` (split into pieces by `RoundTrip.PipeImportPieces`, read back by `RoundTrip.PipeImportReadsBack`) |
| RoundTrip.PipeImportPieces | src/index.ts:35-37 | the import writer's output is `import `, the bindings, ` from '`, the module and `';`, of the length those add up to |
| RoundTrip.PipeRequirePieces | src/index.ts:19-21 | the require writer's output is the keyword, a space, the bindings, a space and `= require('<module>');` |
| RoundTrip.ImportRecognizedAt | src/index.ts:59 | where the import writer's output sits, the pattern matches exactly that statement there, with the padded bindings in group 1 and the module in group 3 |
| RoundTrip.ClassifyWrittenImport | src/index.ts:84-88 | that record goes to the import writer with the original bindings and module |
| RoundTrip.PipeImportReadsBack | src/index.ts:35-37 | the import writer's output is read back as itself and dispatched as an import of its own bindings and module |
| RoundTrip.RequireRecognizedAt | src/index.ts:59 | where a require writer's output sits, the pattern matches exactly that statement, with the keyword in group 4, the module in group 6 and no bindings group |
| RoundTrip.ClassifyWrittenRequire | src/index.ts:66-71 | that record is skipped |
| RoundTrip.PipeRequireReadsBack | src/index.ts:19-21 | a require writer's output is read back as itself and then skipped |
| Properties.RewriteIsFold | src/index.ts:59-61 | the loop is its body folded over the matches of the original text: rewritten text is never rescanned |
| Properties.StepAllUnmapped | src/index.ts:93-96 | matches without a truthy mapping leave the output as it is |
| Properties.UnmappedIdentity | src/index.ts:57-58 | when no match has a truthy mapping, missing or falsy, the output is the input |
| Properties.NoMappingsIdentity | src/index.ts:93-96 | with empty mappings every file comes out unchanged |
| Properties.OnlyImportsRewritten | src/index.ts:66-91 | every match the loop sees is skipped or sent to the import writer, and every require-form match is skipped |
| Properties.ImportRewriteForm | src/index.ts:84-103 | a mapped import becomes `import ` + trimmed bindings + ` from '` + target + `';`, whatever its quotes, spacing and semicolon |
| Properties.StepReplacesFirstOccurrence | src/index.ts:103 | a mapped match changes the output only at the first occurrence of its text |
| Properties.StepWithoutOccurrence | src/index.ts:103 | a mapped match whose text no longer occurs in the output changes nothing |
| Properties.WrittenImportRewritten | src/index.ts:61-104 | a file that is one import in the writer's form, with a truthy mapping, comes out as that import naming the resolved target |
| Properties.WrittenRequireKept | src/index.ts:66-71 | a file that is one require statement in the writers' form comes out unchanged, whatever the mappings |
| Examples.OtherFormsMatched | src/index.ts:59-61 | a double-quoted import without a semicolon, one with no space after `from`, and a double-quoted require without a semicolon are each matched and found by `exec` |
| ChainedExample.RewritesEarlierStatement | src/index.ts:61-103 | with `x` mapped to `y` and `y` to `z`, the import of `x` followed by the import of `y` comes out as the import of `z` followed by the import of `y`: the second rewrite lands on the first statement |
| ChainedExample.ChainExample | src/index.ts:61-103 | the same for `import a from 'x';` and `import a from 'y';` written out |
| Examples.NoMatchWithoutImportOrRequire | src/index.ts:59 | text with neither `p` nor `q` holds no match, since every match contains `import` or `require(` |
| Examples.PluginExample | src/index.spec.ts:28-47 | the test's buffer with `nowhere` mapped to `somewhere` comes out with only the specifier changed and the second line intact |
| Intended.KeywordWriter | src/index.ts:75-80 | each keyword's writer emits the generic require statement with that keyword |
| Intended.RegroupImport | src/index.ts:84-88 | the corrected pattern leaves the record of an import as it is |
| Intended.IntendedRequireRecognized | src/index.ts:59 | under the corrected pattern a require writer's output is read back with the keyword in group 4, the padded bindings in group 5 and the module in group 7 |
| Intended.ClassifyIntendedRequire | src/index.ts:66-80 | such a record goes to the writer of its keyword with the trimmed bindings and the module |
| Intended.IntendedRequireRewritten | src/index.ts:66-103 | with the corrected pattern, a file that is one require statement in the writers' form, with a truthy mapping, comes out as that statement naming the resolved target |

## Findings

| source | as written | input that shows it | evidently intended | confidence | as-written member | corrected member |
|---|---|---|---|---|---|---|
| src/index.ts:66-74 | The require branch reads the keyword from group 4, the bindings from group 5 and the specifier from groups 6 and 7. The pattern at line 59 captures no bindings in its require alternative, so its specifier groups are 5 and 6. A single-quoted require fails the group 5 test at line 68, and a double-quoted one has groups 6 and 7 unset. No require statement is ever rewritten, and the let, const and var writers are never called. | `const x = require('a');` with mappings `{ a: 'b' }` comes out unchanged | the require alternative captures its `.+?` as group 5, and the file becomes `const x = require('b');` | high (not executed) | Properties.WrittenRequireKept | Intended.IntendedRequireRewritten |

## Left out

- The through2 object stream, the `enc` argument and the callback are left out.  The callback's two outcomes are the `Result` that `Transform` returns.
- `file.contents` is not updated in place.  `Transform` returns the file with its new contents.
- The conversions between `Buffer` and string (src/index.ts:57, 106) are left out.  Contents are strings.
- Strings are sequences of Unicode scalar values, not of UTF-16 code units.  Surrogate pairs are not modelled.
- Node's `path.join`, `path.resolve` and `path.relative` are not modelled.  They depend on the platform and the working directory, and are taken as the parameter `HostPath`.  Only the `relative` check and the backslash normalisation are proved.
- Lookups on `mappings` that reach `Object.prototype` (for example the key `constructor`) are not modelled.  Mapping values other than strings and `{ path, relative }` objects are excluded by the option type and not modelled either.
- Streaming is not implemented in the source.  A stream only produces the error.
- gulpfile.js and types/replacestream/index.d.ts are not part of this model.  They hold build glue and a type declaration.
- Properties.StepReplacesFirstOccurrence: states the literal insertion only for a replacement without `$`.  With a `$`, `Rewriter.Step` states the general result through `JsString.ReplaceFirst`, which expands `$$`, `$&`, `` $` `` and `$'`.
- Properties.WrittenImportRewritten: requires that the rewritten statement holds no `$`, for the same reason.
- Intended.IntendedRequireRewritten: requires that the rewritten statement holds no `$`, for the same reason.
- Examples.PluginExample: the test checks `isBuffer()` on the result.  That follows from `Rewriter.Transform`, which keeps a buffer a buffer, and is not stated again.
