# Sass glob imports, modelled in Dafny

`sassGlobImports` is a webpack loader for Sass style sheets. It looks for
`@import`, `@use` and `@include meta.load-css(...)` directives whose quoted
path is a glob pattern. It replaces each such directive by one directive per
style sheet the glob finds. It writes paths relative to the importing file.
It drops paths that match an `ignorePaths` pattern. For `@use` it can add a
namespace clause (` as ...`). It leaves out the `;` when the directive is
written in the indented (`.sass`) syntax. When the directory part of a
pattern does not exist, it prints a warning.

The model has five main modules, following how the loader's single function
is organised, and a small `Optional` module holding the `Option` type the
others use:

- `JsStrings`: the JavaScript string and array built-ins the loader uses,
  each stated by its defining property. These are `split`, `join` and
  `indexOf`, global replace, case-insensitive search, and line splitting at
  the line terminators of JavaScript regular expressions.
- `Scanner`: the directive regular expression with its `g` and `m` flags,
  as a classifier of single lines. `Classify` returns the five capture
  groups as a `Directive` record, and `Render` is its inverse. The greedy
  comment in group 1 and the optional `meta.load-css(` wrapper with its
  independent `)` are modelled as the pattern has them.
- `Namespaces`: the `namespace` option. It is a closed choice: no namespace
  (absent, `false` or a value of another type), a literal string, the
  derived name (`true`), or a function of path and index. The derived name
  is computed from a path's segments.
- `Resolution`: the replacement callback. Functions specify it:
  `Survivors`, `ImportLines`, `Expansion` and `DirectoryWarnings`. Methods
  build it step by step, as the source does: `CollectImports` has the
  `forEach` loop, `WarnMissingDirectory` the existence check, and
  `ExpandDirective` the whole callback.
- `Loader`: `source.replace`. `RewriteText` rewrites the source line by
  line, keeping every line terminator where it was. The method
  `SassGlobImports` walks the source match by match and is proved to
  compute `RewriteText`.

Two further modules restate the repository's test suite.
`Examples` holds generic lemmas about the suite's setup: a two-file glob
result, or an empty result with a missing directory. `TestSuite` has one
lemma per test case, stating the processed source and the warnings that
case expects.

The filesystem, the glob library, `path.relative` and `minimatch` are
parameters of type `Host`. They are total functions the loader's
surroundings supply. `console.warn` becomes a returned list of warning
texts.

## Model

| member | source | states |
|---|---|---|
| JsStrings.Split | src/index.ts:35 | No piece holds the separator, and joining the pieces with it gives back the input. |
| JsStrings.Join | src/index.ts:92 | `join`: the pieces with the separator between them. Its behaviour is stated by `JoinCons` (one piece in front), `JoinEmpty` and `Split` (joining the pieces of a split gives the input back). |
| JsStrings.JoinCons | src/index.ts:92 | Joining a piece in front of at least one more piece puts the separator between it and the join of the rest. |
| JsStrings.IndexOf | src/index.ts:59 | Gives -1 exactly when the value is absent; otherwise the first position holding it. |
| JsStrings.ReplaceAll | src/index.ts:49 | A global one-character replace: same length, and each character is replaced exactly when it is the searched one. |
| JsStrings.RemoveAll | src/index.ts:71 | `replace(/_/g, '')`: no `_` is left, and every other character keeps its number of occurrences. Their order is stated by `RemoveAllConcat` and `RemoveAllChar`. |
| JsStrings.RemoveAllConcat | src/index.ts:71 | Removing a character from a concatenation removes it from each part, so the kept characters stay in their order. |
| JsStrings.RemoveAllChar | src/index.ts:71 | A single character is dropped exactly when it is the removed one, and kept otherwise. |
| JsStrings.ContainsIgnoreCaseAt | src/index.ts:19 | The case-insensitive search succeeds exactly when the pattern occurs at some position in the text. |
| JsStrings.FirstIndex | src/index.ts:35 | The first position of a character, or the length when it does not occur. |
| JsStrings.JoinEmpty | src/index.ts:92 | A join with a non-empty separator is empty exactly when there is no piece, or one empty piece. |
| JsStrings.LinesOfJoin | src/index.ts:16-17 | Splitting at line terminators undoes joining terminator-free lines with `\n`. |
| JsStrings.Lines | src/index.ts:16-17 | The lines the `m` flag sees: at least one, none holding a line terminator, and joining terminator-free lines with `\n` is undone by `Lines` (`LinesOfJoin`). |
| Scanner.Classify | src/index.ts:16-17 | The pattern applied to one line: the capture record of a match, or nothing. What it gives is stated by `ClassifySound`, `ClassifyComplete`, `ClassifyUncommented`, `ClassifyAtSign` and `ClassifyNeedsAt`. |
| Scanner.Render | src/index.ts:17 | A capture record written out as a line, groups and fixed text in the pattern's order. It is the inverse of `Classify`: `ClassifySound`, `ClassifyComplete`, `RenderInjective` and `ParseRenderedTail`. |
| Scanner.ClassifySound | src/index.ts:17 | A matched line is the rendering of a well-formed record. The five groups, with the fixed text between them, make up the line. |
| Scanner.ClassifyComplete | src/index.ts:17 | Every line of the directive's shape is matched. Group 1 is at least as long as the record's, since the comment in it is greedy. |
| Scanner.ClassifyUncommented | src/index.ts:17 | With a blank group 1, a well-shaped line is matched as exactly its record if its pattern has a `*` after its first character, and is not matched otherwise. |
| Scanner.ClassifyAtSign | src/index.ts:17 | A line that starts with `@` has an empty group 1. |
| Scanner.ClassifyNeedsAt | src/index.ts:17 | A matched line contains `@`. |
| Scanner.RenderInjective | src/index.ts:17 | Two directive-shaped records whose patterns have an inner `*`, with the same group 1 and the same text, are the same record. So the groups are determined by the line. |
| Scanner.LongestCutGreedy | src/index.ts:17 | The greedy comment search always succeeds, and ends no earlier than any `*/` after which the rest of the line is accepted. |
| Scanner.ParseAfterPrefixSound | src/index.ts:17 | What follows group 1 is parsed into pieces of the pattern's shape, and they render back to the text. |
| Scanner.ParseRenderedTail | src/index.ts:17 | Rendering a well-shaped record and parsing it again gives back the record, if its pattern has an inner `*`. |
| Namespaces.NamespaceSuffix | src/index.ts:54-76 | The clause is empty or starts with ` as `. A string always gives ` as <string>`. With `true` or a function, the clause holds the derived name or the function's result, and it is empty exactly when that name is empty. No option gives no clause. |
| Namespaces.StripScssExtension | src/index.ts:71 | A trailing `_scss` or `.scss` (lower case) is removed, and any other name is kept whole. |
| Namespaces.StripScssOf | src/index.ts:71 | `_scss` and `.scss` endings are stripped. |
| Namespaces.StripScssKeeps | src/index.ts:71 | `.sass` and `.SCSS` endings are kept. |
| Namespaces.CleanFileName | src/index.ts:71 | The cleaned file name is the segment with its `[_.]scss` ending cut off and then every `_` removed. So it has no `_` and is no longer than the segment. |
| Namespaces.CleanFileNameOfPartial | src/index.ts:71 | A partial such as `_file-a.scss` or `x.scss` loses its ending and all its `_`. |
| Namespaces.CleanFileNameKeeps | src/index.ts:71 | A name without `_` and without a lower-case `_scss` or `.scss` ending is kept whole. |
| Namespaces.WithoutParents | src/index.ts:69-70 | A segment occurs in the result exactly when it occurs among the directories and is not `..`. The result is empty exactly when every segment is `..`. Order and repetitions are stated by `WithoutParentsCons` and `WithoutParentsConcat`. |
| Namespaces.WithoutParentsCons | src/index.ts:69-70 | A leading `..` is dropped, and any other leading segment is kept in front of the filtered rest. |
| Namespaces.WithoutParentsConcat | src/index.ts:69-70 | The filter works on two runs of segments independently, keeping their order and repetitions. |
| Namespaces.DerivedName | src/index.ts:68-72 | The name `namespace: true` gives a path. It is stated segment by segment by `DerivedNameIsBySegments`, `DerivedNameStep`, `DerivedNameOfFile` and `NameOfPartsEmpty`. |
| Namespaces.DerivedNameIsBySegments | src/index.ts:68-72 | The derived name is the directory segments without `..`, then the cleaned file name, joined with `-`. |
| Namespaces.DerivedNameStep | src/index.ts:68-72 | A leading directory adds `dir-` to the derived name, unless it is `..`. |
| Namespaces.DerivedNameOfFile | src/index.ts:68-72 | For a path without `/`, the derived name is the cleaned file name. |
| Namespaces.NameOfPartsEmpty | src/index.ts:72-73 | The derived name is empty exactly when every directory is `..` and the cleaned file name is empty. |
| Resolution.HasStyleExtension | src/index.ts:48 | The name ends in `.scss` or `.sass`, in any case. `Survivor` states that exactly such glob results can contribute. |
| Resolution.StripLeadingSlash | src/index.ts:50 | At most one leading `/` is removed, and it is removed exactly when the path starts with `/`. |
| Resolution.NormalizePath | src/index.ts:49-50 | The normalised path has no `\`. It is the slash-replaced path, with one leading `/` removed exactly when the slash-replaced path starts with `/`. |
| Resolution.NormalizePathTwice | src/index.ts:49-50 | Normalising twice equals normalising once exactly when the slash-replaced path does not start with `//`. |
| Resolution.IsIgnored | src/index.ts:52 | A path is ignored exactly when some ignore pattern matches it. |
| Resolution.Survivor | src/index.ts:48-52 | A glob result contributes exactly when it ends in `.scss` or `.sass` (any case) and its normalised relative path is not ignored. What it contributes is that path. |
| Resolution.Survivors | src/index.ts:47-52 | The paths the glob results contribute, in order. Its contract bounds the length; what it keeps is stated by `SurvivorsConcat`, `SurvivorsMembers` and `SurvivorsOfStyleSheets`. |
| Resolution.SurvivorsConcat | src/index.ts:47-52 | The glob results are filtered one by one, in their order. |
| Resolution.SurvivorsMembers | src/index.ts:47-52 | A path is kept exactly when some glob result contributes it. |
| Resolution.SurvivorsOfStyleSheets | src/index.ts:47-52 | With no ignore patterns and only style sheets, every result is kept: its normalised relative path, at its position. |
| Resolution.ImportLines | src/index.ts:47-86 | One generated line per surviving path, in the same order: entry `k` is the line of path `k`. |
| Resolution.ImportLinesSnoc | src/index.ts:47-86 | Each further glob result appends its own lines to those of the earlier results. |
| Resolution.FixedPart | src/index.ts:35 | The text before the first `*`: it has no `*`, starts the pattern, and is followed by `*` if shorter than the pattern. |
| Resolution.SplitFirst | src/index.ts:35 | The first piece of a split is the text before the first separator. |
| Resolution.DirectoryWarnings | src/index.ts:35-41 | At most one warning. There is one exactly when the text before the first `*` is non-empty and does not exist, and it names the pattern. |
| Resolution.WarnMissingDirectory | src/index.ts:34-41 | The method's warnings are those of `DirectoryWarnings`. |
| Resolution.IsSass | src/index.ts:19 | `match.match(/\.sass/i)`: the matched line holds `.sass` in any case. The search is stated by `ContainsIgnoreCaseAt`. |
| Resolution.NamespaceExport | src/index.ts:53-76 | Only a `@use` line gets a clause, the one `NamespaceSuffix` gives for the path and its `indexOf` position. Stated by `ImportLineOptions` and `NamespaceSuffix`. |
| Resolution.ImportLine | src/index.ts:76-83 | The generated line for one path. Its shape per branch is stated by `UseLineShape`, `WrappedLineShape` and `PlainLineShape`, and its terminator by `ImportLineSemicolon`. |
| Resolution.UseLineShape | src/index.ts:78 | A `@use` line is `@use "<path>"`, then the namespace clause, then the terminator. |
| Resolution.WrappedLineShape | src/index.ts:79-80 | An `@include` with the wrapper gives `@include meta.load-css("<path>")` and the terminator, whatever the namespace. |
| Resolution.PlainLineShape | src/index.ts:81-82 | `@import` (with or without the wrapper) and `@include` without it give `@<keyword> "<path>"` and the terminator. |
| Resolution.ImportLineSemicolon | src/index.ts:78-82 | The plain-syntax line is the indented-syntax line followed by `;`. |
| Resolution.ImportLineOptions | src/index.ts:53-83 | The namespace clause only affects `@use` lines, and the wrapper only affects `@include` lines. |
| Resolution.ImportLineNotBlank | src/index.ts:78-91 | Every generated line starts with `@`, so it is never removed as blank. |
| Resolution.ImportLineRendered | src/index.ts:78-82 | A generated line without a clause is the rendering of a directive record. |
| Resolution.UseLineWithNamespace | src/index.ts:17 | A `@use` line followed by ` a...` is not matched by the directive pattern. |
| Resolution.ImportLineRescan | src/index.ts:17 | A generated line is matched again by the pattern exactly when it has no namespace clause and its path has an inner `*`. |
| Resolution.LineForRescan | src/index.ts:53-83 | The same rescanning fact for the line generated from a path and the namespace option. |
| Resolution.Reattach | src/index.ts:88-89 | Group 1 in front when non-empty, group 5 behind when non-empty. What survives the blank filter is stated by `ReattachFiltered` and `NonBlankPiece`. |
| Resolution.NonBlank | src/index.ts:91 | The entries that are not blank after trimming, in order. Stated by `NonBlankConcat`, `NonBlankKeepsAll` and `NonBlankPiece`. |
| Resolution.KeptPiece | src/index.ts:88-91 | Group 1 or group 5 is kept, as itself, exactly when it is not blank. |
| Resolution.NonBlankConcat | src/index.ts:91 | Removing blank entries distributes over concatenation. |
| Resolution.NonBlankKeepsAll | src/index.ts:91 | A list without blank entries is kept whole. |
| Resolution.NonBlankPiece | src/index.ts:88-91 | A group that is put back only when non-empty survives the blank filter exactly when it is not blank. |
| Resolution.ReattachFiltered | src/index.ts:88-91 | After reattachment and filtering: group 1 if not blank, then the generated lines, then group 5 if not blank. |
| Resolution.ImportLinesNotBlank | src/index.ts:78-91 | No generated line is blank. |
| Resolution.Expansion | src/index.ts:18-92 | The callback's return value. It is stated by `ExpansionPieces` and `ExpansionEmpty`, and computed by the method `ExpandDirective`. |
| Resolution.ExpansionPieces | src/index.ts:46-92 | The replacement is the `\n`-join of kept group 1, one line per surviving path in glob order, and kept group 5. |
| Resolution.ExpansionEmpty | src/index.ts:88-92 | The replacement is empty exactly when no path survives and both groups are blank. |
| Resolution.CollectImports | src/index.ts:46-86 | The loop builds exactly the lines of the surviving paths, in order. |
| Resolution.ExpandDirective | src/index.ts:18-93 | The callback's method returns the specified replacement and the warnings of its pattern. |
| Loader.RewriteLine | src/index.ts:16-93 | A matched line is replaced by the callback's result, any other line is kept (`MatchedLine`, `Examples.PlainLine`, `ProcessLine`). |
| Loader.LineWarnings | src/index.ts:34-41 | A matched line causes the warnings of its pattern, any other line none (`MatchedLine`, `Examples.PlainLine`). |
| Loader.RewriteText | src/index.ts:16-94 | `source.replace` with the `g` flag: every line rewritten on its own, every terminator kept. Stated by `RewriteOneLine`, `RewriteFirstLine`, `RewriteJoin` and `RewriteWithoutDirectives`, and computed by `SassGlobImports`. |
| Loader.RewriteWarnings | src/index.ts:34-41 | The warnings of the callback calls, in line order. Stated by the same lemmas as `RewriteText`. |
| Loader.RewriteOneLine | src/index.ts:16-17 | A text without line terminators is rewritten as one line. |
| Loader.RewriteFirstLine | src/index.ts:16-17 | The first line is rewritten independently of the rest. Its terminator stays, and the warnings come in line order. |
| Loader.RewriteJoin | src/index.ts:16-17 | Lines joined with `\n` are rewritten line by line, and the warnings are those of the lines, in order. |
| Loader.RewriteWithoutDirectives | src/index.ts:16-17 | A source without directive lines is returned unchanged, with no warning. |
| Loader.NoDirectivesWithoutAt | src/index.ts:17 | A source without `@` has no directive line. |
| Loader.ProcessLine | src/index.ts:16-18 | A matched line goes to the callback; any other line is kept. |
| Loader.MatchedLine | src/index.ts:16-18 | A matched line becomes the callback's replacement for its record, and causes the warnings of its pattern. |
| Loader.NextLine | src/index.ts:16-18 | The first line of what is left is handled on its own. Its result, its terminator and the rewrite of the remainder make up the rewrite of what was left. |
| Loader.Advance | src/index.ts:16-18 | Each turn of the scan keeps the output so far, followed by the rewrite of what is left, equal to the rewrite of the whole source, and it shortens what is left. |
| Loader.SassGlobImports | src/index.ts:9-97 | The loader's result and warnings, built match by match, are those of `RewriteText` and `RewriteWarnings`. |
| Examples.PlainLine | src/index.ts:16-17 | A line without `@` is kept and causes no warning. |
| Examples.TestLineMatched | src/index.ts:17 | A directive line of the test suite's form is matched as its record. |
| Examples.TestLineFacts | src/index.ts:17-19 | The suite's directive lines are matched, are single lines, and count as indented syntax when their pattern holds `.sass`. |
| Examples.TwoFileExpansion | src/index.ts:46-92 | With a two-file glob result of test paths, the replacement has exactly those two generated lines between the kept groups. |
| Examples.TwoFileLine | src/index.ts:18-92 | With a blank group 1 and no group 5, the line becomes the two generated lines, without a warning. |
| Examples.MissingDirectoryLine | src/index.ts:35-92 | With nothing found and a missing directory, the line is emptied and the one warning names the pattern. |
| Examples.UseLines | src/index.ts:59-78 | The two `@use` lines get the clauses for positions 0 and 1. |
| Examples.ImportLinesOf | src/index.ts:81-82 | The two `@import` lines name their paths and have no clause. |
| Examples.IncludeLinesOf | src/index.ts:79-80 | The two wrapped `@include` lines name their paths and have no clause. |
| Examples.PlainLines | src/index.ts:16-17 | Lines without `@` are kept and cause no warning. |
| Examples.OneDirectiveLine | src/index.ts:16-17 | When only one line can hold a directive, only that line is rewritten, and only it warns. |
| Examples.TextWithOneDirective | src/index.ts:16-17 | In a source where only one line can be a directive, only that line changes, and only it warns. |
| Examples.FourLineSource | src/index.ts:16-92 | The four-line sources of the `@use` and `@import` cases become their expected five lines, without warnings. |
| Examples.FiveLineSource | src/index.ts:16-92 | The five-line sources of the `@include` cases become their expected six lines, without warnings. |
| TestSuite.UseScssLine | test/use-directive.test.ts:15-18 | The `@use` line of the `.scss` cases is matched, and it is not indented syntax. |
| TestSuite.UseSassLine | test/use-directive.test.ts:19-22 | The `@use` line of the `.sass` cases is matched, and it is indented syntax. |
| TestSuite.IncludeScssNotSass | test/include-meta-load-css.test.ts:15-19 | The wrapped `@include` line does not mention `.sass`, although `meta.load-css` holds all of its letters. |
| TestSuite.UseScssCase | test/use-directive.test.ts:56-118 | One `@use` line per file, each with the namespace clause of its path and position and with `;`. |
| TestSuite.UseScssDefault | test/use-directive.test.ts:56-73 | Without a namespace option, the lines have no clause. |
| TestSuite.UseScssWildcard | test/use-directive.test.ts:75-93 | With `namespace: '*'`, every line ends in ` as *;`. |
| TestSuite.UseScssCustom | test/use-directive.test.ts:95-118 | With a function answering `files-0` and `files-1`, the lines end in ` as files-0;` and ` as files-1;`. |
| TestSuite.UseSassCase | test/use-directive.test.ts:143-205 | The same lines without `;` for the indented syntax. |
| TestSuite.UseSassDefault | test/use-directive.test.ts:143-160 | Indented syntax with no namespace: `@use "<file>"` lines. |
| TestSuite.UseSassWildcard | test/use-directive.test.ts:162-180 | Indented syntax with the wildcard: lines end in ` as *`. |
| TestSuite.UseSassCustom | test/use-directive.test.ts:182-205 | Indented syntax with the function: lines end in ` as files-0` and ` as files-1`. |
| TestSuite.UseMissingCase | test/use-directive.test.ts:230-252 | The directive line is emptied, and there is exactly one warning, naming the pattern. |
| TestSuite.ImportScssCase | test/import-directive.test.ts:56-73 | One `@import "<file>";` line per file. |
| TestSuite.ImportSassCase | test/import-directive.test.ts:98-115 | One `@import "<file>"` line per file, without `;`. |
| TestSuite.ImportMissingCase | test/import-directive.test.ts:140-162 | The line is emptied, with exactly one warning. |
| TestSuite.IncludeScssCase | test/include-meta-load-css.test.ts:63-81 | One `@include meta.load-css("<file>");` line per file. The indentation is dropped, and no namespace clause is added although a function is set. |
| TestSuite.IncludeSassCase | test/include-meta-load-css.test.ts:111-129 | The same lines without `;`. |
| TestSuite.IncludeMissingCase | test/include-meta-load-css.test.ts:154-178 | The indented directive line is emptied, with exactly one warning. |

## Left out

- `globSync`, `fs.existsSync`, `path.dirname`, `path.join` and `path.relative` are the `Host` functions `glob`, `pathExists` and `relative`. Each is taken relative to the directory of the file being compiled. Their behaviour on a real filesystem is not modelled.
- The sort with `localeCompare(b, 'en')` is not modelled: `Host.glob` returns the results already sorted. Locale collation is outside the model.
- `minimatch` is the uninterpreted `Host.matches`.
- The `searchBases` loop always has exactly one base, so the model has one glob call. The `break` has no effect on the result.
- `this.async()`, `this.getOptions()` and the final `callback` are not modelled. `SassGlobImports` returns the processed source and the warnings, and the error passed to the callback is always `null`. An absent `ignorePaths` is the empty list.
- `console.warn` is not a side effect here: the warnings are returned as a list of their texts, in order.
- Scanner.Classify: the pattern's `\s+` and `[^"']` could in principle match across a line break. The model classifies one line at a time and does not capture such matches.
- Namespaces.Namespace: a namespace function is an arbitrary total function from path and index to a string. One that throws, or returns a value that is not a string, is not modelled.
- Strings are sequences of characters. UTF-16 surrogate pairs are not distinguished. Case-insensitive matching folds ASCII letters only, which is what `/i` without the `u` flag does for the ASCII patterns `.sass` and `.scss`. The `[_.]scss` pattern has no `i` flag, and its model is case-sensitive too.
- dist/index.mjs is not part of this model: it is a compiled copy of src/index.ts.
- src/types.ts is not part of this model: it only declares interfaces. It omits the `boolean` namespace case that src/index.ts:66 handles, and the model follows the code.
- Resolution.Survivors: its own contract only bounds the length. Order, membership and contents are stated by `SurvivorsConcat`, `SurvivorsMembers` and `SurvivorsOfStyleSheets`.
- Resolution.NonBlank: its own contract only bounds the length. What it keeps is stated by `NonBlankConcat`, `NonBlankKeepsAll`, `NonBlankPiece` and `ReattachFiltered`.
- Resolution.ImportLines: its contract lists the generated line of each path. What each line looks like is stated by `UseLineShape`, `WrappedLineShape` and `PlainLineShape`.
- Resolution.NamespaceExport: the index passed to a namespace function is `files.indexOf(path)`, as written. It is the position in the raw glob results of the normalised path. It is -1 when the glob returns paths in another form, for example absolute ones.
