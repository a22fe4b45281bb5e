/**
 * What the loader puts in place of one matched directive line: the glob is
 * expanded, the style sheets among the results are turned into paths relative
 * to the importing file, ignored paths are dropped, each remaining path gets a
 * directive line of its own, and the prefix and suffix of the original line
 * are put back around them.
 */
module Resolution {
  import opened Optional
  import opened JsStrings
  import opened Scanner
  import opened Namespaces

  /** The loader options: `namespace` and `ignorePaths` (an absent list is empty). */
  datatype Options = Options(namespace: Namespace, ignorePaths: seq<string>)

  /** What the loader asks of its surroundings, all relative to the directory
      of the file being compiled:
      `glob`     the results of the glob for a pattern, in their sorted order;
      `pathExists` whether a path exists;
      `relative` the path of a glob result relative to that directory;
      `matches`  whether a path matches an ignore pattern. */
  datatype Host = Host(
    glob: string -> seq<string>,
    pathExists: string -> bool,
    relative: string -> string,
    matches: (string, string) -> bool)

  // ---------------------------------------------------------------------------
  // From a glob result to a path.

  /** `/\.(scss|sass)$/i` */
  predicate HasStyleExtension(f: string) {
    EndsWithIgnoreCase(f, ".scss") || EndsWithIgnoreCase(f, ".sass")
  }

  /** `.replace(/^\//, '')`: one leading `/` at most is removed. */
  function StripLeadingSlash(p: string): (r: string)
    ensures p == r || p == "/" + r
    ensures |p| > 0 && p[0] == '/' <==> p == "/" + r
  {
    if |p| > 0 && p[0] == '/' then
      assert p == [p[0]] + p[1..];
      p[1..]
    else p
  }

  /** A relative path as the loader writes it: every `\` becomes `/`, and then
      one leading `/` is removed. */
  function NormalizePath(p: string): (r: string)
    ensures '\\' !in r
    ensures ReplaceAll(p, '\\', '/') == r || ReplaceAll(p, '\\', '/') == "/" + r
    ensures var slashed := ReplaceAll(p, '\\', '/'); |slashed| > 0 && slashed[0] == '/' <==> slashed == "/" + r
  {
    var slashed := ReplaceAll(p, '\\', '/');
    var r := StripLeadingSlash(slashed);
    assert '\\' !in r by {
      forall k | 0 <= k < |r| ensures r[k] != '\\' {
        assert r[k] == slashed[k + |slashed| - |r|];
      }
    }
    r
  }

  /** `ignorePaths.some(p => minimatch(path, p))` */
  function IsIgnored(patterns: seq<string>, matches: (string, string) -> bool, path: string): (b: bool)
    ensures b <==> exists i :: 0 <= i < |patterns| && matches(path, patterns[i])
    decreases |patterns|
  {
    if |patterns| == 0 then false
    else if matches(path, patterns[0]) then true
    else
      var b := IsIgnored(patterns[1..], matches, path);
      assert forall i :: 1 <= i < |patterns| ==> patterns[i] == patterns[1..][i - 1];
      b
  }

  /** The path a glob result contributes, if any: it must name a style sheet,
      and its normalised relative path must not be ignored. */
  function Survivor(f: string, opts: Options, host: Host): (r: Option<string>)
    ensures r.Some? <==> HasStyleExtension(f) && !IsIgnored(opts.ignorePaths, host.matches, NormalizePath(host.relative(f)))
    ensures r.Some? ==> r.value == NormalizePath(host.relative(f))
  {
    if HasStyleExtension(f) then
      var path := NormalizePath(host.relative(f));
      if !IsIgnored(opts.ignorePaths, host.matches, path) then Some(path) else None
    else None
  }

  function OptionToSeq(o: Option<string>): seq<string> {
    if o.Some? then [o.value] else []
  }

  /** The paths the glob results contribute, in the order of the results. */
  function Survivors(files: seq<string>, opts: Options, host: Host): (r: seq<string>)
    ensures |r| <= |files|
    decreases |files|
  {
    if |files| == 0 then []
    else Survivors(files[..|files| - 1], opts, host) + OptionToSeq(Survivor(files[|files| - 1], opts, host))
  }

  // ---------------------------------------------------------------------------
  // The generated lines.

  /** The whole matched text mentions `.sass`, in any case: the generated lines
      are then in the indented syntax and end without `;`. */
  predicate IsSass(matched: string) {
    ContainsIgnoreCase(matched, ".sass")
  }

  function Terminator(isSass: bool): string {
    if isSass then "" else ";"
  }

  /** The line generated for one path: `@`, the keyword, a space and the
      target. `clause` is the namespace clause, which only `@use` lines carry. */
  function ImportLine(kw: Keyword, metaLoad: bool, clause: string, isSass: bool, path: string): string {
    "@" + (KeywordText(kw) + (" " + ImportTarget(kw, metaLoad, clause, isSass, path)))
  }

  /** The quoted path and what follows it: the namespace clause for `@use`,
      the `meta.load-css(` wrapper for `@include` when the directive had it,
      and the terminator. */
  function ImportTarget(kw: Keyword, metaLoad: bool, clause: string, isSass: bool, path: string): string {
    var quoted := StringText('"', path, '"');
    if kw == Use then quoted + (clause + Terminator(isSass))
    else if kw == Include && metaLoad then MetaLoadCss + (quoted + (")" + Terminator(isSass)))
    else quoted + Terminator(isSass)
  }

  /** The namespace clause of a path: computed for `@use` lines only, from
      the option, the path and the position of the path among the glob results. */
  function NamespaceExport(kw: Keyword, ns: Namespace, files: seq<string>, path: string): string {
    if kw == Use then NamespaceSuffix(ns, path, IndexOf(files, path)) else ""
  }

  /** The line generated for one path, with its namespace clause. */
  function LineFor(kw: Keyword, metaLoad: bool, ns: Namespace, files: seq<string>, isSass: bool, path: string): string {
    ImportLine(kw, metaLoad, NamespaceExport(kw, ns, files, path), isSass, path)
  }

  /** One generated line per path, in the order of the paths. */
  function ImportLines(kw: Keyword, metaLoad: bool, ns: Namespace, files: seq<string>, isSass: bool, paths: seq<string>): (r: seq<string>)
    ensures |r| == |paths|
    ensures forall k :: 0 <= k < |paths| ==> r[k] == LineFor(kw, metaLoad, ns, files, isSass, paths[k])
  {
    seq(|paths|, k requires 0 <= k < |paths| => LineFor(kw, metaLoad, ns, files, isSass, paths[k]))
  }

  /** `imports.unshift(p1)` and `imports.push(p5)`, each only when non-empty. */
  function Reattach(prefix: string, lines: seq<string>, suffix: string): seq<string> {
    (if prefix != "" then [prefix] else []) + lines + (if suffix != "" then [suffix] else [])
  }

  /** `.filter(item => item.trim() !== '')`: the entries that are not blank, in order. */
  function NonBlank(xs: seq<string>): (r: seq<string>)
    ensures |r| <= |xs|
    decreases |xs|
  {
    if |xs| == 0 then []
    else
      assert xs == [xs[0]] + xs[1..];
      (if IsBlank(xs[0]) then [] else [xs[0]]) + NonBlank(xs[1..])
  }

  /** The text that replaces a matched line `matched`, whose parts are `d`. */
  function Expansion(matched: string, d: Directive, opts: Options, host: Host): string {
    var files := host.glob(d.globPattern);
    var lines := ImportLines(d.keyword, d.metaLoad, opts.namespace, files, IsSass(matched), Survivors(files, opts, host));
    Join(NonBlank(Reattach(d.prefix, lines, d.suffix)), "\n")
  }

  // ---------------------------------------------------------------------------
  // The missing-directory warning.

  /** `globPattern.split('*')[0]`: the pattern up to its first `*`. */
  function FixedPart(g: string): (r: string)
    ensures '*' !in r
    ensures StartsWith(g, r)
    ensures |r| < |g| ==> g[|r|] == '*'
  {
    SplitFirst(g, '*');
    Split(g, '*')[0]
  }

  // The first piece of a split ends where the first separator stands.
  lemma SplitFirst(s: string, c: char)
    ensures Split(s, c)[0] == s[..FirstIndex(s, c)]
  {
    if FirstIndex(s, c) == |s| {
      assert s[..|s|] == s;
    }
  }

  function WarningText(g: string): string {
    "Sass Glob Import: Directories don't exist for the glob pattern \"" + g + "\""
  }

  /** The warnings one directive causes: one, naming the pattern, when the
      pattern has a part before its first `*` and that path does not exist. */
  function DirectoryWarnings(g: string, host: Host): (w: seq<string>)
    ensures |w| <= 1
    ensures |w| == 1 <==> |FixedPart(g)| > 0 && !host.pathExists(FixedPart(g))
    ensures forall k :: 0 <= k < |w| ==> w[k] == WarningText(g)
  {
    var fixed := FixedPart(g);
    if |fixed| > 0 && !host.pathExists(fixed) then [WarningText(g)] else []
  }

  /** The lines a glob result contributes: one for its path, or none. */
  function LinesOf(kw: Keyword, metaLoad: bool, ns: Namespace, files: seq<string>, isSass: bool, p: Option<string>): seq<string> {
    if p.Some? then [LineFor(kw, metaLoad, ns, files, isSass, p.value)] else []
  }

  // One more glob result adds its line, if it contributes one, at the end.
  lemma ImportLinesSnoc(kw: Keyword, metaLoad: bool, ns: Namespace, files: seq<string>, isSass: bool, i: nat, opts: Options, host: Host)
    requires i < |files|
    ensures ImportLines(kw, metaLoad, ns, files, isSass, Survivors(files[..i + 1], opts, host)) ==
      ImportLines(kw, metaLoad, ns, files, isSass, Survivors(files[..i], opts, host)) + LinesOf(kw, metaLoad, ns, files, isSass, Survivor(files[i], opts, host))
  {
    assert files[..i + 1][..i] == files[..i];
    var p := Survivor(files[i], opts, host);
    var paths := Survivors(files[..i], opts, host);
    if p.None? {
      assert paths + OptionToSeq(p) == paths;
    }
  }

  // ---------------------------------------------------------------------------
  // Which glob results contribute, and in what order.

  /** The contributions of two runs of glob results, one after the other, are
      those of the first run followed by those of the second. */
  lemma {:induction false} SurvivorsConcat(a: seq<string>, b: seq<string>, opts: Options, host: Host)
    ensures Survivors(a + b, opts, host) == Survivors(a, opts, host) + Survivors(b, opts, host)
    decreases |b|
  {
    if |b| == 0 {
      assert a + b == a;
    } else {
      var front := b[..|b| - 1];
      assert (a + b)[..|a + b| - 1] == a + front;
      assert (a + b)[|a + b| - 1] == b[|b| - 1];
      SurvivorsConcat(a, front, opts, host);
    }
  }

  /** A path is contributed exactly when some glob result contributes it. */
  lemma {:induction false} SurvivorsMembers(files: seq<string>, opts: Options, host: Host, p: string)
    ensures p in Survivors(files, opts, host) <==>
      exists i :: 0 <= i < |files| && Survivor(files[i], opts, host) == Some(p)
    decreases |files|
  {
    if |files| > 0 {
      var front := files[..|files| - 1];
      SurvivorsMembers(front, opts, host, p);
      if exists i :: 0 <= i < |files| && Survivor(files[i], opts, host) == Some(p) {
        var i :| 0 <= i < |files| && Survivor(files[i], opts, host) == Some(p);
        if i < |front| {
          assert front[i] == files[i];
        }
      }
      if exists i :: 0 <= i < |front| && Survivor(front[i], opts, host) == Some(p) {
        var i :| 0 <= i < |front| && Survivor(front[i], opts, host) == Some(p);
        assert files[i] == front[i];
      }
    }
  }

  /** Without ignore patterns, and when every glob result is a style sheet,
      every result contributes its normalised relative path, in order. */
  lemma {:induction false} SurvivorsOfStyleSheets(files: seq<string>, opts: Options, host: Host)
    requires opts.ignorePaths == []
    requires forall k :: 0 <= k < |files| ==> HasStyleExtension(files[k])
    ensures |Survivors(files, opts, host)| == |files|
    ensures forall k :: 0 <= k < |files| ==>
      Survivors(files, opts, host)[k] == NormalizePath(host.relative(files[k]))
    decreases |files|
  {
    if |files| > 0 {
      var front := files[..|files| - 1];
      SurvivorsOfStyleSheets(front, opts, host);
      assert Survivor(files[|files| - 1], opts, host) == Some(NormalizePath(host.relative(files[|files| - 1])));
    }
  }

  /** Normalising a normalised path changes it again exactly when the relative
      path, with its backslashes turned, began with two slashes: only one
      leading slash is removed each time. */
  lemma NormalizePathTwice(p: string)
    ensures NormalizePath(NormalizePath(p)) == NormalizePath(p) <==>
      !StartsWith(ReplaceAll(p, '\\', '/'), "//")
  {
    if StartsWith(ReplaceAll(p, '\\', '/'), "//") {
      NormalizePathShortens(p);
    } else {
      NormalizePathSettles(p);
    }
  }

  // Two leading slashes: the second normalisation removes the one left over.
  lemma NormalizePathShortens(p: string)
    requires StartsWith(ReplaceAll(p, '\\', '/'), "//")
    ensures |NormalizePath(NormalizePath(p))| < |NormalizePath(p)|
  {
    var once := NormalizePath(p);
    ReplaceAllAbsent(once, '\\', '/');
    StripLeadingSlashTwice(ReplaceAll(p, '\\', '/'));
  }

  // Of two leading slashes, the second is still there after the first goes.
  lemma StripLeadingSlashTwice(slashed: string)
    requires StartsWith(slashed, "//")
    ensures |StripLeadingSlash(StripLeadingSlash(slashed))| < |StripLeadingSlash(slashed)|
  {
    assert slashed[0] == '/' && slashed[1] == '/';
    assert StripLeadingSlash(slashed) == slashed[1..];
  }

  // Otherwise the normalised path has no leading slash and no backslash left.
  lemma NormalizePathSettles(p: string)
    requires !StartsWith(ReplaceAll(p, '\\', '/'), "//")
    ensures NormalizePath(NormalizePath(p)) == NormalizePath(p)
  {
    var slashed := ReplaceAll(p, '\\', '/');
    var once := NormalizePath(p);
    assert once == StripLeadingSlash(slashed);
    ReplaceAllAbsent(once, '\\', '/');
    assert slashed == "/" + once && |once| > 0 ==> slashed[..2] == [slashed[0], once[0]];
  }

  // ---------------------------------------------------------------------------
  // The generated lines.

  /** Every generated line starts with `@`, so the blank filter keeps it. */
  lemma ImportLineNotBlank(kw: Keyword, metaLoad: bool, clause: string, isSass: bool, path: string)
    ensures var line := ImportLine(kw, metaLoad, clause, isSass, path);
      |line| > 0 && line[0] == '@' && !IsBlank(line)
  {
    var line := ImportLine(kw, metaLoad, clause, isSass, path);
    assert line[0] == '@';
    assert !IsJsSpace(line[0]);
  }

  /** A generated `@use` line: `@use "<path>"`, the namespace clause and the
      terminator, whatever the wrapper flag. */
  lemma UseLineShape(metaLoad: bool, clause: string, isSass: bool, path: string)
    ensures ImportLine(Use, metaLoad, clause, isSass, path) == "@use \"" + path + "\"" + clause + Terminator(isSass)
  {
    var t := Terminator(isSass);
    var quoted := StringText('"', path, '"');
    assert quoted == "\"" + path + "\"";
    KeywordHead(Use, quoted + (clause + t));
    LinePieces("@use ", path, clause + t);
    ConcatAssoc("@use \"" + path + "\"", clause, t);
  }

  /** A generated `@include` line of a directive with the wrapper:
      `@include meta.load-css("<path>")` and the terminator, with no
      namespace clause. */
  lemma WrappedLineShape(clause: string, isSass: bool, path: string)
    ensures ImportLine(Include, true, clause, isSass, path) == "@include meta.load-css(\"" + path + "\")" + Terminator(isSass)
  {
    var t := Terminator(isSass);
    var quoted := StringText('"', path, '"');
    assert quoted == "\"" + path + "\"";
    KeywordHead(Include, MetaLoadCss + (quoted + (")" + t)));
    ConcatAssoc("@include ", MetaLoadCss, quoted + (")" + t));
    LinePieces("@include " + MetaLoadCss, path, ")" + t);
    assert "@include " + MetaLoadCss + "\"" == "@include meta.load-css(\"";
    ConcatAssoc("@include meta.load-css(\"" + path, "\"", ")" + t);
    ConcatAssoc("@include meta.load-css(\"" + path + "\"", ")", t);
  }

  /** Any other generated line: `@<keyword> "<path>"` and the terminator, with
      no namespace clause and no wrapper, also for `@import` of a directive that
      had the wrapper. */
  lemma PlainLineShape(kw: Keyword, metaLoad: bool, clause: string, isSass: bool, path: string)
    requires kw == Import || (kw == Include && !metaLoad)
    ensures ImportLine(kw, metaLoad, clause, isSass, path) == "@" + KeywordText(kw) + " \"" + path + "\"" + Terminator(isSass)
  {
    var t := Terminator(isSass);
    var quoted := StringText('"', path, '"');
    assert quoted == "\"" + path + "\"";
    KeywordHead(kw, quoted + t);
    LinePieces("@" + KeywordText(kw) + " ", path, t);
  }

  // `@`, the keyword and a space, as one piece.
  lemma KeywordHead(kw: Keyword, rest: string)
    ensures "@" + (KeywordText(kw) + (" " + rest)) == "@" + KeywordText(kw) + " " + rest
    ensures kw == Use ==> "@" + KeywordText(kw) + " " == "@use "
    ensures kw == Include ==> "@" + KeywordText(kw) + " " == "@include "
  {
    ConcatAssoc("@", KeywordText(kw), " " + rest);
    ConcatAssoc("@" + KeywordText(kw), " ", rest);
  }

  // The pieces of a generated line, regrouped from the right to the left.
  lemma LinePieces(head: string, path: string, tail: string)
    ensures head + ("\"" + path + "\"" + tail) == head + "\"" + path + "\"" + tail
  {
    ConcatAssoc(head, "\"" + path + "\"", tail);
    ConcatAssoc(head, "\"" + path, "\"");
    ConcatAssoc(head, "\"", path);
  }

  /** The indented syntax differs only in leaving out the `;` that ends every
      generated line otherwise. */
  lemma ImportLineSemicolon(kw: Keyword, metaLoad: bool, clause: string, path: string)
    ensures ImportLine(kw, metaLoad, clause, false, path) == ImportLine(kw, metaLoad, clause, true, path) + ";"
  {
    var quoted := StringText('"', path, '"');
    var body := if kw == Use then quoted + clause
      else if kw == Include && metaLoad then MetaLoadCss + (quoted + ")")
      else quoted;
    assert ImportTarget(kw, metaLoad, clause, true, path) == body;
    assert ImportTarget(kw, metaLoad, clause, false, path) == body + ";";
  }

  /** Only `@use` lines carry the namespace clause, and only `@include` lines
      the `meta.load-css(` wrapper. */
  lemma ImportLineOptions(kw: Keyword, metaLoad: bool, clause: string, isSass: bool, path: string)
    ensures kw != Use ==> ImportLine(kw, metaLoad, clause, isSass, path) == ImportLine(kw, metaLoad, "", isSass, path)
    ensures kw != Include ==> ImportLine(kw, metaLoad, clause, isSass, path) == ImportLine(kw, false, clause, isSass, path)
  {
  }

  /** The record the pattern reads from a generated line that has no namespace. */
  function GeneratedDirective(kw: Keyword, metaLoad: bool, isSass: bool, path: string): Directive {
    var wrapped := kw == Include && metaLoad;
    Directive("", kw, " ", wrapped, '"', path, '"', wrapped, !isSass, "")
  }

  // A generated line without a namespace is the rendering of that record.
  lemma ImportLineRendered(kw: Keyword, metaLoad: bool, clause: string, isSass: bool, path: string)
    requires kw != Use || clause == ""
    ensures Render(GeneratedDirective(kw, metaLoad, isSass, path)) == ImportLine(kw, metaLoad, clause, isSass, path)
  {
    var d := GeneratedDirective(kw, metaLoad, isSass, path);
    var t := Terminator(isSass);
    assert CloseText(d.closeParen, d.semicolon, "") == (if d.metaLoad then ")" + t else t);
    assert RenderQuoted(d) == ImportTarget(kw, metaLoad, clause, isSass, path);
  }

  // A `@use` line with a namespace: ` as ` cannot follow the closing quote.
  lemma UseLineWithNamespace(path: string, after: string)
    requires forall k :: 0 <= k < |path| ==> !IsQuote(path[k])
    requires |after| > 1 && after[0] == ' ' && after[1] == 'a'
    ensures Classify("@" + (KeywordText(Use) + (" " + (StringText('"', path, '"') + after)))) == None
  {
    NotTrailer(after, 1);
    var rest := StringText('"', path, '"') + after;
    assert rest[0] == '"';
    ParseQuotedPlain("", Use, " ", '"', path, after);
    ParseAfterKeyword("", Use, " ", rest);
    ClassifyAtSign("@" + (KeywordText(Use) + (" " + rest)));
  }

  /** A generated line is read by the directive pattern again only when it has
      no namespace clause and its path has a `*` after the first character; it
      is then read as the path in double quotes, with the wrapper of
      `@include` lines and the `;` of the non-indented syntax. */
  lemma ImportLineRescan(kw: Keyword, metaLoad: bool, clause: string, isSass: bool, path: string)
    requires forall k :: 0 <= k < |path| ==> !IsQuote(path[k])
    requires clause == "" || (|clause| >= 4 && clause[..4] == " as ")
    ensures Classify(ImportLine(kw, metaLoad, clause, isSass, path)) ==
      if kw == Use && clause != "" then None
      else if HasInnerStar(path) then Some(GeneratedDirective(kw, metaLoad, isSass, path))
      else None
  {
    if kw == Use && clause != "" {
      var t := Terminator(isSass);
      assert (clause + t)[..4] == clause[..4];
      UseLineWithNamespace(path, clause + t);
    } else {
      ImportLineRendered(kw, metaLoad, clause, isSass, path);
      ClassifyUncommented(GeneratedDirective(kw, metaLoad, isSass, path));
    }
  }

  /** The lines generated for a directive: a path without quotes comes back as a
      directive only when the namespace option gives it no namespace and the path
      has a `*` after its first character. */
  lemma LineForRescan(kw: Keyword, metaLoad: bool, ns: Namespace, files: seq<string>, isSass: bool, path: string)
    requires forall k :: 0 <= k < |path| ==> !IsQuote(path[k])
    ensures Classify(LineFor(kw, metaLoad, ns, files, isSass, path)) ==
      if kw == Use && NamespaceSuffix(ns, path, IndexOf(files, path)) != "" then None
      else if HasInnerStar(path) then Some(GeneratedDirective(kw, metaLoad, isSass, path))
      else None
  {
    ImportLineRescan(kw, metaLoad, NamespaceExport(kw, ns, files, path), isSass, path);
  }

  // ---------------------------------------------------------------------------
  // The replacement text.

  /** The prefix or suffix of a line as it survives: dropped when blank. */
  function KeptPiece(x: string): (r: seq<string>)
    ensures r == [] <==> IsBlank(x)
    ensures forall k :: 0 <= k < |r| ==> r[k] == x
  {
    if IsBlank(x) then [] else [x]
  }

  /** Filtering two lists one after the other. */
  lemma {:induction false} NonBlankConcat(a: seq<string>, b: seq<string>)
    ensures NonBlank(a + b) == NonBlank(a) + NonBlank(b)
    decreases |a|
  {
    if |a| > 0 {
      assert (a + b)[0] == a[0];
      assert (a + b)[1..] == a[1..] + b;
      NonBlankConcat(a[1..], b);
    } else {
      assert a + b == b;
    }
  }

  /** The filter keeps a list without blank entries as it is. */
  lemma {:induction false} NonBlankKeepsAll(xs: seq<string>)
    requires forall k :: 0 <= k < |xs| ==> !IsBlank(xs[k])
    ensures NonBlank(xs) == xs
    decreases |xs|
  {
    if |xs| > 0 {
      NonBlankKeepsAll(xs[1..]);
    }
  }

  /** Reattaching the prefix and the suffix and filtering out blank entries
      leaves the lines, when the filter keeps them all, with the prefix and the
      suffix where they are not blank. */
  lemma ReattachFiltered(prefix: string, lines: seq<string>, suffix: string)
    requires NonBlank(lines) == lines
    ensures NonBlank(Reattach(prefix, lines, suffix)) == KeptPiece(prefix) + lines + KeptPiece(suffix)
  {
    var front: seq<string> := if prefix != "" then [prefix] else [];
    var back: seq<string> := if suffix != "" then [suffix] else [];
    ConcatAssoc(front, lines, back);
    NonBlankPiece(prefix);
    NonBlankPiece(suffix);
    NonBlankConcat(lines, back);
    NonBlankConcat(front, lines + back);
    ConcatAssoc(KeptPiece(prefix), lines, KeptPiece(suffix));
  }

  // The filter on the one-entry list `unshift` or `push` adds.
  lemma NonBlankPiece(x: string)
    ensures NonBlank(if x != "" then [x] else []) == KeptPiece(x)
  {
    if x != "" {
      assert [x][1..] == [];
    }
  }

  /** No generated line is blank. */
  lemma ImportLinesNotBlank(kw: Keyword, metaLoad: bool, ns: Namespace, files: seq<string>, isSass: bool, paths: seq<string>)
    ensures forall k :: 0 <= k < |paths| ==> !IsBlank(ImportLines(kw, metaLoad, ns, files, isSass, paths)[k])
  {
    forall k | 0 <= k < |paths| ensures !IsBlank(ImportLines(kw, metaLoad, ns, files, isSass, paths)[k]) {
      ImportLineNotBlank(kw, metaLoad, NamespaceExport(kw, ns, files, paths[k]), isSass, paths[k]);
    }
  }

  /** The replacement is the prefix unless blank, one line per contributed
      path, and the suffix unless blank, joined with line feeds. */
  lemma ExpansionPieces(matched: string, d: Directive, opts: Options, host: Host)
    ensures var files := host.glob(d.globPattern);
      Expansion(matched, d, opts, host) == Join(KeptPiece(d.prefix)
        + ImportLines(d.keyword, d.metaLoad, opts.namespace, files, IsSass(matched), Survivors(files, opts, host))
        + KeptPiece(d.suffix), "\n")
  {
    var files := host.glob(d.globPattern);
    var paths := Survivors(files, opts, host);
    ImportLinesNotBlank(d.keyword, d.metaLoad, opts.namespace, files, IsSass(matched), paths);
    NonBlankKeepsAll(ImportLines(d.keyword, d.metaLoad, opts.namespace, files, IsSass(matched), paths));
    ReattachFiltered(d.prefix, ImportLines(d.keyword, d.metaLoad, opts.namespace, files, IsSass(matched), paths), d.suffix);
  }

  /** The replacement is empty exactly when no glob result contributes a path
      and the prefix and the suffix are blank, as for a pattern that matches
      nothing on a plain line. */
  lemma ExpansionEmpty(matched: string, d: Directive, opts: Options, host: Host)
    ensures Expansion(matched, d, opts, host) == "" <==>
      Survivors(host.glob(d.globPattern), opts, host) == [] && IsBlank(d.prefix) && IsBlank(d.suffix)
  {
    var files := host.glob(d.globPattern);
    var paths := Survivors(files, opts, host);
    var lines := ImportLines(d.keyword, d.metaLoad, opts.namespace, files, IsSass(matched), paths);
    var all := KeptPiece(d.prefix) + lines + KeptPiece(d.suffix);
    ExpansionPieces(matched, d, opts, host);
    JoinEmpty(all, "\n");
    if |all| == 1 {
      if |KeptPiece(d.prefix)| == 1 {
        assert all[0] == d.prefix;
      } else if |lines| == 1 {
        assert all[0] == lines[0];
        ImportLineNotBlank(d.keyword, d.metaLoad, NamespaceExport(d.keyword, opts.namespace, files, paths[0]), IsSass(matched), paths[0]);
      } else {
        assert all[0] == d.suffix;
      }
      assert all[0] != "";
    }
  }

  // ---------------------------------------------------------------------------
  // The match callback, step by step as the loader performs it.

  /** The loop over the glob results: each style sheet among them whose
      normalised path is not ignored gets its line, in the order of the results. */
  method CollectImports(kw: Keyword, metaLoad: bool, opts: Options, host: Host, files: seq<string>, isSass: bool)
    returns (imports: seq<string>)
    ensures imports == ImportLines(kw, metaLoad, opts.namespace, files, isSass, Survivors(files, opts, host))
  {
    imports := [];
    var i := 0;
    while i < |files|
      invariant 0 <= i <= |files|
      invariant imports == ImportLines(kw, metaLoad, opts.namespace, files, isSass, Survivors(files[..i], opts, host))
    {
      ImportLinesSnoc(kw, metaLoad, opts.namespace, files, isSass, i, opts, host);
      ghost var kept := Survivor(files[i], opts, host);
      ghost var before := imports;
      var filename := files[i];
      if HasStyleExtension(filename) {
        filename := ReplaceAll(host.relative(filename), '\\', '/');
        filename := StripLeadingSlash(filename);
        assert filename == NormalizePath(host.relative(files[i]));
        if !IsIgnored(opts.ignorePaths, host.matches, filename) {
          assert kept == Some(filename);
          var clause := "";
          if kw == Use {
            clause := NamespaceSuffix(opts.namespace, filename, IndexOf(files, filename));
          }
          imports := imports + [ImportLine(kw, metaLoad, clause, isSass, filename)];
        } else {
          assert kept == None;
        }
      } else {
        assert kept == None;
      }
      assert imports == before + LinesOf(kw, metaLoad, opts.namespace, files, isSass, kept);
      i := i + 1;
    }
    assert files[..i] == files;
  }

  /** The check that the directories of a pattern exist: the part of the
      pattern before its first `*`, when there is one, must name a path. */
  method WarnMissingDirectory(g: string, host: Host) returns (warnings: seq<string>)
    ensures warnings == DirectoryWarnings(g, host)
  {
    warnings := [];
    var fixed := Split(g, '*')[0];
    if |fixed| > 0 {
      if !host.pathExists(fixed) {
        warnings := warnings + [WarningText(g)];
      }
    }
  }

  /** The replacement callback for one matched line `matched`, whose parts are
      `d`: warns about a missing directory, collects one line per surviving
      path, and joins them with the prefix and suffix of the line. */
  method ExpandDirective(matched: string, d: Directive, opts: Options, host: Host) returns (replacement: string, warnings: seq<string>)
    ensures replacement == Expansion(matched, d, opts, host)
    ensures warnings == DirectoryWarnings(d.globPattern, host)
  {
    var isSass := ContainsIgnoreCase(matched, ".sass");
    var files := host.glob(d.globPattern);

    warnings := WarnMissingDirectory(d.globPattern, host);
    var imports := CollectImports(d.keyword, d.metaLoad, opts, host, files, isSass);
    ghost var lines := imports;
    ghost var front: seq<string> := if d.prefix != "" then [d.prefix] else [];
    ghost var back: seq<string> := if d.suffix != "" then [d.suffix] else [];
    if d.prefix != "" {
      imports := [d.prefix] + imports;
    } else {
      assert imports == front + lines;
    }
    if d.suffix != "" {
      imports := imports + [d.suffix];
    } else {
      assert imports == front + lines + back;
    }
    assert imports == Reattach(d.prefix, lines, d.suffix);
    imports := NonBlank(imports);
    replacement := Join(imports, "\n");
  }
}
