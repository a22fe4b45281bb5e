/**
 * The loader on the inputs of its own test suite. The tests replace the
 * glob library with a fixed two-entry result, the relative-path function with
 * one that leaves a result as it is, and the existence check with a constant;
 * the missing-directory tests use an empty result and a failing check. The
 * lemmas below state, for those surroundings, the processed source and the
 * warnings the tests expect.
 */
module Examples {
  import opened Optional
  import opened JsStrings
  import opened Scanner
  import opened Namespaces
  import opened Resolution
  import opened Loader

  /** The surroundings the tests set up: `glob` answers `files` for every
      pattern, `pathExists` answers `found`, `relative` keeps a result as it
      is, and no ignore pattern matches. */
  function TestHost(files: seq<string>, found: bool): Host {
    Host(_ => files, _ => found, p => p, (_, _) => false)
  }

  /** A glob result of the kind the tests use: a style sheet, relative to
      the importing file, with `/` separators. */
  predicate TestPath(p: string) {
    HasStyleExtension(p) && '\\' !in p && |p| > 0 && p[0] != '/'
  }

  /** A line of the tests' sources that is not a directive. */
  predicate PlainText(s: string) {
    '@' !in s && NoLineTerminator(s)
  }

  /** A test pattern: no quote, and a `*` after the first character. */
  predicate TestGlob(g: string) {
    '"' !in g && '\'' !in g && HasInnerStar(g)
  }

  /** The record of a test directive: a double-quoted pattern after one
      space, the wrapper and its closing parenthesis together, nothing after
      the terminator. */
  function TestDirective(prefix: string, kw: Keyword, metaLoad: bool, glob: string, semicolon: bool): Directive {
    Directive(prefix, kw, " ", metaLoad, '"', glob, '"', metaLoad, semicolon, "")
  }

  // ---------------------------------------------------------------------------
  // One line at a time.

  /** A line without `@` is passed through and causes no warning. */
  lemma PlainLine(line: string, opts: Options, host: Host)
    requires '@' !in line
    ensures RewriteLine(line, opts, host) == line
    ensures LineWarnings(line, opts, host) == []
  {
    if Classify(line).Some? {
      ClassifyNeedsAt(line);
      assert false;
    }
  }

  /** A test directive line is matched as its record when its pattern has no
      quote and has a `*` after its first character. */
  lemma TestLineMatched(line: string, prefix: string, kw: Keyword, metaLoad: bool, glob: string, semicolon: bool)
    requires Render(TestDirective(prefix, kw, metaLoad, glob, semicolon)) == line
    requires forall k :: 0 <= k < |prefix| ==> IsBlankChar(prefix[k])
    requires TestGlob(glob)
    ensures Classify(line) == Some(TestDirective(prefix, kw, metaLoad, glob, semicolon))
  {
    forall k | 0 <= k < |glob| ensures !IsQuote(glob[k]) {
      assert glob[k] in glob;
    }
    ClassifyUncommented(TestDirective(prefix, kw, metaLoad, glob, semicolon));
  }

  /** A test directive line, written as its indentation, the text up to the
      opening quote, the pattern and the text from the closing quote on. */
  lemma TestRendered(prefix: string, kw: Keyword, metaLoad: bool, glob: string, semicolon: bool, head: string, tail: string)
    requires head == "@" + (KeywordText(kw) + (" " + (WrapperText(metaLoad) + "\"")))
    requires tail == "\"" + CloseText(metaLoad, semicolon, "")
    ensures Render(TestDirective(prefix, kw, metaLoad, glob, semicolon)) == prefix + head + glob + tail
  {
    var w := WrapperText(metaLoad);
    var c := CloseText(metaLoad, semicolon, "");
    var k := KeywordText(kw);
    var rest := glob + tail;
    var q := StringText('"', glob, '"');
    assert q == "\"" + glob + "\"";
    ConcatAssoc("\"" + glob, "\"", c);
    ConcatAssoc("\"", glob, tail);
    assert q + c == "\"" + rest;
    ConcatAssoc(w, "\"", rest);
    var h1 := " " + (w + "\"");
    ConcatAssoc(" ", w + "\"", rest);
    assert " " + (w + (q + c)) == h1 + rest;
    ConcatAssoc(k, h1, rest);
    ConcatAssoc("@", k + h1, rest);
    assert RenderTail(TestDirective(prefix, kw, metaLoad, glob, semicolon)) == head + rest;
    ConcatAssoc(head, glob, tail);
    ConcatAssoc(prefix, head + glob, tail);
    ConcatAssoc(prefix, head, glob);
  }

  /** Two texts without line terminators make one. */
  lemma OneLineConcat(a: string, b: string)
    requires NoLineTerminator(a) && NoLineTerminator(b)
    ensures NoLineTerminator(a + b)
  {
    forall k | 0 <= k < |a + b| ensures !IsLineTerminator((a + b)[k]) {
      if k >= |a| {
        assert (a + b)[k] == b[k - |a|];
      }
    }
  }

  /** A pattern that occurs in `y` occurs in `x + y + z`. */
  lemma ContainsWithin(x: string, y: string, z: string, p: string)
    requires ContainsIgnoreCase(y, p)
    ensures ContainsIgnoreCase(x + y + z, p)
  {
    ContainsIgnoreCaseAt(y, p);
    var i: nat :| OccursAt(y, p, i);
    var s := x + y + z;
    assert s[|x| + i..|x| + i + |p|] == y[i..i + |p|];
    assert OccursAt(s, p, |x| + i);
    ContainsIgnoreCaseAt(s, p);
  }

  /** What the tests rely on about one of their directive lines, given its
      pieces: it is matched as its record, it is one line, and it counts as
      indented syntax when its pattern holds `.sass`. */
  lemma TestLineFacts(prefix: string, kw: Keyword, metaLoad: bool, glob: string, head: string, tail: string)
    requires head == "@" + (KeywordText(kw) + (" " + (WrapperText(metaLoad) + "\"")))
    requires tail == "\"" + CloseText(metaLoad, true, "")
    requires forall k :: 0 <= k < |prefix| ==> IsBlankChar(prefix[k])
    requires TestGlob(glob)
    requires NoLineTerminator(prefix) && NoLineTerminator(head) && NoLineTerminator(glob) && NoLineTerminator(tail)
    ensures Classify(prefix + head + glob + tail) == Some(TestDirective(prefix, kw, metaLoad, glob, true))
    ensures NoLineTerminator(prefix + head + glob + tail)
    ensures ContainsIgnoreCase(glob, ".sass") ==> IsSass(prefix + head + glob + tail)
  {
    var line := prefix + head + glob + tail;
    TestRendered(prefix, kw, metaLoad, glob, true, head, tail);
    TestLineMatched(line, prefix, kw, metaLoad, glob, true);
    OneLineConcat(prefix, head);
    OneLineConcat(prefix + head, glob);
    OneLineConcat(prefix + head + glob, tail);
    if ContainsIgnoreCase(glob, ".sass") {
      ContainsWithin(prefix + head, glob, tail, ".sass");
    }
  }

  /** A pattern cannot occur where one of its characters occurs nowhere, in
      either case. */
  lemma {:induction false} AbsentLetter(s: string, p: string, j: nat)
    requires j < |p| && !('A' <= p[j] <= 'Z')
    requires p[j] !in s && ('a' <= p[j] <= 'z' ==> (p[j] as int - 32) as char !in s)
    ensures !ContainsIgnoreCase(s, p)
    decreases |s|
  {
    if |p| <= |s| {
      assert s[..|p|][j] == s[j];
      if |s| > 0 {
        assert forall c :: c in s[1..] ==> c in s;
        AbsentLetter(s[1..], p, j);
      }
    }
  }

  /** A pattern that occurs neither in `x` extended by the first characters
      of `y` nor in `y` does not occur in `x + y`. */
  lemma {:induction false} AbsentAcross(x: string, y: string, p: string)
    requires |p| >= 1
    requires !ContainsIgnoreCase(x + y[..if |y| < |p| - 1 then |y| else |p| - 1], p)
    requires !ContainsIgnoreCase(y, p)
    ensures !ContainsIgnoreCase(x + y, p)
    decreases |x|
  {
    var m := if |y| < |p| - 1 then |y| else |p| - 1;
    if |x| == 0 {
      assert x + y == y;
    } else {
      var t := x + y[..m];
      assert t[1..] == x[1..] + y[..m];
      AbsentAcross(x[1..], y, p);
      assert (x + y)[1..] == x[1..] + y;
    }
  }

  /** `.sass` written at position `i` makes the line one of the indented syntax. */
  lemma SassAt(s: string, i: nat)
    requires i + 5 <= |s| && s[i] == '.' && s[i + 1] == 's' && s[i + 2] == 'a'
    requires s[i + 3] == 's' && s[i + 4] == 's'
    ensures IsSass(s)
  {
    var t := s[i..i + 5];
    forall k | 0 <= k < 5 ensures LowerAscii(t[k]) == ".sass"[k] {
      assert t[k] == s[i + k];
    }
    assert OccursAt(s, ".sass", i);
    ContainsIgnoreCaseAt(s, ".sass");
  }

  /** A name ending in `.scss` or `.sass` names a style sheet. */
  lemma StyleSheetName(f: string, x: char)
    requires x == 'c' || x == 'a'
    requires |f| >= 5 && f[|f| - 5] == '.' && f[|f| - 4] == 's' && f[|f| - 3] == x
    requires f[|f| - 2] == 's' && f[|f| - 1] == 's'
    ensures HasStyleExtension(f)
  {
    var t := f[|f| - 5..];
    var ext := if x == 'c' then ".scss" else ".sass";
    forall k | 0 <= k < 5 ensures LowerAscii(t[k]) == ext[k] {
      assert t[k] == f[|f| - 5 + k];
    }
  }

  /** What a directive line with a two-entry glob result becomes, when both
      entries are test paths. */
  lemma TwoFileExpansion(matched: string, d: Directive, opts: Options, host: Host, a: string, b: string)
    requires host.glob(d.globPattern) == [a, b] && opts.ignorePaths == []
    requires TestPath(a) && TestPath(b) && host.relative(a) == a && host.relative(b) == b
    ensures Expansion(matched, d, opts, host) == Join(KeptPiece(d.prefix)
      + [LineFor(d.keyword, d.metaLoad, opts.namespace, [a, b], IsSass(matched), a),
         LineFor(d.keyword, d.metaLoad, opts.namespace, [a, b], IsSass(matched), b)]
      + KeptPiece(d.suffix), "\n")
  {
    SurvivorsOfStyleSheets([a, b], opts, host);
    ReplaceAllAbsent(a, '\\', '/');
    ReplaceAllAbsent(b, '\\', '/');
    assert Survivors([a, b], opts, host) == [a, b];
    var lines := ImportLines(d.keyword, d.metaLoad, opts.namespace, [a, b], IsSass(matched), [a, b]);
    assert lines == [lines[0], lines[1]];
    ExpansionPieces(matched, d, opts, host);
  }

  /** A directive line with a blank group 1 and an empty group 5, given two
      test paths: its two generated lines, joined; and no warning, since the
      directory exists. */
  lemma TwoFileLine(line: string, d: Directive, opts: Options, a: string, b: string)
    requires Classify(line) == Some(d) && IsBlank(d.prefix) && d.suffix == ""
    requires opts.ignorePaths == [] && TestPath(a) && TestPath(b)
    ensures RewriteLine(line, opts, TestHost([a, b], true)) ==
      Join([LineFor(d.keyword, d.metaLoad, opts.namespace, [a, b], IsSass(line), a),
            LineFor(d.keyword, d.metaLoad, opts.namespace, [a, b], IsSass(line), b)], "\n")
    ensures LineWarnings(line, opts, TestHost([a, b], true)) == []
  {
    MatchedLine(line, d, opts, TestHost([a, b], true));
    TwoFileReplacement(line, d, opts, a, b);
  }

  // The replacement and the warnings of `TwoFileLine`, for whatever text matched.
  lemma TwoFileReplacement(matched: string, d: Directive, opts: Options, a: string, b: string)
    requires IsBlank(d.prefix) && d.suffix == ""
    requires opts.ignorePaths == [] && TestPath(a) && TestPath(b)
    ensures Expansion(matched, d, opts, TestHost([a, b], true)) ==
      Join([LineFor(d.keyword, d.metaLoad, opts.namespace, [a, b], IsSass(matched), a),
            LineFor(d.keyword, d.metaLoad, opts.namespace, [a, b], IsSass(matched), b)], "\n")
    ensures DirectoryWarnings(d.globPattern, TestHost([a, b], true)) == []
  {
    var host := TestHost([a, b], true);
    TwoFileExpansion(matched, d, opts, host, a, b);
    assert KeptPiece(d.prefix) == [] && KeptPiece(d.suffix) == [];
    var lines := [LineFor(d.keyword, d.metaLoad, opts.namespace, [a, b], IsSass(matched), a),
                  LineFor(d.keyword, d.metaLoad, opts.namespace, [a, b], IsSass(matched), b)];
    assert [] + lines + [] == lines;
  }

  /** A directive line whose pattern has a directory part, when the glob
      finds nothing and the directory does not exist: the line is emptied and
      the one warning names the pattern. */
  lemma MissingDirectoryLine(line: string, d: Directive, opts: Options)
    requires Classify(line) == Some(d) && IsBlank(d.prefix) && IsBlank(d.suffix)
    requires |d.globPattern| > 0 && d.globPattern[0] != '*'
    ensures RewriteLine(line, opts, TestHost([], false)) == ""
    ensures LineWarnings(line, opts, TestHost([], false)) == [WarningText(d.globPattern)]
  {
    MatchedLine(line, d, opts, TestHost([], false));
    MissingDirectoryReplacement(line, d, opts);
  }

  // The replacement and the warnings of `MissingDirectoryLine`, for whatever text matched.
  lemma MissingDirectoryReplacement(matched: string, d: Directive, opts: Options)
    requires IsBlank(d.prefix) && IsBlank(d.suffix)
    requires |d.globPattern| > 0 && d.globPattern[0] != '*'
    ensures Expansion(matched, d, opts, TestHost([], false)) == ""
    ensures DirectoryWarnings(d.globPattern, TestHost([], false)) == [WarningText(d.globPattern)]
  {
    var host := TestHost([], false);
    ExpansionEmpty(matched, d, opts, host);
    assert FixedPart(d.globPattern) != "";
    var w := DirectoryWarnings(d.globPattern, host);
    assert |w| == 1;
    assert w == [w[0]];
  }

  /** The two generated `@use` lines: each names its path and gets the
      namespace clause of its position in the glob result. */
  lemma UseLines(ns: Namespace, isSass: bool, a: string, b: string)
    requires a != b
    ensures LineFor(Use, false, ns, [a, b], isSass, a) == "@use \"" + a + "\"" + NamespaceSuffix(ns, a, 0) + Terminator(isSass)
    ensures LineFor(Use, false, ns, [a, b], isSass, b) == "@use \"" + b + "\"" + NamespaceSuffix(ns, b, 1) + Terminator(isSass)
  {
    assert [a, b][1..] == [b];
    UseLineShape(false, NamespaceSuffix(ns, a, 0), isSass, a);
    UseLineShape(false, NamespaceSuffix(ns, b, 1), isSass, b);
  }

  /** The two generated `@import` lines: each names its path; no namespace
      clause. */
  lemma ImportLinesOf(ns: Namespace, isSass: bool, a: string, b: string)
    ensures LineFor(Import, false, ns, [a, b], isSass, a) == "@import \"" + a + "\"" + Terminator(isSass)
    ensures LineFor(Import, false, ns, [a, b], isSass, b) == "@import \"" + b + "\"" + Terminator(isSass)
  {
    PlainLineShape(Import, false, "", isSass, a);
    PlainLineShape(Import, false, "", isSass, b);
    assert "@" + KeywordText(Import) + " \"" == "@import \"";
  }

  /** The two generated `@include meta.load-css(...)` lines: each names its
      path; no namespace clause, whatever the option says. */
  lemma IncludeLinesOf(ns: Namespace, isSass: bool, a: string, b: string)
    ensures LineFor(Include, true, ns, [a, b], isSass, a) == "@include meta.load-css(\"" + a + "\")" + Terminator(isSass)
    ensures LineFor(Include, true, ns, [a, b], isSass, b) == "@include meta.load-css(\"" + b + "\")" + Terminator(isSass)
  {
    WrappedLineShape("", isSass, a);
    WrappedLineShape("", isSass, b);
  }

  // ---------------------------------------------------------------------------
  // Whole sources, line by line.

  /** Lines without `@` are all passed through, without warnings. */
  lemma {:induction false} PlainLines(xs: seq<string>, opts: Options, host: Host)
    requires forall k :: 0 <= k < |xs| ==> '@' !in xs[k]
    ensures RewriteLines(xs, opts, host) == xs
    ensures LinesWarnings(xs, opts, host) == []
    decreases |xs|
  {
    if |xs| > 0 {
      PlainLine(xs[0], opts, host);
      PlainLines(xs[1..], opts, host);
      assert xs == [xs[0]] + xs[1..];
    }
  }

  /** In a text where only line `i` can be a directive, only that line changes
      and only that line can warn. */
  lemma {:induction false} OneDirectiveLine(xs: seq<string>, i: nat, opts: Options, host: Host)
    requires i < |xs|
    requires forall k :: 0 <= k < |xs| && k != i ==> '@' !in xs[k]
    ensures RewriteLines(xs, opts, host) == xs[i := RewriteLine(xs[i], opts, host)]
    ensures LinesWarnings(xs, opts, host) == LineWarnings(xs[i], opts, host)
    decreases |xs|
  {
    var r := RewriteLine(xs[i], opts, host);
    if i == 0 {
      PlainLines(xs[1..], opts, host);
      UpdateHead(xs, r, LineWarnings(xs[0], opts, host));
    } else {
      PlainLine(xs[0], opts, host);
      OneDirectiveLine(xs[1..], i - 1, opts, host);
      UpdateBehindHead(xs, i, r);
    }
  }

  // Updating the head of a list; appending nothing.
  lemma UpdateHead<T>(xs: seq<T>, r: T, w: seq<T>)
    requires 0 < |xs|
    ensures xs[0 := r] == [r] + xs[1..]
    ensures w + [] == w
  {
  }

  // Updating an entry behind the head of a list.
  lemma UpdateBehindHead<T>(xs: seq<T>, i: nat, r: T)
    requires 0 < i < |xs|
    ensures xs[i := r] == [xs[0]] + xs[1..][i - 1 := r]
  {
  }

  /** A text of lines in which only line `i` can be a directive is rewritten
      by rewriting that line. */
  lemma TextWithOneDirective(xs: seq<string>, i: nat, opts: Options, host: Host)
    requires i < |xs|
    requires forall k :: 0 <= k < |xs| ==> NoLineTerminator(xs[k])
    requires forall k :: 0 <= k < |xs| && k != i ==> '@' !in xs[k]
    ensures RewriteText(Join(xs, "\n"), opts, host) == Join(xs[i := RewriteLine(xs[i], opts, host)], "\n")
    ensures RewriteWarnings(Join(xs, "\n"), opts, host) == LineWarnings(xs[i], opts, host)
  {
    RewriteJoin(xs, opts, host);
    OneDirectiveLine(xs, i, opts, host);
  }

  /** Joining a list one of whose entries is itself a join. */
  lemma JoinSplice(xs: seq<string>, ys: seq<string>, zs: seq<string>, sep: string)
    requires |xs| >= 1 && |ys| >= 1 && |zs| >= 1
    ensures Join(xs + [Join(ys, sep)] + zs, sep) == Join(xs + ys + zs, sep)
  {
    var j := Join(ys, sep);
    JoinAppend(xs + [j], zs, sep);
    JoinAppend(xs, [j], sep);
    JoinAppend(xs + ys, zs, sep);
    JoinAppend(xs, ys, sep);
  }

  /** A directive line between plain lines: only it is rewritten, and only it
      warns. */
  lemma TextAround(pre: seq<string>, line: string, post: seq<string>, opts: Options, host: Host)
    requires forall k :: 0 <= k < |pre| ==> PlainText(pre[k])
    requires forall k :: 0 <= k < |post| ==> PlainText(post[k])
    requires NoLineTerminator(line)
    ensures RewriteText(Join(pre + [line] + post, "\n"), opts, host) == Join(pre + [RewriteLine(line, opts, host)] + post, "\n")
    ensures RewriteWarnings(Join(pre + [line] + post, "\n"), opts, host) == LineWarnings(line, opts, host)
  {
    PlainAroundLine(pre, line, post);
    TextWithOneDirective(pre + [line] + post, |pre|, opts, host);
    UpdateAround(pre, line, RewriteLine(line, opts, host), post);
  }

  // The lines around a directive line are plain, and none has a terminator.
  lemma PlainAroundLine(pre: seq<string>, line: string, post: seq<string>)
    requires forall k :: 0 <= k < |pre| ==> PlainText(pre[k])
    requires forall k :: 0 <= k < |post| ==> PlainText(post[k])
    requires NoLineTerminator(line)
    ensures forall k :: 0 <= k < |pre + [line] + post| ==> NoLineTerminator((pre + [line] + post)[k])
    ensures forall k :: 0 <= k < |pre + [line] + post| && k != |pre| ==> '@' !in (pre + [line] + post)[k]
  {
    var xs := pre + [line] + post;
    var i := |pre|;
    forall k | 0 <= k < |xs| ensures NoLineTerminator(xs[k]) {
      if k < i {
        assert xs[k] == pre[k];
      } else if k > i {
        assert xs[k] == post[k - i - 1];
      }
    }
    forall k | 0 <= k < |xs| && k != i ensures '@' !in xs[k] {
      if k < i {
        assert xs[k] == pre[k];
      } else {
        assert xs[k] == post[k - i - 1];
      }
    }
  }

  // Replacing the entry between two lists.
  lemma UpdateAround<T>(pre: seq<T>, x: T, y: T, post: seq<T>)
    ensures (pre + [x] + post)[|pre| := y] == pre + [y] + post
  {
  }

  // Five entries, the middle one on its own.
  lemma AroundFive<T>(a: T, b: T, x: T, c: T, e: T)
    ensures [a, b] + [x] + [c, e] == [a, b, x, c, e]
  {
  }

  // Four entries, the third on its own.
  lemma AroundFour<T>(a: T, b: T, x: T, c: T)
    ensures [a, b] + [x] + [c] == [a, b, x, c]
  {
  }

  /** The shape of the `@use` and `@import` sources: an empty line, a plain
      line, the directive, and the empty line after the final line feed. */
  lemma FourLines(b: string, line: string, opts: Options, host: Host)
    requires PlainText(b) && NoLineTerminator(line)
    ensures RewriteText(Join(["", b, line, ""], "\n"), opts, host) == Join(["", b, RewriteLine(line, opts, host), ""], "\n")
    ensures RewriteWarnings(Join(["", b, line, ""], "\n"), opts, host) == LineWarnings(line, opts, host)
  {
    TextAround(["", b], line, [""], opts, host);
    AroundFour("", b, line, "");
    AroundFour("", b, RewriteLine(line, opts, host), "");
  }

  /** The shape of the `@include` sources: an empty line, a line opening a
      block, the directive, a line closing the block, and the empty line after
      the final line feed. */
  lemma FiveLines(b: string, line: string, c: string, opts: Options, host: Host)
    requires PlainText(b) && NoLineTerminator(line) && PlainText(c)
    ensures RewriteText(Join(["", b, line, c, ""], "\n"), opts, host) == Join(["", b, RewriteLine(line, opts, host), c, ""], "\n")
    ensures RewriteWarnings(Join(["", b, line, c, ""], "\n"), opts, host) == LineWarnings(line, opts, host)
  {
    TextAround(["", b], line, [c, ""], opts, host);
    AroundFive("", b, line, c, "");
    AroundFive("", b, RewriteLine(line, opts, host), c, "");
  }

  // Two lines, a join of two lines, and one more line.
  lemma JoinSpliceFour(a: string, b: string, x: string, y: string, c: string, sep: string)
    ensures Join([a, b, Join([x, y], sep), c], sep) == Join([a, b, x, y, c], sep)
  {
    JoinSplice([a, b], [x, y], [c], sep);
    assert [a, b] + [Join([x, y], sep)] + [c] == [a, b, Join([x, y], sep), c];
    assert [a, b] + [x, y] + [c] == [a, b, x, y, c];
  }

  // Two lines, a join of two lines, and two more lines.
  lemma JoinSpliceFive(a: string, b: string, x: string, y: string, c: string, e: string, sep: string)
    ensures Join([a, b, Join([x, y], sep), c, e], sep) == Join([a, b, x, y, c, e], sep)
  {
    JoinSplice([a, b], [x, y], [c, e], sep);
    assert [a, b] + [Join([x, y], sep)] + [c, e] == [a, b, Join([x, y], sep), c, e];
    assert [a, b] + [x, y] + [c, e] == [a, b, x, y, c, e];
  }

  /** A four-line source whose directive finds two test paths. */
  lemma FourLineSource(line: string, d: Directive, ns: Namespace, body: string, a: string, b: string)
    requires Classify(line) == Some(d) && IsBlank(d.prefix) && d.suffix == "" && NoLineTerminator(line)
    requires PlainText(body) && TestPath(a) && TestPath(b)
    ensures var host := TestHost([a, b], true);
      var la := LineFor(d.keyword, d.metaLoad, ns, [a, b], IsSass(line), a);
      var lb := LineFor(d.keyword, d.metaLoad, ns, [a, b], IsSass(line), b);
      && RewriteText(Join(["", body, line, ""], "\n"), Options(ns, []), host) == Join(["", body, la, lb, ""], "\n")
      && RewriteWarnings(Join(["", body, line, ""], "\n"), Options(ns, []), host) == []
  {
    var host := TestHost([a, b], true);
    var la := LineFor(d.keyword, d.metaLoad, ns, [a, b], IsSass(line), a);
    var lb := LineFor(d.keyword, d.metaLoad, ns, [a, b], IsSass(line), b);
    FourLines(body, line, Options(ns, []), host);
    TwoFileLine(line, d, Options(ns, []), a, b);
    JoinSpliceFour("", body, la, lb, "", "\n");
  }

  /** A five-line source whose directive finds two test paths. */
  lemma FiveLineSource(line: string, d: Directive, ns: Namespace, body: string, close: string, a: string, b: string)
    requires Classify(line) == Some(d) && IsBlank(d.prefix) && d.suffix == "" && NoLineTerminator(line)
    requires PlainText(body) && PlainText(close) && TestPath(a) && TestPath(b)
    ensures var host := TestHost([a, b], true);
      var la := LineFor(d.keyword, d.metaLoad, ns, [a, b], IsSass(line), a);
      var lb := LineFor(d.keyword, d.metaLoad, ns, [a, b], IsSass(line), b);
      && RewriteText(Join(["", body, line, close, ""], "\n"), Options(ns, []), host) == Join(["", body, la, lb, close, ""], "\n")
      && RewriteWarnings(Join(["", body, line, close, ""], "\n"), Options(ns, []), host) == []
  {
    var host := TestHost([a, b], true);
    var la := LineFor(d.keyword, d.metaLoad, ns, [a, b], IsSass(line), a);
    var lb := LineFor(d.keyword, d.metaLoad, ns, [a, b], IsSass(line), b);
    FiveLines(body, line, close, Options(ns, []), host);
    TwoFileLine(line, d, Options(ns, []), a, b);
    JoinSpliceFive("", body, la, lb, close, "", "\n");
  }
}
