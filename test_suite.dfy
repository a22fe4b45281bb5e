/**
 * The cases of the loader's test suite, one lemma per case. Each states the
 * processed source the case expects and the warnings it counts, for the
 * glob result, existence answer and options the case sets up.
 */
module TestSuite {
  import opened Optional
  import opened JsStrings
  import opened Scanner
  import opened Namespaces
  import opened Resolution
  import opened Loader
  import opened Examples

  // ---------------------------------------------------------------------------
  // Glob results, patterns and the lines around the directives.

  const FileA: string := "files/_file-a.scss"
  const FileB: string := "files/_file-b.scss"
  const SassA: string := "files/_file-a.sass"
  const SassB: string := "files/_file-b.sass"

  const ScssGlob: string := "./files/*.scss"
  const SassGlob: string := "./files/*.sass"
  const MissingGlob: string := "foo/**/*.scss"

  const Body: string := "body {}"
  const Open: string := "body {"
  const Close: string := "}"
  const Indent: string := "    "

  lemma ScssResults()
    ensures TestPath(FileA) && TestPath(FileB) && FileA != FileB
  {
    assert FileA[12] != FileB[12];
    StyleSheetName(FileA, 'c');
    StyleSheetName(FileB, 'c');
  }

  lemma SassResults()
    ensures TestPath(SassA) && TestPath(SassB) && SassA != SassB
  {
    assert SassA[12] != SassB[12];
    StyleSheetName(SassA, 'a');
    StyleSheetName(SassB, 'a');
  }

  lemma PlainTexts()
    ensures PlainText(Body) && PlainText(Open) && PlainText(Close)
  {
  }

  lemma ScssGlobShape()
    ensures TestGlob(ScssGlob) && NoLineTerminator(ScssGlob)
  {
    assert ScssGlob[1..][7] == '*';
    ScssGlobOneLine();
  }

  lemma ScssGlobOneLine()
    ensures NoLineTerminator(ScssGlob)
  {
  }

  lemma SassGlobShape()
    ensures TestGlob(SassGlob) && NoLineTerminator(SassGlob)
    ensures ContainsIgnoreCase(SassGlob, ".sass")
  {
    assert SassGlob[1..][7] == '*';
    SassGlobOneLine();
    SassAt(SassGlob, 9);
  }

  lemma SassGlobOneLine()
    ensures NoLineTerminator(SassGlob)
  {
  }

  lemma MissingGlobShape()
    ensures TestGlob(MissingGlob) && NoLineTerminator(MissingGlob) && MissingGlob[0] != '*'
  {
    assert MissingGlob[1..][3] == '*';
    MissingGlobOneLine();
  }

  lemma MissingGlobOneLine()
    ensures NoLineTerminator(MissingGlob)
  {
  }

  lemma IndentShape()
    ensures IsBlank(Indent) && NoLineTerminator(Indent)
    ensures forall k :: 0 <= k < |Indent| ==> IsBlankChar(Indent[k])
  {
  }

  // The text of each kind of directive up to its opening quote, and from
  // its closing quote on.

  lemma UseHead()
    ensures "@use \"" == "@" + (KeywordText(Use) + (" " + (WrapperText(false) + "\"")))
    ensures NoLineTerminator("@use \"")
  {
    UseHeadOneLine();
  }

  lemma UseHeadOneLine()
    ensures NoLineTerminator("@use \"")
  {
  }

  lemma ImportHead()
    ensures "@import \"" == "@" + (KeywordText(Import) + (" " + (WrapperText(false) + "\"")))
    ensures NoLineTerminator("@import \"")
  {
    ImportHeadOneLine();
  }

  lemma ImportHeadOneLine()
    ensures NoLineTerminator("@import \"")
  {
  }

  lemma IncludeHead()
    ensures "@include meta.load-css(\"" == "@" + (KeywordText(Include) + (" " + (WrapperText(true) + "\"")))
    ensures NoLineTerminator("@include meta.load-css(\"")
  {
    IncludeHeadOneLine();
  }

  lemma IncludeHeadOneLine()
    ensures NoLineTerminator("@include meta.load-css(\"")
  {
  }

  lemma Tails()
    ensures "\";" == "\"" + CloseText(false, true, "") && NoLineTerminator("\";")
    ensures "\");" == "\"" + CloseText(true, true, "") && NoLineTerminator("\");")
  {
  }

  // The pieces of the `.scss` lines without an `a` in either case.
  lemma NoLetterA(head: string)
    requires 'a' !in head && 'A' !in head
    ensures 'a' !in head + ScssGlob + "\";" && 'A' !in head + ScssGlob + "\";"
  {
    TailsWithoutA();
  }

  lemma TailsWithoutA()
    ensures 'a' !in ScssGlob && 'A' !in ScssGlob && 'a' !in "\";" && 'A' !in "\";"
    ensures 'a' !in "\");" && 'A' !in "\");"
  {
  }

  // An empty namespace clause adds nothing to a line.
  lemma NoClause(head: string, t: string)
    ensures head + "" + t == head + t
  {
    assert head + "" == head;
  }

  // Without a terminator a line ends with its path or clause.
  lemma NoTerminator(x: string)
    ensures x + "" == x
  {
  }

  lemma WildcardClause()
    ensures " as " + "*" == " as *"
  {
  }

  lemma CustomClauses()
    ensures " as " + "files-0" == " as files-0" && " as " + "files-1" == " as files-1"
  {
  }

  // ---------------------------------------------------------------------------
  // test/use-directive.test.ts

  const UseScss: string := "@use \"" + ScssGlob + "\";"
  const UseSass: string := "@use \"" + SassGlob + "\";"
  const UseMissing: string := "@use \"" + MissingGlob + "\";"

  lemma UseScssLine()
    ensures Classify(UseScss) == Some(TestDirective("", Use, false, ScssGlob, true))
    ensures !IsSass(UseScss) && NoLineTerminator(UseScss)
  {
    UseHead();
    Tails();
    ScssGlobShape();
    assert "" + "@use \"" == "@use \"";
    TestLineFacts("", Use, false, ScssGlob, "@use \"", "\";");
    UseScssNotSass();
  }

  lemma UseScssNotSass()
    ensures !IsSass(UseScss)
  {
    NoLetterA("@use \"");
    AbsentLetter(UseScss, ".sass", 2);
  }

  /** The `@use` directive of the `.scss` cases becomes one `@use` line per
      file, each ending in `;` and carrying the namespace clause of its path
      and position. */
  lemma UseScssCase(ns: Namespace)
    ensures var source := Join(["", Body, UseScss, ""], "\n");
      var host := TestHost([FileA, FileB], true);
      && RewriteText(source, Options(ns, []), host) == Join(["", Body,
           "@use \"" + FileA + "\"" + NamespaceSuffix(ns, FileA, 0) + ";",
           "@use \"" + FileB + "\"" + NamespaceSuffix(ns, FileB, 1) + ";", ""], "\n")
      && RewriteWarnings(source, Options(ns, []), host) == []
  {
    UseScssLine();
    ScssResults();
    PlainTexts();
    FourLineSource(UseScss, TestDirective("", Use, false, ScssGlob, true), ns, Body, FileA, FileB);
    UseLines(ns, false, FileA, FileB);
  }

  /** "converts glob patterns to inline imports": no namespace option, no clause. */
  lemma UseScssDefault()
    ensures var source := Join(["", Body, UseScss, ""], "\n");
      var host := TestHost([FileA, FileB], true);
      && RewriteText(source, Options(NoNamespace, []), host) ==
           Join(["", Body, "@use \"" + FileA + "\"" + ";", "@use \"" + FileB + "\"" + ";", ""], "\n")
      && RewriteWarnings(source, Options(NoNamespace, []), host) == []
  {
    UseScssCase(NoNamespace);
    NoClause("@use \"" + FileA + "\"", ";");
    NoClause("@use \"" + FileB + "\"", ";");
  }

  /** "applies wildcard namespace option": every line gets ` as *`. */
  lemma UseScssWildcard()
    ensures var source := Join(["", Body, UseScss, ""], "\n");
      var host := TestHost([FileA, FileB], true);
      && RewriteText(source, Options(Literal("*"), []), host) ==
           Join(["", Body, "@use \"" + FileA + "\"" + " as *" + ";", "@use \"" + FileB + "\"" + " as *" + ";", ""], "\n")
      && RewriteWarnings(source, Options(Literal("*"), []), host) == []
  {
    UseScssCase(Literal("*"));
    WildcardClause();
  }

  /** "applies custom namespace function": each line gets ` as ` and what the
      function answers for its path and position. */
  lemma UseScssCustom(nameOf: (string, int) -> string)
    requires nameOf(FileA, 0) == "files-0" && nameOf(FileB, 1) == "files-1"
    ensures var source := Join(["", Body, UseScss, ""], "\n");
      var host := TestHost([FileA, FileB], true);
      && RewriteText(source, Options(Custom(nameOf), []), host) ==
           Join(["", Body, "@use \"" + FileA + "\"" + " as files-0" + ";", "@use \"" + FileB + "\"" + " as files-1" + ";", ""], "\n")
      && RewriteWarnings(source, Options(Custom(nameOf), []), host) == []
  {
    UseScssCase(Custom(nameOf));
    CustomClauses();
  }

  lemma UseSassLine()
    ensures Classify(UseSass) == Some(TestDirective("", Use, false, SassGlob, true))
    ensures IsSass(UseSass) && NoLineTerminator(UseSass)
  {
    UseHead();
    Tails();
    SassGlobShape();
    assert "" + "@use \"" == "@use \"";
    TestLineFacts("", Use, false, SassGlob, "@use \"", "\";");
  }

  /** The `@use` directive of the `.sass` cases: the same lines without `;`. */
  lemma UseSassCase(ns: Namespace)
    ensures var source := Join(["", Body, UseSass, ""], "\n");
      var host := TestHost([SassA, SassB], true);
      && RewriteText(source, Options(ns, []), host) == Join(["", Body,
           "@use \"" + SassA + "\"" + NamespaceSuffix(ns, SassA, 0),
           "@use \"" + SassB + "\"" + NamespaceSuffix(ns, SassB, 1), ""], "\n")
      && RewriteWarnings(source, Options(ns, []), host) == []
  {
    UseSassLine();
    SassResults();
    PlainTexts();
    FourLineSource(UseSass, TestDirective("", Use, false, SassGlob, true), ns, Body, SassA, SassB);
    UseLines(ns, true, SassA, SassB);
    NoTerminator("@use \"" + SassA + "\"" + NamespaceSuffix(ns, SassA, 0));
    NoTerminator("@use \"" + SassB + "\"" + NamespaceSuffix(ns, SassB, 1));
  }

  /** "converts glob patterns to inline imports without semicolons". */
  lemma UseSassDefault()
    ensures var source := Join(["", Body, UseSass, ""], "\n");
      var host := TestHost([SassA, SassB], true);
      && RewriteText(source, Options(NoNamespace, []), host) ==
           Join(["", Body, "@use \"" + SassA + "\"", "@use \"" + SassB + "\"", ""], "\n")
      && RewriteWarnings(source, Options(NoNamespace, []), host) == []
  {
    UseSassCase(NoNamespace);
    NoTerminator("@use \"" + SassA + "\"");
    NoTerminator("@use \"" + SassB + "\"");
  }

  /** The wildcard namespace with the indented syntax. */
  lemma UseSassWildcard()
    ensures var source := Join(["", Body, UseSass, ""], "\n");
      var host := TestHost([SassA, SassB], true);
      && RewriteText(source, Options(Literal("*"), []), host) ==
           Join(["", Body, "@use \"" + SassA + "\"" + " as *", "@use \"" + SassB + "\"" + " as *", ""], "\n")
      && RewriteWarnings(source, Options(Literal("*"), []), host) == []
  {
    UseSassCase(Literal("*"));
    WildcardClause();
  }

  /** The custom namespace function with the indented syntax. */
  lemma UseSassCustom(nameOf: (string, int) -> string)
    requires nameOf(SassA, 0) == "files-0" && nameOf(SassB, 1) == "files-1"
    ensures var source := Join(["", Body, UseSass, ""], "\n");
      var host := TestHost([SassA, SassB], true);
      && RewriteText(source, Options(Custom(nameOf), []), host) ==
           Join(["", Body, "@use \"" + SassA + "\"" + " as files-0", "@use \"" + SassB + "\"" + " as files-1", ""], "\n")
      && RewriteWarnings(source, Options(Custom(nameOf), []), host) == []
  {
    UseSassCase(Custom(nameOf));
    CustomClauses();
  }

  lemma UseMissingLine()
    ensures Classify(UseMissing) == Some(TestDirective("", Use, false, MissingGlob, true))
    ensures NoLineTerminator(UseMissing)
  {
    UseHead();
    Tails();
    MissingGlobShape();
    assert "" + "@use \"" == "@use \"";
    TestLineFacts("", Use, false, MissingGlob, "@use \"", "\";");
  }

  /** "warns when glob path does not exist": the directive line is emptied
      and there is exactly one warning, naming the pattern. */
  lemma UseMissingCase(ns: Namespace)
    ensures var source := Join(["", Body, UseMissing, ""], "\n");
      var host := TestHost([], false);
      && RewriteText(source, Options(ns, []), host) == Join(["", Body, "", ""], "\n")
      && RewriteWarnings(source, Options(ns, []), host) == [WarningText(MissingGlob)]
  {
    UseMissingLine();
    MissingGlobShape();
    PlainTexts();
    FourLines(Body, UseMissing, Options(ns, []), TestHost([], false));
    MissingDirectoryLine(UseMissing, TestDirective("", Use, false, MissingGlob, true), Options(ns, []));
  }

  // ---------------------------------------------------------------------------
  // test/import-directive.test.ts

  const ImportScss: string := "@import \"" + ScssGlob + "\";"
  const ImportSass: string := "@import \"" + SassGlob + "\";"
  const ImportMissing: string := "@import \"" + MissingGlob + "\";"

  lemma ImportScssLine()
    ensures Classify(ImportScss) == Some(TestDirective("", Import, false, ScssGlob, true))
    ensures !IsSass(ImportScss) && NoLineTerminator(ImportScss)
  {
    ImportHead();
    Tails();
    ScssGlobShape();
    assert "" + "@import \"" == "@import \"";
    TestLineFacts("", Import, false, ScssGlob, "@import \"", "\";");
    ImportScssNotSass();
  }

  lemma ImportScssNotSass()
    ensures !IsSass(ImportScss)
  {
    NoLetterA("@import \"");
    AbsentLetter(ImportScss, ".sass", 2);
  }

  /** "converts glob patterns to inline imports" for `@import`: one `@import`
      line per file, with `;`, whatever the namespace option. */
  lemma ImportScssCase(ns: Namespace)
    ensures var source := Join(["", Body, ImportScss, ""], "\n");
      var host := TestHost([FileA, FileB], true);
      && RewriteText(source, Options(ns, []), host) ==
           Join(["", Body, "@import \"" + FileA + "\"" + ";", "@import \"" + FileB + "\"" + ";", ""], "\n")
      && RewriteWarnings(source, Options(ns, []), host) == []
  {
    ImportScssLine();
    ScssResults();
    PlainTexts();
    FourLineSource(ImportScss, TestDirective("", Import, false, ScssGlob, true), ns, Body, FileA, FileB);
    ImportLinesOf(ns, false, FileA, FileB);
  }

  lemma ImportSassLine()
    ensures Classify(ImportSass) == Some(TestDirective("", Import, false, SassGlob, true))
    ensures IsSass(ImportSass) && NoLineTerminator(ImportSass)
  {
    ImportHead();
    Tails();
    SassGlobShape();
    assert "" + "@import \"" == "@import \"";
    TestLineFacts("", Import, false, SassGlob, "@import \"", "\";");
  }

  /** The `@import` case with the indented syntax: no `;`. */
  lemma ImportSassCase(ns: Namespace)
    ensures var source := Join(["", Body, ImportSass, ""], "\n");
      var host := TestHost([SassA, SassB], true);
      && RewriteText(source, Options(ns, []), host) ==
           Join(["", Body, "@import \"" + SassA + "\"", "@import \"" + SassB + "\"", ""], "\n")
      && RewriteWarnings(source, Options(ns, []), host) == []
  {
    ImportSassLine();
    SassResults();
    PlainTexts();
    FourLineSource(ImportSass, TestDirective("", Import, false, SassGlob, true), ns, Body, SassA, SassB);
    ImportLinesOf(ns, true, SassA, SassB);
    NoTerminator("@import \"" + SassA + "\"");
    NoTerminator("@import \"" + SassB + "\"");
  }

  lemma ImportMissingLine()
    ensures Classify(ImportMissing) == Some(TestDirective("", Import, false, MissingGlob, true))
    ensures NoLineTerminator(ImportMissing)
  {
    ImportHead();
    Tails();
    MissingGlobShape();
    assert "" + "@import \"" == "@import \"";
    TestLineFacts("", Import, false, MissingGlob, "@import \"", "\";");
  }

  /** The missing-directory case for `@import`. */
  lemma ImportMissingCase(ns: Namespace)
    ensures var source := Join(["", Body, ImportMissing, ""], "\n");
      var host := TestHost([], false);
      && RewriteText(source, Options(ns, []), host) == Join(["", Body, "", ""], "\n")
      && RewriteWarnings(source, Options(ns, []), host) == [WarningText(MissingGlob)]
  {
    ImportMissingLine();
    MissingGlobShape();
    PlainTexts();
    FourLines(Body, ImportMissing, Options(ns, []), TestHost([], false));
    MissingDirectoryLine(ImportMissing, TestDirective("", Import, false, MissingGlob, true), Options(ns, []));
  }

  // ---------------------------------------------------------------------------
  // test/include-meta-load-css.test.ts

  const IncludeScss: string := Indent + "@include meta.load-css(\"" + ScssGlob + "\");"
  const IncludeSass: string := Indent + "@include meta.load-css(\"" + SassGlob + "\");"
  const IncludeMissing: string := Indent + "@include meta.load-css(\"" + MissingGlob + "\");"

  // `meta.load-css(` holds `.` and every letter of `.sass`, so the line is
  // cut where no occurrence can straddle the cut: after `meta.lo`, and after
  // the `a` that follows.
  lemma IncludeHeadNotSass()
    ensures !ContainsIgnoreCase(Indent + "@include meta.load-css(\"" + "./fi", ".sass")
  {
    IncludeHeadCut();
    BeforeCutNotSass();
    AfterCutNotSass();
    AbsentAcross("    @include meta.lo", "ad-css(\"./fi", ".sass");
  }

  lemma IncludeHeadCut()
    ensures Indent + "@include meta.load-css(\"" + "./fi" == "    @include meta.lo" + "ad-css(\"./fi"
    ensures ("ad-css(\"./fi")[..4] == "ad-c"
  {
  }

  lemma BeforeCutNotSass()
    ensures !ContainsIgnoreCase("    @include meta.lo" + "ad-c", ".sass")
  {
    AbsentLetter("    @include meta.lo" + "ad-c", ".sass", 1);
  }

  lemma AfterCutNotSass()
    ensures !ContainsIgnoreCase("ad-css(\"./fi", ".sass")
  {
    AfterSecondCut();
    AbsentLetter("a" + "d-cs", ".sass", 0);
    AbsentLetter("d-css(\"./fi", ".sass", 2);
    AbsentAcross("a", "d-css(\"./fi", ".sass");
  }

  lemma AfterSecondCut()
    ensures "ad-css(\"./fi" == "a" + "d-css(\"./fi" && ("d-css(\"./fi")[..4] == "d-cs"
  {
  }

  lemma IncludeScssNotSass()
    ensures !IsSass(IncludeScss)
  {
    var x := Indent + "@include meta.load-css(\"";
    var y := ScssGlob + "\");";
    ConcatAssoc(x, ScssGlob, "\");");
    assert y[..4] == "./fi";
    IncludeHeadNotSass();
    AbsentLetter(y, ".sass", 2);
    AbsentAcross(x, y, ".sass");
  }

  lemma IncludeScssLine()
    ensures Classify(IncludeScss) == Some(TestDirective(Indent, Include, true, ScssGlob, true))
    ensures !IsSass(IncludeScss) && NoLineTerminator(IncludeScss)
  {
    IncludeHead();
    Tails();
    ScssGlobShape();
    IndentShape();
    TestLineFacts(Indent, Include, true, ScssGlob, "@include meta.load-css(\"", "\");");
    IncludeScssNotSass();
  }

  /** "converts glob patterns to inline imports" for `@include
      meta.load-css(...)`: one wrapped line per file, with `;`, without the
      indentation, and without a namespace clause although the case sets a
      namespace function. */
  lemma IncludeScssCase(ns: Namespace)
    ensures var source := Join(["", Open, IncludeScss, Close, ""], "\n");
      var host := TestHost([FileA, FileB], true);
      && RewriteText(source, Options(ns, []), host) == Join(["", Open,
           "@include meta.load-css(\"" + FileA + "\")" + ";",
           "@include meta.load-css(\"" + FileB + "\")" + ";", Close, ""], "\n")
      && RewriteWarnings(source, Options(ns, []), host) == []
  {
    IncludeScssLine();
    IndentShape();
    ScssResults();
    PlainTexts();
    FiveLineSource(IncludeScss, TestDirective(Indent, Include, true, ScssGlob, true), ns, Open, Close, FileA, FileB);
    IncludeLinesOf(ns, false, FileA, FileB);
  }

  lemma IncludeSassLine()
    ensures Classify(IncludeSass) == Some(TestDirective(Indent, Include, true, SassGlob, true))
    ensures IsSass(IncludeSass) && NoLineTerminator(IncludeSass)
  {
    IncludeHead();
    Tails();
    SassGlobShape();
    IndentShape();
    TestLineFacts(Indent, Include, true, SassGlob, "@include meta.load-css(\"", "\");");
  }

  /** The `@include meta.load-css(...)` case with the indented syntax: no `;`. */
  lemma IncludeSassCase(ns: Namespace)
    ensures var source := Join(["", Open, IncludeSass, Close, ""], "\n");
      var host := TestHost([SassA, SassB], true);
      && RewriteText(source, Options(ns, []), host) == Join(["", Open,
           "@include meta.load-css(\"" + SassA + "\")",
           "@include meta.load-css(\"" + SassB + "\")", Close, ""], "\n")
      && RewriteWarnings(source, Options(ns, []), host) == []
  {
    IncludeSassLine();
    IndentShape();
    SassResults();
    PlainTexts();
    FiveLineSource(IncludeSass, TestDirective(Indent, Include, true, SassGlob, true), ns, Open, Close, SassA, SassB);
    IncludeLinesOf(ns, true, SassA, SassB);
    NoTerminator("@include meta.load-css(\"" + SassA + "\")");
    NoTerminator("@include meta.load-css(\"" + SassB + "\")");
  }

  lemma IncludeMissingLine()
    ensures Classify(IncludeMissing) == Some(TestDirective(Indent, Include, true, MissingGlob, true))
    ensures NoLineTerminator(IncludeMissing)
  {
    IncludeHead();
    Tails();
    MissingGlobShape();
    IndentShape();
    TestLineFacts(Indent, Include, true, MissingGlob, "@include meta.load-css(\"", "\");");
  }

  /** The missing-directory case for `@include meta.load-css(...)`: the
      indented directive line is emptied, one warning. */
  lemma IncludeMissingCase(ns: Namespace)
    ensures var source := Join(["", Open, IncludeMissing, Close, ""], "\n");
      var host := TestHost([], false);
      && RewriteText(source, Options(ns, []), host) == Join(["", Open, "", Close, ""], "\n")
      && RewriteWarnings(source, Options(ns, []), host) == [WarningText(MissingGlob)]
  {
    IncludeMissingLine();
    MissingGlobShape();
    IndentShape();
    PlainTexts();
    FiveLines(Open, IncludeMissing, Close, Options(ns, []), TestHost([], false));
    MissingDirectoryLine(IncludeMissing, TestDirective(Indent, Include, true, MissingGlob, true), Options(ns, []));
  }
}
