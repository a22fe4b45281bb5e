// The directive pattern of the loader, read one line at a time. A line is a
// directive when it consists, from its start to its end, of:
//
//   - group 1: spaces and tabs, optionally followed by one block comment
//     (slash-star, any text, star-slash);
//   - `@` and group 2, one of the keywords `import`, `use` and `include`;
//   - one or more white-space characters;
//   - group 3, optional: the wrapper `meta.load-css(`;
//   - a quote, either `"` or `'`;
//   - group 4, the glob pattern: at least one character that is not a
//     quote, then `*`, then any characters that are not quotes;
//   - a quote, again either kind, an optional `)` and an optional `;`;
//   - group 5: spaces and tabs, optionally followed by a comment that starts
//     with two slashes or with slash-star and runs to the end of the line.
//
// `Classify` returns the captures the backtracking matcher settles on, and
// `Render` puts a capture record back together; the lemmas below show that the
// two are inverse on well-formed records and that the comment before the
// directive is taken as long as possible, as the greedy `.*` does.
module Scanner {
  import opened Optional
  import opened JsStrings

  datatype Keyword = Import | Use | Include

  function KeywordText(k: Keyword): string {
    match k
    case Import => "import"
    case Use => "use"
    case Include => "include"
  }

  const MetaLoadCss: string := "meta.load-css("

  /** One matched line: the five capture groups of the pattern together with
      the uncaptured pieces between them, so that the line can be rebuilt. */
  datatype Directive = Directive(
    prefix: string,        // group 1: indentation and an optional /* ... */ comment
    keyword: Keyword,      // group 2
    spacing: string,       // what \s+ consumed after the keyword
    metaLoad: bool,        // group 3 matched: the meta.load-css( wrapper
    openQuote: char,
    globPattern: string,   // group 4
    closeQuote: char,
    closeParen: bool,
    semicolon: bool,
    suffix: string)        // group 5: trailing blanks and an optional comment

  predicate IsQuote(c: char) {
    c == '"' || c == '\''
  }

  predicate IsNotQuote(c: char) {
    !IsQuote(c)
  }

  /** `[^"']+\*[^"']*`: some `*` stands after the first character. */
  predicate HasInnerStar(g: string) {
    |g| > 1 && '*' in g[1..]
  }

  // A comment opened and closed on the line; the `.*` between the markers
  // matches anything on a line.
  predicate IsComment(c: string) {
    |c| >= 4 && c[..2] == "/*" && c[|c| - 2..] == "*/"
  }

  // Group 1 as a whole: blanks, then optionally a comment.
  predicate IsCommentPrefix(p: string)
    decreases |p|
  {
    || p == []
    || IsComment(p)
    || (IsBlankChar(p[0]) && IsCommentPrefix(p[1..]))
  }

  // Group 5 followed by `$`: blanks, then optionally `//` or a comment opener
  // followed by anything.
  predicate IsTrailer(s: string)
    decreases |s|
  {
    || s == []
    || (|s| >= 2 && s[0] == '/' && (s[1] == '/' || s[1] == '*'))
    || (IsBlankChar(s[0]) && IsTrailer(s[1..]))
  }

  /** Blanks followed by anything but a blank or `/` cannot end a line of the pattern. */
  lemma NotTrailer(s: string, n: nat)
    requires n < |s| && (forall k :: 0 <= k < n ==> IsBlankChar(s[k]))
    requires !IsBlankChar(s[n]) && s[n] != '/'
    ensures !IsTrailer(s)
    decreases n
  {
    if n > 0 {
      NotTrailer(s[1..], n - 1);
    }
  }

  /** `\)?;?` and group 5, as text. */
  function CloseText(paren: bool, semi: bool, suffix: string): string {
    (if paren then ")" else "") + (if semi then ";" else "") + suffix
  }

  /** The quoted path, as text. */
  function StringText(openQuote: char, glob: string, closeQuote: char): string {
    [openQuote] + glob + [closeQuote]
  }

  function WrapperText(metaLoad: bool): string {
    if metaLoad then MetaLoadCss else ""
  }

  /** The text from the optional wrapper on. */
  function RenderQuoted(d: Directive): string {
    WrapperText(d.metaLoad) + (StringText(d.openQuote, d.globPattern, d.closeQuote)
      + CloseText(d.closeParen, d.semicolon, d.suffix))
  }

  /** The text from the `@` on. */
  function RenderTail(d: Directive): string {
    "@" + (KeywordText(d.keyword) + (d.spacing + RenderQuoted(d)))
  }

  /** The matched line a capture record stands for. */
  function Render(d: Directive): string {
    d.prefix + RenderTail(d)
  }

  /** The pieces after group 1 have the shapes the pattern gives them. */
  predicate TailShaped(d: Directive) {
    && |d.spacing| > 0
    && (forall k :: 0 <= k < |d.spacing| ==> IsJsSpace(d.spacing[k]))
    && IsQuote(d.openQuote) && IsQuote(d.closeQuote)
    && (forall k :: 0 <= k < |d.globPattern| ==> !IsQuote(d.globPattern[k]))
    && IsTrailer(d.suffix)
  }

  /** A record the pattern can produce for a line of its own. */
  predicate WellFormed(d: Directive) {
    && IsCommentPrefix(d.prefix)
    && TailShaped(d)
    && HasInnerStar(d.globPattern)
    && NoLineTerminator(Render(d))
  }

  /** Which alternative of `(import|use|include)` starts `t`; they begin with
      different letters, so at most one does. */
  function KeywordAt(t: string): Option<Keyword> {
    if StartsWith(t, "import") then Some(Import)
    else if StartsWith(t, "use") then Some(Use)
    else if StartsWith(t, "include") then Some(Include)
    else None
  }

  /** The optional `)`, the optional `;` and group 5 up to the end of the line,
      giving the parenthesis flag, the semicolon flag and group 5. */
  function ParseClose(s: string): Option<(bool, bool, string)> {
    var paren := |s| > 0 && s[0] == ')';
    var s1 := if paren then s[1..] else s;
    var semi := |s1| > 0 && s1[0] == ';';
    var s2 := if semi then s1[1..] else s1;
    if IsTrailer(s2) then Some((paren, semi, s2)) else None
  }

  /** A quote, the run of non-quotes up to the next quote, and that quote,
      giving both quotes, the run and the rest of the text. */
  function ParseString(s: string): Option<(char, string, char, string)> {
    if |s| == 0 || !IsQuote(s[0]) then None
    else
      var q := Run(s[1..], IsNotQuote);
      if 1 + q == |s| then None else Some((s[0], s[1..1 + q], s[1 + q], s[2 + q..]))
  }

  /** The pattern from `(meta\.load-css\()?` to `$`, given what came before. */
  function ParseQuoted(prefix: string, kw: Keyword, spacing: string, s: string): Option<Directive> {
    var meta := StartsWith(s, MetaLoadCss);
    var s3 := if meta then s[|MetaLoadCss|..] else s;
    match ParseString(s3)
    case None => None
    case Some(str) =>
      if !HasInnerStar(str.1) then None
      else
        match ParseClose(str.3)
        case None => None
        case Some(close) => Some(Directive(prefix, kw, spacing, meta, str.0, str.1, str.2, close.0, close.1, close.2))
  }

  /** The pattern from `@` to `$`, with group 1 already fixed to `prefix`.
      Every quantifier here is forced: `\s+` must stop at `m` or a quote, the
      wrapper is tried first and without it a quote would have to stand on `m`,
      group 4 must end at the first quote, and group 5 cannot begin with `)` or `;`. */
  function ParseAfterPrefix(prefix: string, t: string): (r: Option<Directive>)
    ensures r.Some? ==> r.value.prefix == prefix
  {
    if |t| == 0 || t[0] != '@' then None
    else
      match KeywordAt(t[1..])
      case None => None
      case Some(kw) =>
        if 1 + |KeywordText(kw)| > |t| then None
        else
          var s1 := t[1 + |KeywordText(kw)|..];
          var sp := Run(s1, IsJsSpace);
          if sp == 0 then None else ParseQuoted(prefix, kw, s1[..sp], s1[sp..])
  }

  /** Whether the text from `@` on matches, with group 1 fixed to `prefix`. */
  predicate Parses(prefix: string, t: string) {
    ParseAfterPrefix(prefix, t).Some?
  }

  /** `\/\*` at position `n` of the line. */
  predicate OpensComment(line: string, n: nat) {
    n + 1 < |line| && line[n] == '/' && line[n + 1] == '*'
  }

  /** `\*\/` just before position `c` of the line. */
  predicate ClosesComment(line: string, c: nat) {
    2 <= c <= |line| && line[c - 2] == '*' && line[c - 1] == '/'
  }

  /** The greedy `.*` inside group 1's comment: the rightmost position `c`, at
      or before `e`, where a comment close ends and where `accepts` takes the
      line cut in two there; positions are tried from the right until one works.
      The classifier passes `Parses`, the rest of the pattern. */
  function LongestCut(line: string, n: nat, e: nat, accepts: (string, string) -> bool): (c: Option<nat>)
    requires e <= |line|
    ensures c.Some? ==> n + 4 <= c.value <= e && ClosesComment(line, c.value)
    ensures c.Some? ==> accepts(line[..c.value], line[c.value..])
    decreases e
  {
    if e < n + 4 then None
    else if ClosesComment(line, e) && accepts(line[..e], line[e..]) then Some(e)
    else LongestCut(line, n, e - 1, accepts)
  }

  /** Where group 1 ends: right after the blank run, or, when a comment opens
      there, at the comment close the greedy search settles on; nowhere when
      no comment close lets the rest of the line match. */
  function GroupOneEnd(line: string): (c: Option<nat>)
    ensures c.Some? ==> c.value <= |line|
  {
    var n := Run(line, IsBlankChar);
    if OpensComment(line, n) then LongestCut(line, n, |line|, Parses)
    else Some(n)
  }

  /** The match the pattern finds on one line, if any. */
  function Classify(line: string): Option<Directive> {
    match GroupOneEnd(line)
    case None => None
    case Some(c) => ParseAfterPrefix(line[..c], line[c..])
  }

  // ---------------------------------------------------------------------------
  // The tail of a line: parsing is the inverse of rendering, piece by piece.

  /** Group 5 never starts with `)` or `;`, so the optional `)` and `;` before
      it are read back as they were written. */
  lemma ParseCloseText(paren: bool, semi: bool, suffix: string)
    requires IsTrailer(suffix)
    ensures ParseClose(CloseText(paren, semi, suffix)) == Some((paren, semi, suffix))
  {
    var semis := (if semi then ";" else "") + suffix;
    var s := CloseText(paren, semi, suffix);
    assert s == (if paren then ")" else "") + semis;
    var s1 := if paren then s[1..] else s;
    assert s1 == semis;
    assert (|s| > 0 && s[0] == ')') == paren;
    var s2 := if semi then s1[1..] else s1;
    assert s2 == suffix;
    assert (|s1| > 0 && s1[0] == ';') == semi;
  }

  lemma ParseCloseSound(s: string)
    requires ParseClose(s).Some?
    ensures CloseText(ParseClose(s).value.0, ParseClose(s).value.1, ParseClose(s).value.2) == s
    ensures IsTrailer(ParseClose(s).value.2)
  {
    var paren := |s| > 0 && s[0] == ')';
    var s1 := if paren then s[1..] else s;
    var semi := |s1| > 0 && s1[0] == ';';
    var s2 := if semi then s1[1..] else s1;
    assert ParseClose(s).value == (paren, semi, s2);
    var a := if paren then ")" else "";
    var b := if semi then ";" else "";
    assert s1 == b + s2 by {
      if semi { HeadAndTail(s1); }
    }
    assert s == a + s1 by {
      if paren { HeadAndTail(s); }
    }
    ConcatAssoc(a, b, s2);
  }

  // A non-empty text is its first character followed by the rest.
  lemma HeadAndTail(s: string)
    requires |s| > 0
    ensures s == [s[0]] + s[1..]
  {
  }

  /** A quoted path is read back up to its closing quote. */
  lemma ParseStringText(openQuote: char, glob: string, closeQuote: char, rest: string)
    requires IsQuote(openQuote) && IsQuote(closeQuote)
    requires forall k :: 0 <= k < |glob| ==> !IsQuote(glob[k])
    ensures ParseString(StringText(openQuote, glob, closeQuote) + rest) == Some((openQuote, glob, closeQuote, rest))
  {
    var s := StringText(openQuote, glob, closeQuote) + rest;
    assert s[1..] == glob + ([closeQuote] + rest);
    RunOfConcat(glob, [closeQuote] + rest, IsNotQuote);
    assert s[1..1 + |glob|] == glob;
    assert s[1 + |glob|] == closeQuote;
    assert s[2 + |glob|..] == rest;
  }

  lemma ParseStringSound(s: string)
    requires ParseString(s).Some?
    ensures var r := ParseString(s).value;
      && IsQuote(r.0) && IsQuote(r.2)
      && (forall k :: 0 <= k < |r.1| ==> !IsQuote(r.1[k]))
      && StringText(r.0, r.1, r.2) + r.3 == s
  {
    var q := Run(s[1..], IsNotQuote);
    var glob := s[1..1 + q];
    RunMembers(s[1..], IsNotQuote);
    forall k | 0 <= k < |glob| ensures !IsQuote(glob[k]) {
      assert glob[k] == s[1..][k];
    }
    assert IsQuote(s[1 + q]) by { assert s[1..][q] == s[1 + q]; }
    assert s == [s[0]] + glob + [s[1 + q]] + s[2 + q..];
  }

  /** Whatever follows the `\s+` run starts with the wrapper or a quote. */
  lemma RenderQuotedStart(d: Directive)
    requires IsQuote(d.openQuote)
    ensures |RenderQuoted(d)| > 0 && (RenderQuoted(d)[0] == 'm' || IsQuote(RenderQuoted(d)[0]))
  {
    if d.metaLoad {
      assert RenderQuoted(d)[0] == MetaLoadCss[0];
    } else {
      assert RenderQuoted(d)[0] == d.openQuote;
    }
  }

  lemma ParseRenderedQuoted(d: Directive)
    requires TailShaped(d)
    ensures ParseQuoted(d.prefix, d.keyword, d.spacing, RenderQuoted(d)) ==
      if HasInnerStar(d.globPattern) then Some(d) else None
  {
    var s := RenderQuoted(d);
    var close := CloseText(d.closeParen, d.semicolon, d.suffix);
    var str := StringText(d.openQuote, d.globPattern, d.closeQuote) + close;
    assert s == WrapperText(d.metaLoad) + str;
    if d.metaLoad {
      assert s[..|MetaLoadCss|] == MetaLoadCss;
      assert s[|MetaLoadCss|..] == str;
    } else {
      assert s == str;
      assert s[0] == d.openQuote;
      assert !StartsWith(s, MetaLoadCss) by {
        if |MetaLoadCss| <= |s| { assert s[..|MetaLoadCss|][0] == s[0]; }
      }
    }
    ParseStringText(d.openQuote, d.globPattern, d.closeQuote, close);
    ParseCloseText(d.closeParen, d.semicolon, d.suffix);
  }

  // The text from the wrapper on is rebuilt from the wrapper flag and what follows it.
  lemma RenderQuotedOfPieces(s: string, d: Directive)
    requires d.metaLoad == StartsWith(s, MetaLoadCss)
    requires StringText(d.openQuote, d.globPattern, d.closeQuote) + CloseText(d.closeParen, d.semicolon, d.suffix)
      == if d.metaLoad then s[|MetaLoadCss|..] else s
    ensures RenderQuoted(d) == s
  {
    if d.metaLoad {
      assert s == s[..|MetaLoadCss|] + s[|MetaLoadCss|..];
    }
  }

  lemma ParseQuotedSound(prefix: string, kw: Keyword, spacing: string, s: string)
    requires ParseQuoted(prefix, kw, spacing, s).Some?
    ensures var d := ParseQuoted(prefix, kw, spacing, s).value;
      && d.prefix == prefix && d.keyword == kw && d.spacing == spacing
      && IsQuote(d.openQuote) && IsQuote(d.closeQuote)
      && (forall k :: 0 <= k < |d.globPattern| ==> !IsQuote(d.globPattern[k]))
      && IsTrailer(d.suffix) && HasInnerStar(d.globPattern)
      && RenderQuoted(d) == s
  {
    var meta := StartsWith(s, MetaLoadCss);
    var s3 := if meta then s[|MetaLoadCss|..] else s;
    var str := ParseString(s3).value;
    ParseStringSound(s3);
    var close := ParseClose(str.3).value;
    ParseCloseSound(str.3);
    var d := Directive(prefix, kw, spacing, meta, str.0, str.1, str.2, close.0, close.1, close.2);
    assert ParseQuoted(prefix, kw, spacing, s) == Some(d);
    RenderQuotedOfPieces(s, d);
  }

  /** The keyword text is read back as the keyword. */
  lemma KeywordAtText(kw: Keyword, rest: string)
    ensures KeywordAt(KeywordText(kw) + rest) == Some(kw)
  {
    var t := KeywordText(kw) + rest;
    assert t[..|KeywordText(kw)|] == KeywordText(kw);
    match kw
    case Import =>
    case Use =>
      assert !StartsWith(t, "import") by {
        if 6 <= |t| { assert t[..6][0] == t[0] == 'u'; }
      }
    case Include =>
      assert !StartsWith(t, "import") by {
        if 6 <= |t| { assert t[..6][1] == t[1] == 'n'; }
      }
      assert !StartsWith(t, "use") by {
        assert t[..3][0] == t[0] == 'i';
      }
  }

  // The pieces of the text from `@` on, as the parser cuts them.
  lemma TailPieces(d: Directive)
    requires TailShaped(d)
    ensures var t := RenderTail(d); var k := KeywordText(d.keyword);
      && |t| > 0 && t[0] == '@' && KeywordAt(t[1..]) == Some(d.keyword) && 1 + |k| <= |t|
      && Run(t[1 + |k|..], IsJsSpace) == |d.spacing|
      && t[1 + |k|..][..|d.spacing|] == d.spacing
      && t[1 + |k|..][|d.spacing|..] == RenderQuoted(d)
  {
    var t := RenderTail(d);
    var k := KeywordText(d.keyword);
    var quoted := RenderQuoted(d);
    var s1 := d.spacing + quoted;
    assert t[1..] == k + s1;
    KeywordAtText(d.keyword, s1);
    assert t[1 + |k|..] == s1;
    RenderQuotedStart(d);
    RunOfConcat(d.spacing, quoted, IsJsSpace);
    assert s1[..|d.spacing|] == d.spacing;
    assert s1[|d.spacing|..] == quoted;
  }

  // One step of `ParseAfterPrefix`, for a text already cut into its pieces.
  lemma ParseAfterPrefixOfPieces(prefix: string, t: string, kw: Keyword, spacing: string, rest: string)
    requires |t| > 0 && t[0] == '@' && KeywordAt(t[1..]) == Some(kw) && 1 + |KeywordText(kw)| <= |t|
    requires |spacing| > 0 && Run(t[1 + |KeywordText(kw)|..], IsJsSpace) == |spacing|
    requires t[1 + |KeywordText(kw)|..][..|spacing|] == spacing
    requires t[1 + |KeywordText(kw)|..][|spacing|..] == rest
    ensures ParseAfterPrefix(prefix, t) == ParseQuoted(prefix, kw, spacing, rest)
  {
  }

  /** A record whose pieces have the pattern's shapes is read back from its
      rendering, exactly when its glob has a `*` after the first character. */
  lemma ParseRenderedTail(d: Directive)
    requires TailShaped(d)
    ensures ParseAfterPrefix(d.prefix, RenderTail(d)) ==
      if HasInnerStar(d.globPattern) then Some(d) else None
  {
    TailPieces(d);
    ParseAfterPrefixOfPieces(d.prefix, RenderTail(d), d.keyword, d.spacing, RenderQuoted(d));
    ParseRenderedQuoted(d);
  }

  /** A keyword that was read stands at the front of the text. */
  lemma KeywordAtSound(t: string)
    requires KeywordAt(t).Some?
    ensures StartsWith(t, KeywordText(KeywordAt(t).value))
  {
  }

  // The pieces of a text built from `@`, a keyword, a spacing and the rest.
  lemma KeywordTextPieces(kw: Keyword, spacing: string, rest: string)
    ensures var k := KeywordText(kw); var t := "@" + (k + (spacing + rest));
      && |t| > 0 && t[0] == '@' && 1 + |k| <= |t|
      && t[1..] == k + (spacing + rest)
      && t[1 + |k|..] == spacing + rest
      && (spacing + rest)[..|spacing|] == spacing
      && (spacing + rest)[|spacing|..] == rest
  {
    var k := KeywordText(kw);
    var t := "@" + (k + (spacing + rest));
    assert t[1..] == k + (spacing + rest);
    assert t[1 + |k|..] == spacing + rest;
  }

  /** After `@` and a keyword, a run of white space is taken as `\s+` in full,
      and the rest is handed to the wrapper and string part of the pattern. */
  lemma ParseAfterKeyword(prefix: string, kw: Keyword, spacing: string, rest: string)
    requires |spacing| > 0 && forall k :: 0 <= k < |spacing| ==> IsJsSpace(spacing[k])
    requires |rest| > 0 ==> !IsJsSpace(rest[0])
    ensures ParseAfterPrefix(prefix, "@" + (KeywordText(kw) + (spacing + rest))) == ParseQuoted(prefix, kw, spacing, rest)
  {
    KeywordTextPieces(kw, spacing, rest);
    KeywordAtText(kw, spacing + rest);
    RunOfConcat(spacing, rest, IsJsSpace);
    ParseAfterPrefixOfPieces(prefix, "@" + (KeywordText(kw) + (spacing + rest)), kw, spacing, rest);
  }

  /** A quoted string without the wrapper, followed by text that cannot be
      taken for `)` or `;`: the record is read when the glob has its `*` and
      the text is a valid group 5, and nothing is read otherwise. */
  lemma ParseQuotedPlain(prefix: string, kw: Keyword, spacing: string, q: char, glob: string, after: string)
    requires IsQuote(q) && forall k :: 0 <= k < |glob| ==> !IsQuote(glob[k])
    requires |after| > 0 ==> after[0] != ')' && after[0] != ';'
    ensures ParseQuoted(prefix, kw, spacing, StringText(q, glob, q) + after) ==
      if HasInnerStar(glob) && IsTrailer(after) then Some(Directive(prefix, kw, spacing, false, q, glob, q, false, false, after))
      else None
  {
    var s := StringText(q, glob, q) + after;
    assert s[0] == q;
    assert !StartsWith(s, MetaLoadCss) by {
      assert |MetaLoadCss| <= |s| ==> s[..|MetaLoadCss|][0] == s[0];
    }
    ParseStringText(q, glob, q, after);
  }

  // The step `ParseAfterPrefix` takes before it hands over to `ParseQuoted`.
  lemma ParseAfterPrefixStep(prefix: string, t: string)
    requires ParseAfterPrefix(prefix, t).Some?
    ensures |t| > 0 && t[0] == '@' && KeywordAt(t[1..]).Some?
    ensures var kw := KeywordAt(t[1..]).value;
      var s1 := t[1 + |KeywordText(kw)|..];
      var sp := Run(s1, IsJsSpace);
      && sp > 0
      && ParseAfterPrefix(prefix, t) == ParseQuoted(prefix, kw, s1[..sp], s1[sp..])
  {
  }

  // A text from `@` on, cut after the keyword and after the spacing, is the
  // concatenation of its pieces.
  lemma TailOfCuts(t: string, k: string, spacing: string, rest: string, sp: nat)
    requires |t| > 0 && t[0] == '@' && StartsWith(t[1..], k)
    requires sp <= |t[1 + |k|..]|
    requires spacing == t[1 + |k|..][..sp] && rest == t[1 + |k|..][sp..]
    ensures "@" + (k + (spacing + rest)) == t
  {
    var s1 := t[1 + |k|..];
    assert s1[..sp] + s1[sp..] == s1;
    assert t[1..][..|k|] == k;
    assert t[1..] == k + s1;
    assert t == "@" + t[1..];
  }

  // The text from `@` on is rebuilt from the keyword and what follows it.
  lemma RenderTailOfPieces(t: string, d: Directive, sp: nat)
    requires |t| > 0 && t[0] == '@' && StartsWith(t[1..], KeywordText(d.keyword))
    requires sp <= |t[1 + |KeywordText(d.keyword)|..]|
    requires d.spacing == t[1 + |KeywordText(d.keyword)|..][..sp]
    requires RenderQuoted(d) == t[1 + |KeywordText(d.keyword)|..][sp..]
    ensures RenderTail(d) == t
  {
    TailOfCuts(t, KeywordText(d.keyword), d.spacing, RenderQuoted(d), sp);
  }

  /** Whatever the parser returns renders back to the text it read. */
  lemma ParseAfterPrefixSound(prefix: string, t: string)
    requires ParseAfterPrefix(prefix, t).Some?
    ensures var d := ParseAfterPrefix(prefix, t).value;
      d.prefix == prefix && TailShaped(d) && HasInnerStar(d.globPattern) && RenderTail(d) == t
  {
    ParseAfterPrefixStep(prefix, t);
    var kw := KeywordAt(t[1..]).value;
    KeywordAtSound(t[1..]);
    var s1 := t[1 + |KeywordText(kw)|..];
    var sp := Run(s1, IsJsSpace);
    RunMembers(s1, IsJsSpace);
    ParseQuotedSound(prefix, kw, s1[..sp], s1[sp..]);
    RenderTailOfPieces(t, ParseQuoted(prefix, kw, s1[..sp], s1[sp..]).value, sp);
  }

  // ---------------------------------------------------------------------------
  // Whole lines.

  /** Blanks followed by nothing or by a comment form a group 1. */
  lemma {:induction false} BlanksThenComment(ws: string, c: string)
    requires forall k :: 0 <= k < |ws| ==> IsBlankChar(ws[k])
    requires c == [] || IsComment(c)
    ensures IsCommentPrefix(ws + c)
    decreases |ws|
  {
    if |ws| > 0 {
      BlanksThenComment(ws[1..], c);
      assert (ws + c)[1..] == ws[1..] + c;
    } else {
      assert ws + c == c;
    }
  }

  /** In a line made of a group 1 and a directive, the blank run at the front
      stops where group 1's comment, or the `@`, begins. */
  lemma {:induction false} BlankRunOfCommentPrefix(p: string, rest: string)
    requires IsCommentPrefix(p)
    requires |rest| > 0 && rest[0] == '@'
    ensures Run(p + rest, IsBlankChar) <= |p|
    ensures var n := Run(p + rest, IsBlankChar); n == |p| || IsComment(p[n..])
    ensures forall k :: 0 <= k < Run(p + rest, IsBlankChar) ==> IsBlankChar(p[k])
    decreases |p|
  {
    if p == [] {
      assert p + rest == rest;
    } else if IsComment(p) {
      assert (p + rest)[0] == '/';
      assert p[0..] == p;
    } else {
      BlankRunOfCommentPrefix(p[1..], rest);
      assert (p + rest)[1..] == p[1..] + rest;
      var n := Run(p + rest, IsBlankChar);
      assert n == 1 + Run(p[1..] + rest, IsBlankChar);
      assert p[n..] == p[1..][n - 1..];
      forall k | 0 <= k < n ensures IsBlankChar(p[k]) {
        if k > 0 { assert p[k] == p[1..][k - 1]; }
      }
    }
  }

  /** The comment search finds a position whenever one exists at or before `e`,
      and none is further right than the one it finds: the greedy choice. */
  lemma {:induction false} LongestCutGreedy(line: string, n: nat, e: nat, e0: nat, accepts: (string, string) -> bool)
    requires n + 4 <= e0 <= e <= |line|
    requires ClosesComment(line, e0)
    requires accepts(line[..e0], line[e0..])
    ensures LongestCut(line, n, e, accepts).Some?
    ensures LongestCut(line, n, e, accepts).value >= e0
    decreases e
  {
    if !(ClosesComment(line, e) && accepts(line[..e], line[e..])) {
      LongestCutGreedy(line, n, e - 1, e0, accepts);
    }
  }

  // A line that starts with blanks and a comment opener, and has a comment
  // close ending at `c`, has a group 1 up to `c`.
  lemma CommentCut(line: string, n: nat, c: nat)
    requires n + 4 <= c <= |line|
    requires forall k :: 0 <= k < n ==> IsBlankChar(line[k])
    requires OpensComment(line, n) && ClosesComment(line, c)
    ensures IsCommentPrefix(line[..c])
  {
    var p := line[..c];
    var cm := p[n..];
    assert cm[..2] == "/*" && cm[|cm| - 2..] == "*/";
    assert p == line[..n] + cm;
    BlanksThenComment(line[..n], cm);
  }

  // A line cut in two is the two pieces put back together.
  lemma CutLine(line: string, c: nat)
    requires c <= |line|
    ensures line[..c] + line[c..] == line
  {
  }

  /** Soundness of the classifier: a match on a line is a well-formed record
      that renders back to exactly that line. */
  lemma ClassifySound(line: string)
    requires NoLineTerminator(line)
    requires Classify(line).Some?
    ensures WellFormed(Classify(line).value)
    ensures Render(Classify(line).value) == line
  {
    GroupOneEndPrefix(line);
    CutSound(line, GroupOneEnd(line).value);
  }

  /** Wherever group 1 ends, what comes before is blanks and an optional comment. */
  lemma GroupOneEndPrefix(line: string)
    requires GroupOneEnd(line).Some?
    ensures IsCommentPrefix(line[..GroupOneEnd(line).value])
  {
    var n := Run(line, IsBlankChar);
    if OpensComment(line, n) {
      CommentAfterBlankRun(line, GroupOneEnd(line).value);
    } else {
      RunMembers(line, IsBlankChar);
      BlankPrefix(line, n);
    }
  }

  // A comment opened right after the blank run and closed at `c` ends a group 1.
  lemma CommentAfterBlankRun(line: string, c: nat)
    requires var n := Run(line, IsBlankChar); n + 4 <= c && OpensComment(line, n) && ClosesComment(line, c)
    ensures IsCommentPrefix(line[..c])
  {
    RunMembers(line, IsBlankChar);
    CommentCut(line, Run(line, IsBlankChar), c);
  }

  // A run of blanks at the front of a line is a group 1 without a comment.
  lemma BlankPrefix(line: string, n: nat)
    requires n <= |line|
    requires forall k :: 0 <= k < n ==> IsBlankChar(line[k])
    ensures IsCommentPrefix(line[..n])
  {
    BlanksThenComment(line[..n], "");
    assert line[..n] + "" == line[..n];
  }

  // A line cut after a group 1, where the rest parses, is rebuilt from the
  // record the parser returns.
  lemma CutSound(line: string, c: nat)
    requires c <= |line| && NoLineTerminator(line)
    requires IsCommentPrefix(line[..c])
    requires ParseAfterPrefix(line[..c], line[c..]).Some?
    ensures WellFormed(ParseAfterPrefix(line[..c], line[c..]).value)
    ensures Render(ParseAfterPrefix(line[..c], line[c..]).value) == line
  {
    ParseAfterPrefixSound(line[..c], line[c..]);
    CutLine(line, c);
  }

  // The pieces of a rendered line: the prefix, then the `@`.
  lemma RenderPieces(d: Directive)
    ensures |Render(d)| > |d.prefix|
    ensures Render(d)[..|d.prefix|] == d.prefix
    ensures Render(d)[|d.prefix|..] == RenderTail(d)
    ensures Render(d)[|d.prefix|] == '@'
  {
  }

  // Where group 1 has a comment, the line opens it right after the blank run
  // and closes it where group 1 ends.
  lemma CommentMarkers(d: Directive, n: nat)
    requires n < |d.prefix| && IsComment(d.prefix[n..])
    ensures n + 4 <= |d.prefix|
    ensures OpensComment(Render(d), n) && ClosesComment(Render(d), |d.prefix|)
  {
    var c := d.prefix[n..];
    assert c[..2][0] == c[0] && c[..2][1] == c[1];
    assert c[|c| - 2..][0] == c[|c| - 2] && c[|c| - 2..][1] == c[|c| - 1];
    assert Render(d)[..|d.prefix|] == d.prefix;
  }

  // A line with a comment opener after its blank run, and a comment close at
  // `e0` after which the rest matches, is matched with a group 1 reaching at
  // least to `e0`.
  lemma ClassifyAtCut(line: string, e0: nat)
    requires var n := Run(line, IsBlankChar); n + 4 <= e0 && OpensComment(line, n) && ClosesComment(line, e0)
    requires Parses(line[..e0], line[e0..])
    ensures Classify(line).Some? && |Classify(line).value.prefix| >= e0
  {
    GroupOneEndAtCut(line, e0);
    var c := GroupOneEnd(line).value;
    assert Classify(line) == ParseAfterPrefix(line[..c], line[c..]);
  }

  // The same, for where group 1 ends.
  lemma GroupOneEndAtCut(line: string, e0: nat)
    requires var n := Run(line, IsBlankChar); n + 4 <= e0 && OpensComment(line, n) && ClosesComment(line, e0)
    requires Parses(line[..e0], line[e0..])
    ensures GroupOneEnd(line).Some? && GroupOneEnd(line).value >= e0
    ensures Parses(line[..GroupOneEnd(line).value], line[GroupOneEnd(line).value..])
  {
    LongestCutGreedy(line, Run(line, IsBlankChar), |line|, e0, Parses);
  }

  /** Completeness of the classifier: every line of the directive shape is
      matched, and the match's prefix is at least as long as the given one. */
  lemma ClassifyComplete(d: Directive)
    requires WellFormed(d)
    ensures Classify(Render(d)).Some?
    ensures |Classify(Render(d)).value.prefix| >= |d.prefix|
  {
    var line := Render(d);
    BlankRunOfCommentPrefix(d.prefix, RenderTail(d));
    var n := Run(line, IsBlankChar);
    RenderPieces(d);
    ParseRenderedTail(d);
    if n == |d.prefix| {
      assert line[..n] == d.prefix;
    } else {
      CommentMarkers(d, n);
      ClassifyAtCut(line, |d.prefix|);
    }
  }

  /** A line whose prefix is only indentation, and whose pieces have the
      pattern's shapes, is matched exactly as given when its glob has a `*`
      after the first character, and not at all otherwise. */
  lemma ClassifyUncommented(d: Directive)
    requires TailShaped(d)
    requires forall k :: 0 <= k < |d.prefix| ==> IsBlankChar(d.prefix[k])
    ensures Classify(Render(d)) == if HasInnerStar(d.globPattern) then Some(d) else None
  {
    var line := Render(d);
    var tail := RenderTail(d);
    assert tail[0] == '@';
    assert line == d.prefix + tail;
    RunOfConcat(d.prefix, tail, IsBlankChar);
    ParseRenderedTail(d);
    var n := |d.prefix|;
    assert line[n] == '@';
    assert line[..n] == d.prefix;
    assert line[n..] == tail;
  }

  /** A line that starts with `@` has an empty group 1. */
  lemma ClassifyAtSign(line: string)
    requires |line| > 0 && line[0] == '@'
    ensures Classify(line) == ParseAfterPrefix("", line)
  {
    assert Run(line, IsBlankChar) == 0;
    assert line[..0] == "" && line[0..] == line;
  }

  /** Only a line with an `@` in it can be matched. */
  lemma ClassifyNeedsAt(line: string)
    requires Classify(line).Some?
    ensures '@' in line
  {
    var c := GroupOneEnd(line).value;
    ParseAfterPrefixStep(line[..c], line[c..]);
    assert line[c] == line[c..][0];
  }

  /** Two well-formed records with the same prefix that render to the same line
      are the same record: group 1 is the only choice the matcher makes. */
  lemma RenderInjective(d1: Directive, d2: Directive)
    requires TailShaped(d1) && TailShaped(d2) && HasInnerStar(d1.globPattern) && HasInnerStar(d2.globPattern)
    requires d1.prefix == d2.prefix
    requires Render(d1) == Render(d2)
    ensures d1 == d2
  {
    ParseRenderedTail(d1);
    ParseRenderedTail(d2);
    assert RenderTail(d1) == Render(d1)[|d1.prefix|..];
    assert RenderTail(d2) == Render(d2)[|d2.prefix|..];
  }
}
