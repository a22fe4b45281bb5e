/**
 * The loader as a whole: every line of the style sheet that the directive
 * pattern matches is replaced by the text the match callback returns, every
 * other line and every line terminator is kept, and the warnings of the
 * callback calls are reported in the order of the matched lines.
 */
module Loader {
  import opened Optional
  import opened JsStrings
  import opened Scanner
  import opened Resolution

  /** What one line becomes: its replacement when it is a directive, itself otherwise. */
  function RewriteLine(line: string, opts: Options, host: Host): string {
    match Classify(line)
    case None => line
    case Some(d) => Expansion(line, d, opts, host)
  }

  /** The warnings one line causes. */
  function LineWarnings(line: string, opts: Options, host: Host): seq<string> {
    match Classify(line)
    case None => []
    case Some(d) => DirectoryWarnings(d.globPattern, host)
  }

  /** `source.replace(pattern, callback)`: each line rewritten, each line
      terminator kept where it was. */
  function RewriteText(s: string, opts: Options, host: Host): string
    decreases |s|
  {
    var n := LineEnd(s);
    if n == |s| then RewriteLine(s, opts, host)
    else RewriteLine(s[..n], opts, host) + [s[n]] + RewriteText(s[n + 1..], opts, host)
  }

  /** The warnings of all callback calls, line by line. */
  function RewriteWarnings(s: string, opts: Options, host: Host): seq<string>
    decreases |s|
  {
    var n := LineEnd(s);
    if n == |s| then LineWarnings(s, opts, host)
    else LineWarnings(s[..n], opts, host) + RewriteWarnings(s[n + 1..], opts, host)
  }

  // One step of the rewrite, for a text without a line terminator.
  lemma RewriteLast(s: string, opts: Options, host: Host)
    requires LineEnd(s) == |s|
    ensures RewriteText(s, opts, host) == RewriteLine(s, opts, host)
    ensures RewriteWarnings(s, opts, host) == LineWarnings(s, opts, host)
  {
    RewriteLastText(s, opts, host);
    RewriteLastWarnings(s, opts, host);
  }

  // The text of `RewriteLast`.
  lemma RewriteLastText(s: string, opts: Options, host: Host)
    requires LineEnd(s) == |s|
    ensures RewriteText(s, opts, host) == RewriteLine(s, opts, host)
  {
  }

  // The warnings of `RewriteLast`.
  lemma RewriteLastWarnings(s: string, opts: Options, host: Host)
    requires LineEnd(s) == |s|
    ensures RewriteWarnings(s, opts, host) == LineWarnings(s, opts, host)
  {
  }

  // One step of the rewrite: the first line, which ends at `n`, its
  // terminator, and the rest.
  lemma RewriteNext(s: string, n: nat, opts: Options, host: Host)
    requires n == LineEnd(s) && n < |s|
    ensures RewriteText(s, opts, host) == RewriteLine(s[..n], opts, host) + [s[n]] + RewriteText(s[n + 1..], opts, host)
    ensures RewriteWarnings(s, opts, host) == LineWarnings(s[..n], opts, host) + RewriteWarnings(s[n + 1..], opts, host)
  {
    RewriteNextText(s, n, opts, host);
    RewriteNextWarnings(s, n, opts, host);
  }

  // The text of `RewriteNext`.
  lemma RewriteNextText(s: string, n: nat, opts: Options, host: Host)
    requires n == LineEnd(s) && n < |s|
    ensures RewriteText(s, opts, host) == RewriteLine(s[..n], opts, host) + [s[n]] + RewriteText(s[n + 1..], opts, host)
  {
  }

  // The warnings of `RewriteNext`.
  lemma RewriteNextWarnings(s: string, n: nat, opts: Options, host: Host)
    requires n == LineEnd(s) && n < |s|
    ensures RewriteWarnings(s, opts, host) == LineWarnings(s[..n], opts, host) + RewriteWarnings(s[n + 1..], opts, host)
  {
  }

  // What is written so far, one more piece, and what the rest will give.
  lemma AppendPiece<T>(done: seq<T>, piece: seq<T>, tail: seq<T>, rest: seq<T>, whole: seq<T>)
    requires done + rest == whole
    requires rest == piece + tail
    ensures done + piece + tail == whole
  {
    ConcatAssoc(done, piece, tail);
  }

  /** A text without line terminators is one line, rewritten as such. */
  lemma RewriteOneLine(line: string, opts: Options, host: Host)
    requires NoLineTerminator(line)
    ensures RewriteText(line, opts, host) == RewriteLine(line, opts, host)
    ensures RewriteWarnings(line, opts, host) == LineWarnings(line, opts, host)
  {
    LineEndOfConcat(line, "");
    assert line + "" == line;
    RewriteLast(line, opts, host);
  }

  /** Lines are rewritten independently: the first line of a text, its
      terminator, and the rest of the text. */
  lemma RewriteFirstLine(line: string, terminator: char, rest: string, opts: Options, host: Host)
    requires NoLineTerminator(line) && IsLineTerminator(terminator)
    ensures RewriteText(line + [terminator] + rest, opts, host) ==
      RewriteLine(line, opts, host) + [terminator] + RewriteText(rest, opts, host)
    ensures RewriteWarnings(line + [terminator] + rest, opts, host) ==
      LineWarnings(line, opts, host) + RewriteWarnings(rest, opts, host)
  {
    var s := line + [terminator] + rest;
    ConcatAssoc(line, [terminator], rest);
    LineEndOfConcat(line, [terminator] + rest);
    assert s[..|line|] == line;
    assert s[|line|] == terminator;
    assert s[|line| + 1..] == rest;
    RewriteNext(s, |line|, opts, host);
  }

  /** A matched line becomes the callback's replacement for its record, and
      causes the warnings of its pattern. */
  lemma MatchedLine(line: string, d: Directive, opts: Options, host: Host)
    requires Classify(line) == Some(d)
    ensures RewriteLine(line, opts, host) == Expansion(line, d, opts, host)
    ensures LineWarnings(line, opts, host) == DirectoryWarnings(d.globPattern, host)
  {
  }

  /** Each of a list of lines rewritten on its own. */
  function RewriteLines(xs: seq<string>, opts: Options, host: Host): (r: seq<string>)
    ensures |r| == |xs|
    decreases |xs|
  {
    if |xs| == 0 then [] else [RewriteLine(xs[0], opts, host)] + RewriteLines(xs[1..], opts, host)
  }

  /** The warnings of a list of lines, one line after the other. */
  function LinesWarnings(xs: seq<string>, opts: Options, host: Host): seq<string>
    decreases |xs|
  {
    if |xs| == 0 then [] else LineWarnings(xs[0], opts, host) + LinesWarnings(xs[1..], opts, host)
  }

  /** A text made of lines joined with line feeds is rewritten line by line:
      the result joins the rewritten lines with the same line feeds, and the
      warnings are those of the lines in order. */
  lemma {:induction false} RewriteJoin(xs: seq<string>, opts: Options, host: Host)
    requires |xs| >= 1
    requires forall k :: 0 <= k < |xs| ==> NoLineTerminator(xs[k])
    ensures RewriteText(Join(xs, "\n"), opts, host) == Join(RewriteLines(xs, opts, host), "\n")
    ensures RewriteWarnings(Join(xs, "\n"), opts, host) == LinesWarnings(xs, opts, host)
    decreases |xs|
  {
    var ys := RewriteLines(xs, opts, host);
    if |xs| == 1 {
      RewriteOneLine(xs[0], opts, host);
      assert LinesWarnings(xs[1..], opts, host) == [];
      assert LineWarnings(xs[0], opts, host) + [] == LineWarnings(xs[0], opts, host);
    } else {
      var rest := Join(xs[1..], "\n");
      assert Join(xs, "\n") == xs[0] + ['\n'] + rest;
      RewriteFirstLine(xs[0], '\n', rest, opts, host);
      RewriteJoin(xs[1..], opts, host);
      JoinCons(RewriteLine(xs[0], opts, host), RewriteLines(xs[1..], opts, host), "\n");
    }
  }

  /** No line of `s` is a directive. */
  predicate NoDirectives(s: string)
    decreases |s|
  {
    var n := LineEnd(s);
    Classify(s[..n]).None? && (n < |s| ==> NoDirectives(s[n + 1..]))
  }

  // A line the pattern does not match is kept.
  lemma PlainLineKept(line: string, opts: Options, host: Host)
    requires Classify(line).None?
    ensures RewriteLine(line, opts, host) == line
  {
  }

  // A line the pattern does not match causes no warning.
  lemma PlainLineQuiet(line: string, opts: Options, host: Host)
    requires Classify(line).None?
    ensures LineWarnings(line, opts, host) == []
  {
  }

  // A text cut around the character at `n` is the pieces put back together.
  lemma Reassemble(s: string, n: nat)
    requires n < |s|
    ensures s[..n] + [s[n]] + s[n + 1..] == s
  {
  }

  /** A source in which no line is a directive comes back unchanged, with no
      warning. */
  lemma RewriteWithoutDirectives(s: string, opts: Options, host: Host)
    requires NoDirectives(s)
    ensures RewriteText(s, opts, host) == s
    ensures RewriteWarnings(s, opts, host) == []
  {
    TextWithoutDirectives(s, opts, host);
    WarningsWithoutDirectives(s, opts, host);
  }

  // The text half of `RewriteWithoutDirectives`.
  lemma {:induction false} TextWithoutDirectives(s: string, opts: Options, host: Host)
    requires NoDirectives(s)
    ensures RewriteText(s, opts, host) == s
    decreases |s|
  {
    var n := LineEnd(s);
    PlainLineKept(s[..n], opts, host);
    if n < |s| {
      TextWithoutDirectives(s[n + 1..], opts, host);
      RewriteNextText(s, n, opts, host);
      Reassemble(s, n);
    } else {
      assert s[..n] == s;
      RewriteLastText(s, opts, host);
    }
  }

  // The warnings half of `RewriteWithoutDirectives`.
  lemma {:induction false} WarningsWithoutDirectives(s: string, opts: Options, host: Host)
    requires NoDirectives(s)
    ensures RewriteWarnings(s, opts, host) == []
    decreases |s|
  {
    var n := LineEnd(s);
    PlainLineQuiet(s[..n], opts, host);
    if n < |s| {
      WarningsWithoutDirectives(s[n + 1..], opts, host);
      RewriteNextWarnings(s, n, opts, host);
    } else {
      assert s[..n] == s;
      RewriteLastWarnings(s, opts, host);
    }
  }

  /** A source without `@` has no directive line. */
  lemma {:induction false} NoDirectivesWithoutAt(s: string)
    requires '@' !in s
    ensures NoDirectives(s)
    decreases |s|
  {
    var n := LineEnd(s);
    if Classify(s[..n]).Some? {
      ClassifyNeedsAt(s[..n]);
      assert false;
    }
    if n < |s| {
      assert forall c :: c in s[n + 1..] ==> c in s;
      NoDirectivesWithoutAt(s[n + 1..]);
    }
  }

  // ---------------------------------------------------------------------------
  // The loader, match by match.

  /** One line as the pattern sees it: a matched line goes to the callback,
      any other line stays as it is. */
  method ProcessLine(line: string, opts: Options, host: Host) returns (replaced: string, found: seq<string>)
    ensures replaced == RewriteLine(line, opts, host)
    ensures found == LineWarnings(line, opts, host)
  {
    replaced := line;
    found := [];
    match Classify(line) {
      case Some(d) =>
        replaced, found := ExpandDirective(line, d, opts, host);
      case None =>
    }
  }

  /** The next match of the pattern: the first line of `rest` goes through
      the callback, and what is left after its terminator is `next`. `last`
      says that the line had no terminator. */
  method NextLine(rest: string, opts: Options, host: Host) returns (piece: string, found: seq<string>, next: string, last: bool)
    ensures last ==> RewriteText(rest, opts, host) == piece && RewriteWarnings(rest, opts, host) == found
    ensures !last ==> |next| < |rest|
    ensures !last ==> RewriteText(rest, opts, host) == piece + RewriteText(next, opts, host)
    ensures !last ==> RewriteWarnings(rest, opts, host) == found + RewriteWarnings(next, opts, host)
  {
    var n := LineEnd(rest);
    if n == |rest| {
      piece, found := ProcessLine(rest, opts, host);
      RewriteLast(rest, opts, host);
      next, last := "", true;
    } else {
      var replaced;
      replaced, found := ProcessLine(rest[..n], opts, host);
      RewriteNext(rest, n, opts, host);
      piece, next, last := replaced + [rest[n]], rest[n + 1..], false;
    }
  }

  /** What the loader has written and reported so far, followed by what
      the rest of the source gives, is what the whole source gives. */
  ghost predicate Accounts(content: string, warnings: seq<string>, rest: string, opts: Options, host: Host,
                           whole: string, wholeWarnings: seq<string>)
  {
    content + RewriteText(rest, opts, host) == whole && warnings + RewriteWarnings(rest, opts, host) == wholeWarnings
  }

  /** One turn of the loader's scan: the next line goes through `NextLine`,
      and its output and warnings are appended. `whole` and `wholeWarnings`
      are what the entire source gives. */
  method Advance(content: string, warnings: seq<string>, rest: string, opts: Options, host: Host,
                 ghost whole: string, ghost wholeWarnings: seq<string>)
    returns (content': string, warnings': seq<string>, rest': string, last: bool)
    requires Accounts(content, warnings, rest, opts, host, whole, wholeWarnings)
    ensures last ==> content' == whole && warnings' == wholeWarnings
    ensures !last ==> |rest'| < |rest| && Accounts(content', warnings', rest', opts, host, whole, wholeWarnings)
  {
    var piece, found;
    piece, found, rest', last := NextLine(rest, opts, host);
    if last {
      content', warnings' := content + piece, warnings + found;
    } else {
      AppendPiece(content, piece, RewriteText(rest', opts, host), RewriteText(rest, opts, host), whole);
      AppendPiece(warnings, found, RewriteWarnings(rest', opts, host), RewriteWarnings(rest, opts, host), wholeWarnings);
      content', warnings' := content + piece, warnings + found;
    }
  }

  /** The loader entry point: scans the source line by line, hands every
      matched line to the callback, and returns the processed source together
      with the warnings, in order. The loader always reports success. */
  method SassGlobImports(source: string, opts: Options, host: Host) returns (content: string, warnings: seq<string>)
    ensures content == RewriteText(source, opts, host)
    ensures warnings == RewriteWarnings(source, opts, host)
  {
    ghost var whole, wholeWarnings := RewriteText(source, opts, host), RewriteWarnings(source, opts, host);
    content, warnings := "", [];
    var rest := source;
    while true
      invariant Accounts(content, warnings, rest, opts, host, whole, wholeWarnings)
      decreases |rest|
    {
      var last;
      content, warnings, rest, last := Advance(content, warnings, rest, opts, host, whole, wholeWarnings);
      if last {
        return;
      }
    }
  }
}
