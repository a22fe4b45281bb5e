/** The optional value used wherever the loader may find nothing. */
module Optional {
  datatype Option<+T> = None | Some(value: T)
}

/**
 * Models of the JavaScript string and array built-ins the loader relies on:
 * the character classes of its regular expressions, `trim`, `split`, `join`,
 * `indexOf`, `replace` with a one-character global pattern, and the way the
 * multiline flag cuts a text into lines.
 */
module JsStrings {

  /** The characters JavaScript calls line terminators: `.` never matches them
      and, with the multiline flag, `^` and `$` anchor next to each of them. */
  predicate IsLineTerminator(c: char) {
    c == '\n' || c == '\r' || c == '\U{2028}' || c == '\U{2029}'
  }

  /** The class `\s`, which is also what `String.prototype.trim` removes. */
  predicate IsJsSpace(c: char) {
    || c == '\t' || c == '\U{B}' || c == '\U{C}' || c == ' ' || c == '\U{A0}' || c == '\U{FEFF}'
    || c == '\U{1680}' || ('\U{2000}' <= c <= '\U{200A}') || c == '\U{202F}' || c == '\U{205F}'
    || c == '\U{3000}' || IsLineTerminator(c)
  }

  /** The class `[ \t]`. */
  predicate IsBlankChar(c: char) {
    c == ' ' || c == '\t'
  }

  predicate NoLineTerminator(s: string) {
    forall k :: 0 <= k < |s| ==> !IsLineTerminator(s[k])
  }

  /** `s.trim() === ''` */
  predicate IsBlank(s: string) {
    forall k :: 0 <= k < |s| ==> IsJsSpace(s[k])
  }

  predicate StartsWith(s: string, p: string) {
    |p| <= |s| && s[..|p|] == p
  }

  predicate EndsWith(s: string, p: string) {
    |p| <= |s| && s[|s| - |p|..] == p
  }

  // Concatenation regrouped; stated once so that larger proofs need not.
  lemma ConcatAssoc<T>(a: seq<T>, b: seq<T>, c: seq<T>)
    ensures a + (b + c) == a + b + c
  {
  }

  /** Length of the longest prefix of `s` whose characters all satisfy `p`:
      what a greedy `[...]*` consumes. */
  function Run(s: string, p: char -> bool): (n: nat)
    ensures n <= |s|
    ensures n < |s| ==> !p(s[n])
    decreases |s|
  {
    if |s| > 0 && p(s[0]) then 1 + Run(s[1..], p) else 0
  }

  /** Every character of a run satisfies `p`. */
  lemma {:induction false} RunMembers(s: string, p: char -> bool)
    ensures forall k :: 0 <= k < Run(s, p) ==> p(s[k])
    decreases |s|
  {
    if |s| > 0 && p(s[0]) {
      RunMembers(s[1..], p);
      assert forall k :: 1 <= k < Run(s, p) ==> s[k] == s[1..][k - 1];
    }
  }

  /** A run ends exactly where its first non-member character stands. */
  lemma {:induction false} RunOfConcat(a: string, b: string, p: char -> bool)
    requires forall k :: 0 <= k < |a| ==> p(a[k])
    requires |b| > 0 ==> !p(b[0])
    ensures Run(a + b, p) == |a|
    decreases |a|
  {
    if |a| == 0 {
      assert a + b == b;
    } else {
      assert (a + b)[0] == a[0];
      assert (a + b)[1..] == a[1..] + b;
      RunOfConcat(a[1..], b, p);
    }
  }

  /** ASCII lower-casing: JavaScript's case-insensitive matching without the
      `u` flag folds only ASCII letters onto the ASCII letters of a pattern. */
  function LowerAscii(c: char): char {
    if 'A' <= c <= 'Z' then (c as int + 32) as char else c
  }

  /** `s` equals the lower-case ASCII pattern `p` up to ASCII case. */
  predicate MatchesIgnoreCase(s: string, p: string) {
    |s| == |p| && forall k :: 0 <= k < |s| ==> LowerAscii(s[k]) == p[k]
  }

  /** `/p/i.test(s)` for a lower-case literal pattern `p`. */
  predicate ContainsIgnoreCase(s: string, p: string)
    decreases |s|
  {
    |p| <= |s| && (MatchesIgnoreCase(s[..|p|], p) || (|s| > 0 && ContainsIgnoreCase(s[1..], p)))
  }

  /** `/p$/i.test(s)` for a lower-case literal pattern `p`. */
  predicate EndsWithIgnoreCase(s: string, p: string) {
    |p| <= |s| && MatchesIgnoreCase(s[|s| - |p|..], p)
  }

  /** The pattern `p` occurs in `s` at position `i`, up to ASCII case. */
  predicate OccursAt(s: string, p: string, i: nat) {
    i + |p| <= |s| && MatchesIgnoreCase(s[i..i + |p|], p)
  }

  /** The search of `ContainsIgnoreCase` succeeds exactly when the pattern occurs somewhere. */
  lemma {:induction false} ContainsIgnoreCaseAt(s: string, p: string)
    ensures ContainsIgnoreCase(s, p) <==> exists i: nat :: OccursAt(s, p, i)
    decreases |s|
  {
    if |p| <= |s| && MatchesIgnoreCase(s[..|p|], p) {
      assert s[0..0 + |p|] == s[..|p|];
      assert OccursAt(s, p, 0);
    } else if |p| <= |s| && |s| > 0 {
      ContainsIgnoreCaseAt(s[1..], p);
      if exists i: nat :: OccursAt(s, p, i) {
        var i: nat :| OccursAt(s, p, i);
        assert i != 0 by { assert s[0..0 + |p|] == s[..|p|]; }
        assert s[1..][i - 1..i - 1 + |p|] == s[i..i + |p|];
        assert OccursAt(s[1..], p, i - 1);
      }
      if ContainsIgnoreCase(s[1..], p) {
        var j: nat :| OccursAt(s[1..], p, j);
        assert s[1..][j..j + |p|] == s[j + 1..j + 1 + |p|];
        assert OccursAt(s, p, j + 1);
      }
    }
  }

  /** Index of the first `c` in `s`, or `|s|` when there is none. */
  function FirstIndex(s: string, c: char): (i: nat)
    ensures i <= |s|
    ensures forall k :: 0 <= k < i ==> s[k] != c
    ensures i < |s| ==> s[i] == c
    decreases |s|
  {
    if |s| == 0 || s[0] == c then 0 else 1 + FirstIndex(s[1..], c)
  }

  /** `parts.join(sep)` */
  function Join(parts: seq<string>, sep: string): string
    decreases |parts|
  {
    if |parts| == 0 then ""
    else if |parts| == 1 then parts[0]
    else parts[0] + sep + Join(parts[1..], sep)
  }

  // Joining a list with one more element in front.
  lemma JoinCons(x: string, xs: seq<string>, sep: string)
    requires |xs| >= 1
    ensures Join([x] + xs, sep) == x + sep + Join(xs, sep)
  {
    assert ([x] + xs)[1..] == xs;
  }

  /** Joining two non-empty lists one after the other puts one separator
      between their joins. */
  lemma {:induction false} JoinAppend(xs: seq<string>, ys: seq<string>, sep: string)
    requires |xs| >= 1 && |ys| >= 1
    ensures Join(xs + ys, sep) == Join(xs, sep) + sep + Join(ys, sep)
    decreases |xs|
  {
    if |xs| == 1 {
      JoinCons(xs[0], ys, sep);
      assert xs + ys == [xs[0]] + ys;
    } else {
      JoinAppend(xs[1..], ys, sep);
      assert xs + ys == [xs[0]] + (xs[1..] + ys);
      JoinCons(xs[0], xs[1..] + ys, sep);
      JoinCons(xs[0], xs[1..], sep);
      assert xs == [xs[0]] + xs[1..];
    }
  }

  // A join is empty exactly when it joins nothing, or one empty piece.
  lemma JoinEmpty(xs: seq<string>, sep: string)
    requires |sep| > 0
    ensures Join(xs, sep) == "" <==> |xs| == 0 || (|xs| == 1 && xs[0] == "")
  {
  }

  /** `s.split(c)` for a one-character separator: the pieces between the
      occurrences of `c`, at least one, which `join` puts back together. */
  function Split(s: string, c: char): (parts: seq<string>)
    ensures |parts| >= 1
    ensures forall k :: 0 <= k < |parts| ==> c !in parts[k]
    ensures Join(parts, [c]) == s
    decreases |s|
  {
    var i := FirstIndex(s, c);
    if i == |s| then
      [s]
    else
      var rest := Split(s[i + 1..], c);
      assert ([s[..i]] + rest)[1..] == rest;
      assert s == s[..i] + [c] + s[i + 1..];
      [s[..i]] + rest
  }

  /** Splitting at a separator-free head takes that head off as the first piece. */
  lemma SplitCons(head: string, c: char, tail: string)
    requires c !in head
    ensures Split(head + [c] + tail, c) == [head] + Split(tail, c)
  {
    var s := head + [c] + tail;
    var i := FirstIndex(s, c);
    forall k | 0 <= k < |head| ensures s[k] == head[k] && s[k] != c {}
    assert s[|head|] == c;
    assert i == |head|;
    assert s[..i] == head;
    assert s[i + 1..] == tail;
  }

  /** `xs.indexOf(x)`: the first position of `x`, or -1 when it is absent. */
  function IndexOf(xs: seq<string>, x: string): (i: int)
    ensures -1 <= i < |xs|
    ensures i == -1 <==> x !in xs
    ensures 0 <= i ==> xs[i] == x && forall k :: 0 <= k < i ==> xs[k] != x
    decreases |xs|
  {
    if |xs| == 0 then -1
    else if xs[0] == x then 0
    else
      var j := IndexOf(xs[1..], x);
      if j == -1 then -1 else j + 1
  }

  /** `s.replace(/c/g, '')` */
  function RemoveAll(s: string, c: char): (r: string)
    ensures c !in r
    ensures multiset(r) == multiset(s)[c := 0]
    decreases |s|
  {
    if |s| == 0 then ""
    else
      assert s == [s[0]] + s[1..];
      if s[0] == c then RemoveAll(s[1..], c) else [s[0]] + RemoveAll(s[1..], c)
  }

  /** `replace(/c/g, '')` works on the parts of a text independently, so the
      characters it keeps stay in their order. */
  lemma {:induction false} RemoveAllConcat(a: string, b: string, c: char)
    ensures RemoveAll(a + b, c) == RemoveAll(a, c) + RemoveAll(b, c)
    decreases |a|
  {
    if |a| == 0 {
      assert a + b == b;
    } else {
      assert (a + b)[0] == a[0];
      assert (a + b)[1..] == a[1..] + b;
      RemoveAllConcat(a[1..], b, c);
      if a[0] != c {
        ConcatAssoc([a[0]], RemoveAll(a[1..], c), RemoveAll(b, c));
      }
    }
  }

  /** A single character is dropped when it is `c` and kept otherwise. */
  lemma RemoveAllChar(x: char, c: char)
    ensures RemoveAll([x], c) == if x == c then "" else [x]
  {
    assert [x][1..] == "";
  }

  /** Removing a character that does not occur changes nothing. */
  lemma {:induction false} RemoveAllAbsent(s: string, c: char)
    requires c !in s
    ensures RemoveAll(s, c) == s
    decreases |s|
  {
    if |s| > 0 {
      RemoveAllAbsent(s[1..], c);
      assert s == [s[0]] + s[1..];
    }
  }

  /** `s.replace(/a/g, b)` for single characters `a` and `b`. */
  function ReplaceAll(s: string, a: char, b: char): (r: string)
    ensures |r| == |s|
    ensures forall k :: 0 <= k < |s| ==> r[k] == (if s[k] == a then b else s[k])
    decreases |s|
  {
    if |s| == 0 then "" else [if s[0] == a then b else s[0]] + ReplaceAll(s[1..], a, b)
  }

  /** Replacing a character that does not occur changes nothing. */
  lemma ReplaceAllAbsent(s: string, a: char, b: char)
    requires a !in s
    ensures ReplaceAll(s, a, b) == s
  {
    assert forall k :: 0 <= k < |s| ==> s[k] != a;
  }

  /** Where the first line of `s` ends: the position of its first line
      terminator, or its length. This is where `$` matches under the `m` flag. */
  function LineEnd(s: string): (n: nat)
    ensures n <= |s|
    ensures n < |s| ==> IsLineTerminator(s[n])
    decreases |s|
  {
    if |s| == 0 || IsLineTerminator(s[0]) then 0 else 1 + LineEnd(s[1..])
  }

  /** Up to `LineEnd` there is no line terminator. */
  lemma {:induction false} LineEndFirst(s: string)
    ensures NoLineTerminator(s[..LineEnd(s)])
    decreases |s|
  {
    if |s| > 0 && !IsLineTerminator(s[0]) {
      LineEndFirst(s[1..]);
      assert s[..LineEnd(s)] == [s[0]] + s[1..][..LineEnd(s[1..])];
    }
  }

  /** A terminator-free text followed by a terminator, or by nothing, ends
      its first line where it ends. */
  lemma {:induction false} LineEndOfConcat(a: string, b: string)
    requires NoLineTerminator(a)
    requires |b| > 0 ==> IsLineTerminator(b[0])
    ensures LineEnd(a + b) == |a|
    decreases |a|
  {
    if |a| == 0 {
      assert a + b == b;
    } else {
      assert (a + b)[1..] == a[1..] + b;
      LineEndOfConcat(a[1..], b);
    }
  }

  /** The lines of `s`: the pieces between its line terminators, at least one. */
  function Lines(s: string): (ls: seq<string>)
    ensures |ls| >= 1
    ensures forall k :: 0 <= k < |ls| ==> NoLineTerminator(ls[k])
    decreases |s|
  {
    var i := LineEnd(s);
    LineEndFirst(s);
    if i == |s| then [s] else [s[..i]] + Lines(s[i + 1..])
  }

  /** Joining terminator-free lines with `\n` and cutting the text into lines again
      gives back exactly those lines. */
  lemma {:induction false} LinesOfJoin(xs: seq<string>)
    requires |xs| >= 1
    requires forall k :: 0 <= k < |xs| ==> NoLineTerminator(xs[k])
    ensures Lines(Join(xs, "\n")) == xs
    decreases |xs|
  {
    if |xs| == 1 {
      LineEndOfConcat(xs[0], "");
      assert xs[0] + "" == xs[0];
    } else {
      var rest := Join(xs[1..], "\n");
      var s := xs[0] + ("\n" + rest);
      assert Join(xs, "\n") == s;
      LineEndOfConcat(xs[0], "\n" + rest);
      var i := LineEnd(s);
      assert i == |xs[0]| && i < |s|;
      assert s[..i] == xs[0];
      assert s[i + 1..] == rest;
      assert Lines(s) == [xs[0]] + Lines(rest);
      LinesOfJoin(xs[1..]);
      assert xs == [xs[0]] + xs[1..];
    }
  }
}
