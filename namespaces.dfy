/**
 * The `namespace` option of the loader, which decides what, if anything,
 * follows the path of a generated `@use` line: nothing, a fixed name, a name
 * derived from the path, or the answer of a function the user supplies.
 */
module Namespaces {
  import opened JsStrings

  /** The four shapes the option can take: absent or `false`, a string, `true`,
      and a function of the normalised path and its index in the glob results. */
  datatype Namespace =
    | NoNamespace
    | Literal(name: string)
    | Derived
    | Custom(nameOf: (string, int) -> string)

  /** `.replace(/[_.]scss$/, '')`: a trailing `_scss` or `.scss`, in lower case
      only, is cut off; anything else is left as it is. */
  function StripScssExtension(f: string): (r: string)
    ensures (|f| >= 5 && (f[|f| - 5] == '_' || f[|f| - 5] == '.') && f[|f| - 4..] == "scss") ==>
      |r| + 5 == |f| && f == r + f[|r|..]
    ensures !(|f| >= 5 && (f[|f| - 5] == '_' || f[|f| - 5] == '.') && f[|f| - 4..] == "scss") ==> r == f
  {
    if |f| >= 5 && (f[|f| - 5] == '_' || f[|f| - 5] == '.') && f[|f| - 4..] == "scss" then
      assert f == f[..|f| - 5] + f[|f| - 5..];
      f[..|f| - 5]
    else f
  }

  /** The last path segment as it enters the derived name: extension cut off,
      then every underscore removed. */
  function CleanFileName(last: string): (r: string)
    ensures r == RemoveAll(StripScssExtension(last), '_')
    ensures '_' !in r
    ensures |r| <= |last|
  {
    var stripped := StripScssExtension(last);
    var r := RemoveAll(stripped, '_');
    assert |multiset(r)| <= |multiset(stripped)|;
    r
  }

  /** `.filter(part => part !== '..')` */
  function WithoutParents(dirs: seq<string>): (r: seq<string>)
    ensures |r| <= |dirs|
    ensures forall x :: x in r <==> x in dirs && x != ".."
    ensures r == [] <==> forall k :: 0 <= k < |dirs| ==> dirs[k] == ".."
    decreases |dirs|
  {
    if |dirs| == 0 then []
    else if dirs[0] == ".." then WithoutParents(dirs[1..])
    else
      assert dirs == [dirs[0]] + dirs[1..];
      [dirs[0]] + WithoutParents(dirs[1..])
  }

  /** The name `namespace: true` gives a path: its directory segments other
      than `..`, followed by the cleaned file name, joined with `-`. */
  function DerivedName(path: string): string {
    NameOfParts(Split(path, '/'))
  }

  /** The derived name of a path already split at its `/`s. */
  function NameOfParts(parts: seq<string>): string
    requires |parts| >= 1
  {
    Join(WithoutParents(parts[..|parts| - 1]) + [CleanFileName(parts[|parts| - 1])], "-")
  }

  /** What follows the path of a `@use` line. `index` is the position of the
      path in the glob results, -1 when it is not among them. The suffix is
      ` as ` and a name, or nothing; it is nothing exactly when no namespace is
      configured or the derived or custom name is empty, so that a string, even
      the empty one, always gives ` as ` and that string. */
  function NamespaceSuffix(ns: Namespace, path: string, index: int): (r: string)
    ensures r == "" || (|r| >= 4 && r[..4] == " as ")
    ensures r == "" <==>
      || ns.NoNamespace?
      || (ns.Derived? && DerivedName(path) == "")
      || (ns.Custom? && ns.nameOf(path, index) == "")
    ensures ns.Literal? ==> r == " as " + ns.name
    ensures ns.Derived? && r != "" ==> r == " as " + DerivedName(path)
    ensures ns.Custom? && r != "" ==> r == " as " + ns.nameOf(path, index)
  {
    match ns
    case NoNamespace => ""
    case Literal(name) => " as " + name
    case Derived =>
      var name := DerivedName(path);
      if |name| > 0 then " as " + name else ""
    case Custom(nameOf) =>
      var name := nameOf(path, index);
      if |name| > 0 then " as " + name else ""
  }

  // ---------------------------------------------------------------------------
  // The derived name, segment by segment.

  /** An independent statement of the derived name, one segment at a time. */
  function DerivedNameBySegments(path: string): string
    decreases |path|
  {
    var i := FirstIndex(path, '/');
    if i == |path| then CleanFileName(path)
    else if path[..i] == ".." then DerivedNameBySegments(path[i + 1..])
    else path[..i] + "-" + DerivedNameBySegments(path[i + 1..])
  }

  // The parent-free directories of a list with one more directory in front.
  lemma WithoutParentsCons(d: string, ds: seq<string>)
    ensures WithoutParents([d] + ds) == (if d == ".." then [] else [d]) + WithoutParents(ds)
  {
    assert ([d] + ds)[1..] == ds;
  }

  /** The parent-free directories of two runs of directories, one after the
      other, are those of the first run followed by those of the second: the
      filter keeps order and repetitions. */
  lemma {:induction false} WithoutParentsConcat(a: seq<string>, b: seq<string>)
    ensures WithoutParents(a + b) == WithoutParents(a) + WithoutParents(b)
    decreases |a|
  {
    if |a| == 0 {
      assert a + b == b;
    } else {
      assert a + b == [a[0]] + (a[1..] + b);
      assert a == [a[0]] + a[1..];
      WithoutParentsCons(a[0], a[1..] + b);
      WithoutParentsCons(a[0], a[1..]);
      WithoutParentsConcat(a[1..], b);
      ConcatAssoc(if a[0] == ".." then [] else [a[0]], WithoutParents(a[1..]), WithoutParents(b));
    }
  }

  /** A path without `/` is only a file name. */
  lemma DerivedNameOfFile(path: string)
    requires '/' !in path
    ensures DerivedName(path) == CleanFileName(path)
  {
    assert Split(path, '/') == [path];
    assert [path][..0] == [];
    assert WithoutParents([]) + [CleanFileName(path)] == [CleanFileName(path)];
  }

  /** The first directory of a path is dropped when it is `..`, and otherwise
      put in front of the name of the rest with a `-`. */
  lemma DerivedNameStep(dir: string, rest: string)
    requires '/' !in dir
    ensures DerivedName(dir + "/" + rest) ==
      if dir == ".." then DerivedName(rest) else dir + "-" + DerivedName(rest)
  {
    SplitCons(dir, '/', rest);
    NameOfPartsCons(dir, Split(rest, '/'));
  }

  // The name of a split path with one more directory in front.
  lemma NameOfPartsCons(dir: string, parts: seq<string>)
    requires |parts| >= 1
    ensures NameOfParts([dir] + parts) ==
      if dir == ".." then NameOfParts(parts) else dir + "-" + NameOfParts(parts)
  {
    var all := [dir] + parts;
    var dirs := parts[..|parts| - 1];
    var file := CleanFileName(parts[|parts| - 1]);
    assert all[..|all| - 1] == [dir] + dirs;
    assert all[|all| - 1] == parts[|parts| - 1];
    WithoutParentsCons(dir, dirs);
    var tail := WithoutParents(dirs) + [file];
    if dir != ".." {
      assert WithoutParents([dir] + dirs) + [file] == [dir] + tail;
      JoinCons(dir, tail, "-");
    } else {
      assert WithoutParents([dir] + dirs) + [file] == tail;
    }
  }

  /** The derived name agrees with its segment-by-segment statement on every path. */
  lemma {:induction false} DerivedNameIsBySegments(path: string)
    ensures DerivedName(path) == DerivedNameBySegments(path)
    decreases |path|
  {
    var i := FirstIndex(path, '/');
    if i == |path| {
      DerivedNameOfFile(path);
    } else {
      var dir := path[..i];
      var rest := path[i + 1..];
      assert path == dir + "/" + rest;
      DerivedNameStep(dir, rest);
      DerivedNameIsBySegments(rest);
    }
  }

  /** The derived name is empty exactly when every directory is `..` and the
      cleaned file name is empty. */
  lemma NameOfPartsEmpty(parts: seq<string>)
    requires |parts| >= 1
    ensures NameOfParts(parts) == "" <==>
      (forall k :: 0 <= k < |parts| - 1 ==> parts[k] == "..") && CleanFileName(parts[|parts| - 1]) == ""
  {
    var dirs := parts[..|parts| - 1];
    var names := WithoutParents(dirs) + [CleanFileName(parts[|parts| - 1])];
    JoinEmpty(names, "-");
    assert names[|names| - 1] == CleanFileName(parts[|parts| - 1]);
    assert (forall k :: 0 <= k < |parts| - 1 ==> parts[k] == "..") <==> (forall k :: 0 <= k < |dirs| ==> dirs[k] == "..");
  }

  /** The cleaned file name of a partial: prefix and extension go, whatever the
      separator before `scss`. */
  lemma StripScssOf(base: string, sep: char)
    requires sep == '_' || sep == '.'
    ensures StripScssExtension(base + [sep] + "scss") == base
  {
    var f := base + [sep] + "scss";
    assert f[|f| - 5] == sep;
    assert f[|f| - 4..] == "scss";
    assert f[..|f| - 5] == base;
  }

  /** The file name of a partial such as `_file-a.scss`: the ending goes, and
      so does every `_`, the leading one included. */
  lemma CleanFileNameOfPartial(base: string, sep: char)
    requires sep == '_' || sep == '.'
    ensures CleanFileName(base + [sep] + "scss") == RemoveAll(base, '_')
  {
    StripScssOf(base, sep);
  }

  /** A file name without `_` and without a lower-case `_scss` or `.scss`
      ending is kept whole. */
  lemma CleanFileNameKeeps(f: string)
    requires '_' !in f
    requires !(|f| >= 5 && (f[|f| - 5] == '_' || f[|f| - 5] == '.') && f[|f| - 4..] == "scss")
    ensures CleanFileName(f) == f
  {
    RemoveAllAbsent(f, '_');
  }

  /** `.sass` and upper-case `.SCSS` are not cut off. */
  lemma StripScssKeeps(base: string, ext: string)
    requires ext == ".sass" || ext == ".SCSS"
    ensures StripScssExtension(base + ext) == base + ext
  {
    var f := base + ext;
    assert f[|f| - 4..] == ext[1..];
  }
}
