/**
  The few path operations the GUI relies on: `pathlib`'s `name`, `stem`,
  `parent` and `/`, and `os.path.splitext`, as plain string functions.
  Both '/' and '\\' separate components, as on Windows, where the GUI runs
  (it calls `os.startfile`). Drives and UNC prefixes are not modelled.
 */
module Paths {

  type Path = string

  const Seps: set<char> := {'/', '\\'}

  predicate NoSep(s: string)
  {
    forall i :: 0 <= i < |s| ==> s[i] !in Seps
  }

  /** Index of the last character of `s` that is in `cs`, or -1 when there is none. */
  function LastOf(s: string, cs: set<char>): (i: int)
    ensures -1 <= i < |s|
  {
    if s == [] then -1
    else if s[|s| - 1] in cs then |s| - 1
    else LastOf(s[..|s| - 1], cs)
  }

  /** `LastOf` finds a character of `cs`, and none of `cs` comes after it. */
  lemma {:induction false} LastOfIsLast(s: string, cs: set<char>)
    ensures var i := LastOf(s, cs);
            (0 <= i ==> s[i] in cs) && forall j :: i < j < |s| ==> s[j] !in cs
    decreases |s|
  {
    if s != [] && s[|s| - 1] !in cs {
      var t := s[..|s| - 1];
      LastOfIsLast(t, cs);
      assert forall j :: 0 <= j < |t| ==> t[j] == s[j];
    }
  }

  /** A character of `cs` with none of `cs` after it is the one `LastOf` finds. */
  lemma LastOfAt(s: string, cs: set<char>, i: int)
    requires 0 <= i < |s| && s[i] in cs && forall j :: i < j < |s| ==> s[j] !in cs
    ensures LastOf(s, cs) == i
  {
    LastOfIsLast(s, cs);
  }

  /** `PurePath.name`: the final component. */
  function Name(p: Path): string
  {
    p[LastOf(p, Seps) + 1..]
  }

  /**
    The name is a trailing part of the path that holds no separator, and
    it is the longest such part: either it is the whole path or a separator
    precedes it.
   */
  lemma NameIsLastComponent(p: Path)
    ensures NoSep(Name(p))
    ensures |Name(p)| <= |p| && p[|p| - |Name(p)|..] == Name(p)
    ensures |Name(p)| == |p| || p[|p| - |Name(p)| - 1] in Seps
  {
    LastOfIsLast(p, Seps);
  }

  /** `PurePath.parent`: everything before the last separator; "." for a bare name. */
  function Parent(p: Path): Path
  {
    var i := LastOf(p, Seps);
    if i < 0 then "." else if i == 0 then p[..1] else p[..i]
  }

  /** `PurePath.__truediv__` for a single component. */
  function Join(dir: Path, name: string): Path
  {
    dir + "/" + name
  }

  /**
    `PurePath.stem`: the name without its last suffix. A suffix starts at
    the last '.' provided that dot is neither the first nor the last
    character of the name.
   */
  function Stem(name: string): string
  {
    var i := LastOf(name, {'.'});
    if 0 < i < |name| - 1 then name[..i] else name
  }

  /** The stem is the name, or the part of it before a last, inner dot. */
  lemma StemIsPrefix(name: string)
    ensures var s := Stem(name);
            |s| <= |name| && name[..|s|] == s &&
            (s == name ||
             (0 < |s| < |name| - 1 && name[|s|] == '.' && forall j :: |s| < j < |name| ==> name[j] != '.'))
  {
    LastOfIsLast(name, {'.'});
  }

  /** A dot that is neither first nor last and has no dot after it ends the stem. */
  lemma StemAtLastDot(name: string, i: int)
    requires 0 < i < |name| - 1 && name[i] == '.' && forall j :: i < j < |name| ==> name[j] != '.'
    ensures Stem(name) == name[..i]
  {
    LastOfAt(name, {'.'}, i);
  }

  /** The stem of `a.b`, for a non-empty `a` and a non-empty dot-free `b`, is `a`. */
  lemma StemOfDotted(a: string, b: string)
    requires a != [] && b != [] && '.' !in b
    ensures Stem(a + "." + b) == a
  {
    var name := a + "." + b;
    assert forall j :: |a| < j < |name| ==> name[j] == b[j - |a| - 1];
    StemAtLastDot(name, |a|);
    assert name[..|a|] == a;
  }

  /** `s` is made of dots only. */
  predicate AllDots(s: string)
  {
    forall k :: 0 <= k < |s| ==> s[k] == '.'
  }

  /**
    `os.path.splitext`: splits off the text from the last '.' of the final
    component, unless everything before that dot in the component is dots
    (".ncm" and "..ncm" have no extension).
   */
  function Splitext(p: Path): (Path, string)
  {
    var sep := LastOf(p, Seps);
    var dot := LastOf(p, {'.'});
    if sep < dot && !AllDots(p[sep + 1..dot]) then (p[..dot], p[dot..]) else (p, "")
  }

  /** `splitext` splits `p` in two, and the extension is a dot and dot-free, separator-free text. */
  lemma SplitextParts(p: Path)
    ensures var (root, ext) := Splitext(p);
            root + ext == p &&
            (ext == "" || (ext[0] == '.' && NoSep(ext) && forall j :: 0 < j < |ext| ==> ext[j] != '.'))
  {
    LastOfIsLast(p, Seps);
    LastOfIsLast(p, {'.'});
  }

  /**
    A last dot of the final component, preceded in that component by a
    character other than a dot, starts the extension.
   */
  lemma SplitextAt(p: Path, j: int, i: int)
    requires 0 <= j < i < |p| && p[i] == '.' && p[j] != '.' && p[j] !in Seps
    requires forall m :: j < m < i ==> p[m] !in Seps
    requires forall m :: i < m < |p| ==> p[m] != '.' && p[m] !in Seps
    ensures Splitext(p) == (p[..i], p[i..])
  {
    LastOfAt(p, {'.'}, i);
    LastSepBefore(p, j, i);
    var sep := LastOf(p, Seps);
    var stem := p[sep + 1..i];
    assert stem[j - sep - 1] == p[j];
    assert !AllDots(stem);
  }

  /**
    `splitext` finds no extension exactly when everything between the last
    separator and the last dot is a dot: the final component has no dot,
    or only leading dots come before its last one (".ncm", "..ncm").
   */
  lemma SplitextNoExt(p: Path)
    ensures Splitext(p).1 == "" <==>
            forall m :: LastOf(p, Seps) < m < LastOf(p, {'.'}) ==> p[m] == '.'
  {
    var sep, dot := LastOf(p, Seps), LastOf(p, {'.'});
    if sep < dot {
      var mid := p[sep + 1..dot];
      assert forall m :: sep < m < dot ==> p[m] == mid[m - sep - 1];
      assert forall k :: 0 <= k < |mid| ==> mid[k] == p[k + sep + 1];
    }
  }

  /** A hidden file named after an extension has none: `splitext(".ncm") == (".ncm", "")`. */
  lemma SplitextHidden()
    ensures Splitext(".ncm") == (".ncm", "")
    ensures Splitext("music/.ncm") == ("music/.ncm", "")
    ensures Splitext("music/a.ncm") == ("music/a", ".ncm")
  {
    LastOfAt(".ncm", {'.'}, 0);
    LastOfAt("music/.ncm", Seps, 5);
    LastOfAt("music/.ncm", {'.'}, 6);
    SplitextAt("music/a.ncm", 6, 7);
    assert "music/a.ncm"[..7] == "music/a" && "music/a.ncm"[7..] == ".ncm";
  }

  /** No separator from `j` on: the last separator comes before `j`. */
  lemma LastSepBefore(p: Path, j: int, i: int)
    requires 0 <= j < i < |p| && p[j] !in Seps && p[i] !in Seps
    requires forall m :: j < m < i ==> p[m] !in Seps
    requires forall m :: i < m < |p| ==> p[m] !in Seps
    ensures LastOf(p, Seps) < j
  {
    LastOfIsLast(p, Seps);
  }

  lemma {:induction false} LastOfAppend(s: string, t: string, cs: set<char>)
    requires forall j :: 0 <= j < |t| ==> t[j] !in cs
    ensures LastOf(s + t, cs) == LastOf(s, cs)
    decreases |t|
  {
    if t != [] {
      var st := s + t;
      assert st[..|st| - 1] == s + t[..|t| - 1];
      LastOfAppend(s, t[..|t| - 1], cs);
    } else {
      assert s + t == s;
    }
  }

  /** Joining a single component onto a directory is undone by `Parent` and `Name`. */
  lemma JoinParts(dir: Path, name: string)
    requires dir != "" && NoSep(name)
    ensures Parent(Join(dir, name)) == dir
    ensures Name(Join(dir, name)) == name
  {
    var p := Join(dir, name);
    assert p == (dir + "/") + name;
    LastOfAppend(dir + "/", name, Seps);
    assert LastOf(dir + "/", Seps) == |dir|;
  }
}
