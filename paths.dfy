/** POSIX path handling as the program uses it: pathlib's component view (`Path(p)`,
    `.name`, `.suffix`, `.stem`, `.parent`, `/`, `str`) and the `os.path` string
    functions (`basename`, `splitext`, `join`). */
module Paths {

  import opened Wrappers
  import opened Text

  /** A pathlib path: absolute or relative, and its components in order. Components
      are never empty, never ".", and never contain '/'. */
  datatype PurePath = PurePath(absolute: bool, parts: seq<string>)

  predicate ValidPart(c: string) { c != "" && c != "." && '/' !in c }

  predicate ValidPath(p: PurePath) { forall i :: 0 <= i < |p.parts| ==> ValidPart(p.parts[i]) }

  function KeepParts(cs: seq<string>): (r: seq<string>)
    ensures forall i :: 0 <= i < |r| ==> r[i] in cs && r[i] != "" && r[i] != "."
  {
    if cs == [] then []
    else (if cs[0] == "" || cs[0] == "." then [] else [cs[0]]) + KeepParts(cs[1..])
  }

  /** `Path(s)`: empty and "." components are dropped, as pathlib does. */
  function Parse(s: string): (p: PurePath)
    ensures ValidPath(p)
  {
    PurePath(StartsWith(s, "/"), KeepParts(Split(s, '/')))
  }

  /** `str(Path(...))`. */
  function Render(p: PurePath): string
  {
    if !p.absolute && p.parts == [] then "."
    else (if p.absolute then "/" else "") + Join(p.parts, "/")
  }

  /** `.name`: the final component, or "" for a root or empty path. */
  function Name(p: PurePath): string
  {
    if p.parts == [] then "" else p.parts[|p.parts| - 1]
  }

  /** `.parent`. */
  function Parent(p: PurePath): PurePath
  {
    if p.parts == [] then p else PurePath(p.absolute, p.parts[..|p.parts| - 1])
  }

  /** `p / name` for a single valid component. */
  function Child(p: PurePath, name: string): PurePath
  {
    PurePath(p.absolute, p.parts + [name])
  }

  /** The last index of `c` in `s`, as `str.rfind` (None for -1). */
  function RFind(s: string, c: char): (r: Option<nat>)
    ensures r.Some? ==> r.value < |s| && s[r.value] == c && c !in s[r.value + 1..]
    ensures r.None? ==> c !in s
  {
    if s == [] then None
    else if s[|s| - 1] == c then Some(|s| - 1)
    else
      var r := RFind(s[..|s| - 1], c);
      assert s == s[..|s| - 1] + [s[|s| - 1]];
      r
  }

  /** Index of the dot that starts pathlib's suffix of `name`, if there is one: the last
      dot, provided it is neither the first nor the last character. */
  function SuffixDot(name: string): (r: Option<nat>)
    ensures r.Some? ==> 0 < r.value < |name| - 1 && name[r.value] == '.'
  {
    match RFind(name, '.')
    case Some(i) => if 0 < i < |name| - 1 then Some(i) else None
    case None => None
  }

  /** `.suffix` of a name. */
  function Suffix(name: string): string
  {
    match SuffixDot(name)
    case Some(i) => name[i..]
    case None => ""
  }

  /** `.stem` of a name. */
  function Stem(name: string): string
  {
    match SuffixDot(name)
    case Some(i) => name[..i]
    case None => name
  }

  lemma StemSuffix(name: string)
    ensures Stem(name) + Suffix(name) == name
  {
  }

  /** `os.path.basename`: everything after the last '/'. */
  function Basename(p: string): (r: string)
    ensures '/' !in r
  {
    match RFind(p, '/')
    case Some(i) => p[i + 1..]
    case None => p
  }

  /** Whether every character of `s` is a dot. */
  predicate OnlyDots(s: string)
  {
    s == [] || (s[0] == '.' && OnlyDots(s[1..]))
  }

  /** The root part of `os.path.splitext(name)` for a name without '/': the text before
      the last dot, unless only dots precede that dot. */
  function SplitExtRoot(name: string): string
  {
    match RFind(name, '.')
    case Some(i) => if OnlyDots(name[..i]) then name else name[..i]
    case None => name
  }

  /** `os.path.dirname`: the text up to the last '/', with trailing slashes removed
      unless it consists of slashes only. */
  function Dirname(p: string): (r: string)
    ensures r == "" <==> '/' !in p
  {
    match RFind(p, '/')
    case Some(i) =>
      var head := p[..i + 1];
      assert head[i] == '/';
      if forall k :: 0 <= k < |head| ==> head[k] == '/' then head
      else
        var r := StripRight(head, c => c == '/');
        assert r != "" by {
          var k :| 0 <= k < |head| && head[k] != '/';
          StripRightKeeps(head, c => c == '/', k);
        }
        r
    case None => ""
  }

  lemma StripRightKeeps(s: string, drop: char -> bool, k: nat)
    requires k < |s| && !drop(s[k])
    ensures k < |StripRight(s, drop)|
    decreases |s|
  {
    if s != [] && drop(s[|s| - 1]) {
      StripRightKeeps(s[..|s| - 1], drop, k);
    }
  }

  /** `os.path.join(dir, name)` for two arguments. */
  function JoinPath(dir: string, name: string): string
  {
    if name != [] && name[0] == '/' then name
    else if dir == [] || dir[|dir| - 1] == '/' then dir + name
    else dir + "/" + name
  }

  /** `Path(path).suffix.lower()`: the lower-cased suffix of the final component, the
      test the program uses to recognise video files. */
  function LowerSuffix(path: string): string
  {
    Lower(Suffix(Name(Parse(path))))
  }

  // ---------------------------------------------------------------------------
  // Facts about rendering and splitting

  lemma SplitAppend(a: string, n: string)
    requires '/' !in n
    ensures Split(a + "/" + n, '/') == Split(a, '/') + [n]
    decreases |a|
  {
    var s := a + "/" + n;
    if '/' in a {
      var i := IndexOf(a, '/');
      IndexOfConcat(a, "/" + n, '/');
      assert s == a + ("/" + n);
      assert s[..i] == a[..i];
      assert s[i + 1..] == a[i + 1..] + "/" + n;
      SplitAppend(a[i + 1..], n);
    } else {
      IndexOfAfter(a, n, '/');
      assert s[..|a|] == a;
      assert s[|a| + 1..] == n;
    }
  }

  lemma KeepPartsAppend(cs: seq<string>, n: string)
    requires n != "" && n != "."
    ensures KeepParts(cs + [n]) == KeepParts(cs) + [n]
    decreases |cs|
  {
    if cs == [] {
      assert KeepParts([n]) == [n] + KeepParts([]);
    } else {
      assert (cs + [n])[1..] == cs[1..] + [n];
      KeepPartsAppend(cs[1..], n);
    }
  }

  /** Whatever directory precedes it, the final component of `dir/n` is `n`. */
  lemma NameOfJoined(dir: string, n: string)
    requires ValidPart(n)
    ensures Name(Parse(dir + "/" + n)) == n
  {
    SplitAppend(dir, n);
    KeepPartsAppend(Split(dir, '/'), n);
  }

  lemma NameOfBare(n: string)
    requires ValidPart(n)
    ensures Name(Parse(n)) == n
  {
    assert Split(n, '/') == [n];
    assert KeepParts([n]) == [n] + KeepParts([]);
  }

  lemma JoinAppend(parts: seq<string>, n: string, sep: string)
    requires parts != []
    ensures Join(parts + [n], sep) == Join(parts, sep) + sep + n
    decreases |parts|
  {
    if |parts| > 1 {
      assert (parts + [n])[1..] == parts[1..] + [n];
      JoinAppend(parts[1..], n, sep);
    }
  }

  /** The text that rendering puts before a child component of `p`. */
  function ChildPrefix(p: PurePath): string
  {
    if p.parts == [] then (if p.absolute then "/" else "") else Render(p) + "/"
  }

  lemma RenderChild(p: PurePath, n: string)
    ensures Render(Child(p, n)) == ChildPrefix(p) + n
  {
    var lead := if p.absolute then "/" else "";
    var c := Child(p, n);
    assert !(!c.absolute && c.parts == []);
    assert Render(c) == lead + Join(p.parts + [n], "/");
    if p.parts != [] {
      var j := Join(p.parts, "/");
      JoinAppend(p.parts, n, "/");
      assert Render(p) == lead + j;
      assert lead + (j + "/" + n) == (lead + j + "/") + n;
    } else {
      assert p.parts + [n] == [n];
      assert Join([n], "/") == n;
    }
  }

  lemma RFindAt(s: string, c: char, i: nat)
    requires i < |s| && s[i] == c && c !in s[i + 1..]
    ensures RFind(s, c) == Some(i)
    decreases |s|
  {
    if i < |s| - 1 {
      assert s[|s| - 1] in s[i + 1..];
      assert s[..|s| - 1][i + 1..] == s[i + 1..|s| - 1];
      RFindAt(s[..|s| - 1], c, i);
    }
  }

  /** A suffix made of a dot and a dot-free extension is what pathlib reports for
      `stem + ext` whenever the stem is not empty. */
  lemma SuffixOfExtension(stem: string, ext: string)
    requires stem != [] && |ext| >= 2 && ext[0] == '.' && '.' !in ext[1..]
    ensures Suffix(stem + ext) == ext
  {
    var name := stem + ext;
    assert name[|stem|..] == ext;
    assert name[|stem| + 1..] == ext[1..];
    RFindAt(name, '.', |stem|);
  }
}
