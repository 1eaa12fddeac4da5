/** POSIX path operations as `os.path` (posixpath) and `pathlib` define
    them, over `/`-separated strings. The process's working directory, which
    `abspath` consults, is a parameter. */
module Paths {
  import opened Text

  /** `s.rfind(c)`: the last index holding `c`, or -1. */
  function RFind(s: string, c: char): (r: int)
    ensures -1 <= r < |s|
    ensures r >= 0 ==> s[r] == c
    ensures forall k :: r < k < |s| ==> s[k] != c
  {
    if s == [] then -1
    else if s[|s| - 1] == c then |s| - 1
    else RFind(s[..|s| - 1], c)
  }

  predicate AllChar(s: string, c: char)
  {
    forall k :: 0 <= k < |s| ==> s[k] == c
  }

  /** `s.rstrip(c)` for a single character. */
  function RStripChar(s: string, c: char): (r: string)
    ensures |r| <= |s| && r == s[..|r|]
    ensures r != [] ==> r[|r| - 1] != c
    ensures forall k :: |r| <= k < |s| ==> s[k] == c
  {
    if s == [] || s[|s| - 1] != c then s else RStripChar(s[..|s| - 1], c)
  }

  predicate IsAbs(p: string)
  {
    StartsWith(p, "/")
  }

  /** `os.path.dirname`: everything up to the last `/`, without its trailing
      slashes unless it consists of slashes only. */
  function Dirname(p: string): (r: string)
    ensures |r| <= |p|
  {
    var head := p[..RFind(p, '/') + 1];
    if head != [] && !AllChar(head, '/') then RStripChar(head, '/') else head
  }

  /** `os.path.basename`: everything after the last `/`. */
  function Basename(p: string): (r: string)
    ensures '/' !in r
    ensures |r| <= |p| && p == p[..|p| - |r|] + r
  {
    p[RFind(p, '/') + 1..]
  }

  /** `os.path.join(a, b)` */
  function JoinPath(a: string, b: string): string
  {
    if IsAbs(b) then b
    else if a == [] || EndsWith(a, "/") then a + b
    else a + "/" + b
  }

  /** The component loop of `os.path.normpath`: `.` and empty components
      vanish, `..` removes the previous component, and a leading `..` is
      kept on a relative path and dropped at the root. */
  function NormComps(comps: seq<string>, acc: seq<string>, rooted: bool): (r: seq<string>)
    decreases |comps|
  {
    if comps == [] then acc
    else
      var c := comps[0];
      if c == "" || c == "." then NormComps(comps[1..], acc, rooted)
      else if c != ".." || (!rooted && acc == []) || (acc != [] && acc[|acc| - 1] == "..") then
        NormComps(comps[1..], acc + [c], rooted)
      else if acc != [] then NormComps(comps[1..], acc[..|acc| - 1], rooted)
      else NormComps(comps[1..], acc, rooted)
  }

  /** `os.path.normpath`. Exactly two leading slashes are kept, as POSIX
      allows them a meaning of their own. */
  function NormPath(p: string): (r: string)
    ensures r != []
  {
    if p == [] then "."
    else
      var initial: nat :=
        if !IsAbs(p) then 0
        else if StartsWith(p, "//") && !StartsWith(p, "///") then 2
        else 1;
      var body := Join(NormComps(Split(p, '/'), [], initial > 0), '/');
      var r := seq(initial, _ => '/') + body;
      if r == [] then "." else r
  }

  /** `os.path.abspath`, where `cwd` is what `os.getcwd()` returns. */
  function AbsPath(p: string, cwd: string): string
  {
    NormPath(if IsAbs(p) then p else JoinPath(cwd, p))
  }

  /** The non-empty components of a path. */
  function Components(p: string): (r: seq<string>)
    ensures forall k :: 0 <= k < |r| ==> r[k] != [] && '/' !in r[k]
  {
    Filter(Split(p, '/'))
  }

  function Filter(parts: seq<string>): (r: seq<string>)
    requires forall k :: 0 <= k < |parts| ==> '/' !in parts[k]
    ensures forall k :: 0 <= k < |r| ==> r[k] != [] && '/' !in r[k]
  {
    if parts == [] then []
    else (if parts[0] == [] then [] else [parts[0]]) + Filter(parts[1..])
  }

  function CommonPrefixLength(a: seq<string>, b: seq<string>): (n: nat)
    ensures n <= |a| && n <= |b| && a[..n] == b[..n]
    ensures n < |a| && n < |b| ==> a[n] != b[n]
  {
    if a == [] || b == [] || a[0] != b[0] then 0
    else 1 + CommonPrefixLength(a[1..], b[1..])
  }

  /** `os.path.relpath(path, start)`: up from `start` to the components both
      share, then down to `path`. An empty `path` raises `ValueError`. */
  function RelPath(path: string, start: string, cwd: string): (r: string)
    requires path != []
    ensures r != []
  {
    var s := Components(AbsPath(start, cwd));
    var t := Components(AbsPath(path, cwd));
    var i := CommonPrefixLength(s, t);
    var rel := seq(|s| - i, _ => "..") + t[i..];
    if rel == [] then "." else
      assert rel[0] != [];
      JoinNonEmpty(rel, '/');
      Join(rel, '/')
  }

  lemma {:induction false} JoinNonEmpty(parts: seq<string>, c: char)
    requires parts != [] && parts[0] != []
    ensures Join(parts, c) != []
  {
  }

  predicate HasNonDot(s: string)
  {
    exists k :: 0 <= k < |s| && s[k] != '.'
  }

  /** `os.path.splitext`: the last `.` of the last component starts the
      extension, unless the component holds only dots before it. */
  function SplitExt(p: string): (r: (string, string))
    ensures r.0 + r.1 == p
  {
    var sep := RFind(p, '/');
    var dot := RFind(p, '.');
    if dot > sep && HasNonDot(p[sep + 1..dot]) then (p[..dot], p[dot..]) else (p, "")
  }

  /** `pathlib.PurePath.stem` of a file name. */
  function Stem(name: string): (r: string)
    ensures |r| <= |name| && r == name[..|r|]
  {
    var i := RFind(name, '.');
    if 0 < i < |name| - 1 then name[..i] else name
  }

  // ---------------------------------------------------------------------------
  // Facts about file names

  /** A file name that passes the section filter: its last three characters
      are `.md` in any case, and it does not start with a dot. */
  predicate MarkdownName(name: string)
  {
    '/' !in name && EndsWith(Lower(name), ".md") && !StartsWith(name, ".")
  }

  lemma LowerSuffix(name: string)
    requires EndsWith(Lower(name), ".md")
    ensures |name| >= 3 && name[|name| - 3] == '.'
    ensures name[|name| - 2] != '.' && name[|name| - 1] != '.'
    ensures name[|name| - 2] != '/' && name[|name| - 1] != '/'
  {
    var l := Lower(name);
    assert l[|l| - 3..] == ".md";
    assert l[|l| - 3] == '.' && l[|l| - 2] == 'm' && l[|l| - 1] == 'd';
  }

  /** The slug of an accepted file is its name without the three-character
      extension. */
  lemma SplitExtOfMarkdownName(name: string)
    requires MarkdownName(name)
    ensures SplitExt(name).0 == name[..|name| - 3]
  {
    LowerSuffix(name);
    var dot := |name| - 3;
    assert RFind(name, '.') == dot;
    assert RFind(name, '/') == -1;
    assert name[0] != '.';
    assert name[0..dot][0] == name[0];
  }

  lemma BasenameOfJoin(dir: string, name: string)
    requires '/' !in name && !IsAbs(name) && name != []
    ensures Basename(JoinPath(dir, name)) == name
  {
    var p := JoinPath(dir, name);
    var x := if dir == [] || EndsWith(dir, "/") then dir else dir + "/";
    assert p == x + name;
    RFindAppend(x, name, '/');
    if x != [] {
      assert x[|x| - 1] == '/';
    }
  }

  lemma {:induction false} RFindAppend(x: string, y: string, c: char)
    requires c !in y
    ensures RFind(x + y, c) == RFind(x, c)
    decreases |y|
  {
    if y != [] {
      var z := x + y;
      assert z[..|z| - 1] == x + y[..|y| - 1];
      RFindAppend(x, y[..|y| - 1], c);
    } else {
      assert x + y == x;
    }
  }
}
