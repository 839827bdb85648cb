/** POSIX path helpers as Python's `posixpath` computes them (`/` separator, `.` extension separator). */
module Paths {

  /** `p.rfind(c)`: the last index of `c` in `p`, or -1. */
  function LastIndex(p: string, c: char): (r: int)
    ensures -1 <= r < |p|
    ensures r >= 0 ==> p[r] == c
    ensures forall j :: r < j < |p| ==> p[j] != c
  {
    if p == [] then -1 else if p[|p| - 1] == c then |p| - 1 else LastIndex(p[..|p| - 1], c)
  }

  predicate AllSeparators(s: string) {
    forall i :: 0 <= i < |s| ==> s[i] == '/'
  }

  /** `s.rstrip("/")`. */
  function StripTrailingSeparators(s: string): (r: string)
    ensures |r| <= |s| && r == s[..|r|]
    ensures r == [] || r[|r| - 1] != '/'
    ensures forall j :: |r| <= j < |s| ==> s[j] == '/'
  {
    if s != [] && s[|s| - 1] == '/' then StripTrailingSeparators(s[..|s| - 1]) else s
  }

  /**
   * `os.path.split(p)`: the part after the last separator, and the part before it with its
   * trailing separators removed unless it consists of separators only.
   */
  function Split(p: string): (r: (string, string))
    ensures '/' !in r.1
    ensures r.0 == [] <==> '/' !in p
  {
    var i := LastIndex(p, '/') + 1;
    var head, tail := p[..i], p[i..];
    assert '/' in p ==> head != [] && head[|head| - 1] == '/';
    assert '/' !in p ==> head == [] by {
      if head != [] { assert p[i - 1] == '/'; }
    }
    if head != [] && !AllSeparators(head) then (StripTrailingSeparators(head), tail) else (head, tail)
  }

  /** A name without separators has no directory part. */
  lemma SplitBareName(n: string)
    requires '/' !in n
    ensures Split(n) == ("", n)
  {
    assert LastIndex(n, '/') == -1;
    assert n[0..] == n;
  }

  /** Splitting `d/n` gives back `d` and `n` when `n` has no separator and `d` does not end in one. */
  lemma SplitJoined(d: string, n: string)
    requires '/' !in n
    requires d != [] && d[|d| - 1] != '/'
    ensures Split(d + "/" + n) == (d, n)
  {
    var p := d + "/" + n;
    assert p[|d|] == '/';
    assert forall j :: |d| < j < |p| ==> p[j] == n[j - |d| - 1];
    assert LastIndex(p, '/') == |d|;
    var head := p[..|d| + 1];
    assert head == d + "/";
    assert !AllSeparators(head) by { assert head[|d| - 1] != '/'; }
    assert StripTrailingSeparators(head) == StripTrailingSeparators(d);
    assert p[|d| + 1..] == n;
  }

  /** The relative path of entry `name` in the directory at relative path `dir`. */
  function Join(dir: string, name: string): string {
    if dir == [] then name else dir + "/" + name
  }

  /**
   * `os.path.splitext(p)`: the extension starts at the last `.` of the final component, provided
   * some character before it in that component is not a `.` (so `.yaml` has no extension).
   */
  function SplitExt(p: string): (r: (string, string))
    ensures r.0 + r.1 == p
  {
    var sep := LastIndex(p, '/');
    var dot := LastIndex(p, '.');
    if dot > sep && exists k :: sep + 1 <= k < dot && p[k] != '.' then (p[..dot], p[dot..]) else (p, "")
  }

  /** A separator-free entry name splits as `(n, ext)` exactly when it is `n + ext` and `n` is not all dots. */
  lemma SplitExtOfName(f: string, n: string, ext: string)
    requires '/' !in f
    requires ext != [] && ext[0] == '.' && '.' !in ext[1..] && '/' !in ext
    ensures SplitExt(f) == (n, ext) <==> f == n + ext && exists k :: 0 <= k < |n| && n[k] != '.'
  {
    if f == n + ext {
      SplitExtJoined(n, ext);
    }
    if SplitExt(f) == (n, ext) {
      SplitExtFound(f);
    }
  }

  /** `n + ext`, without separators and with a single leading `.` in `ext`, splits at that dot unless `n` is all dots. */
  lemma SplitExtJoined(n: string, ext: string)
    requires '/' !in n + ext
    requires ext != [] && ext[0] == '.' && '.' !in ext[1..]
    ensures SplitExt(n + ext) == if exists k :: 0 <= k < |n| && n[k] != '.' then (n, ext) else (n + ext, "")
  {
    var f := n + ext;
    assert LastIndex(f, '/') == -1;
    assert f[|n|] == '.';
    assert forall j :: |n| < j < |f| ==> f[j] == ext[1..][j - |n| - 1];
    assert LastIndex(f, '.') == |n|;
    assert f[..|n|] == n && f[|n|..] == ext;
    assert (exists k :: 0 <= k < |n| && n[k] != '.') <==> (exists k :: 0 <= k < |n| && f[k] != '.') by {
      assert forall k :: 0 <= k < |n| ==> f[k] == n[k];
    }
  }

  /** A separator-free name with an extension is its base followed by it, and its base is not all dots. */
  lemma SplitExtFound(f: string)
    requires '/' !in f && SplitExt(f).1 != []
    ensures var (n, ext) := SplitExt(f);
      f == n + ext && exists k :: 0 <= k < |n| && n[k] != '.'
  {
    assert LastIndex(f, '/') == -1;
    var dot := LastIndex(f, '.');
    var k :| 0 <= k < dot && f[k] != '.';
    assert SplitExt(f).0 == f[..dot];
    assert f[..dot][k] != '.';
  }
}
