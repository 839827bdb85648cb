/**
 * The file-rule matcher of a local dataset. A rule is split like a path into a directory part
 * and a final name part; each non-empty part becomes an anchored, case-insensitive regular
 * expression in which `*` stands for `.*` and `?` for `.`, and every other character is literal.
 */
module Wildcard {
  import opened Wrappers
  import Text
  import Paths

  datatype Token = Star | AnyChar | Lit(c: char)

  /** The compiled form of one rule part: the regular expression as a sequence of tokens. */
  type Pattern = seq<Token>

  function TokenOf(c: char): Token {
    if c == '*' then Star else if c == '?' then AnyChar else Lit(c)
  }

  /** `re.escape(part)`, then `\*` replaced by `.*` and `\?` by `.`. */
  function Compile(part: string): (p: Pattern)
    ensures |p| == |part|
    ensures forall i :: 0 <= i < |part| ==> p[i] == TokenOf(part[i])
  {
    seq(|part|, i requires 0 <= i < |part| => TokenOf(part[i]))
  }

  /** Characters compared under `re.IGNORECASE` (ASCII letters only). */
  predicate SameIgnoringCase(a: char, b: char) {
    Text.Lower(a) == Text.Lower(b)
  }

  /** The pattern matches the whole of `s`; like the regular expression `.`, no token matches a line feed except a literal one. */
  predicate Glob(p: Pattern, s: string)
    decreases |p| + |s|
  {
    if p == [] then s == []
    else match p[0]
      case Star => Glob(p[1..], s) || (s != [] && s[0] != '\n' && Glob(p, s[1..]))
      case AnyChar => s != [] && s[0] != '\n' && Glob(p[1..], s[1..])
      case Lit(c) => s != [] && SameIgnoringCase(c, s[0]) && Glob(p[1..], s[1..])
  }

  /** `re.compile("^" + p + "$", re.IGNORECASE).match(s)`: `$` also matches just before a final line feed. */
  predicate FullMatch(p: Pattern, s: string) {
    Glob(p, s) || (s != [] && s[|s| - 1] == '\n' && Glob(p, s[..|s| - 1]))
  }

  /** A lone `*` matches exactly the strings without a line feed. */
  lemma {:induction false} StarMatchesAnyRun(s: string)
    ensures Glob([Star], s) <==> '\n' !in s
    decreases |s|
  {
    assert [Star][1..] == [];
    if s != [] {
      StarMatchesAnyRun(s[1..]);
      assert s == [s[0]] + s[1..];
    }
  }

  /** A lone `?` matches exactly one character other than a line feed. */
  lemma AnyCharMatchesOne(s: string)
    ensures Glob([AnyChar], s) <==> |s| == 1 && s[0] != '\n'
  {
    assert [AnyChar][1..] == [];
  }

  predicate Literal(t: string) {
    '*' !in t && '?' !in t
  }

  /** A part without wildcards matches exactly the strings equal to it up to case. */
  lemma {:induction false} LiteralMatchesItself(t: string, s: string)
    requires Literal(t)
    ensures Glob(Compile(t), s) <==> |s| == |t| && forall i :: 0 <= i < |t| ==> SameIgnoringCase(t[i], s[i])
    decreases |t|
  {
    if t != [] {
      assert Compile(t)[1..] == Compile(t[1..]);
      assert Compile(t)[0] == Lit(t[0]);
      if s != [] {
        LiteralMatchesItself(t[1..], s[1..]);
        if |s| == |t| && SameIgnoringCase(t[0], s[0]) {
          assert (forall i :: 0 <= i < |t| ==> SameIgnoringCase(t[i], s[i])) <==>
                 (forall i :: 0 <= i < |t| - 1 ==> SameIgnoringCase(t[1..][i], s[1..][i]));
        }
      }
    }
  }

  /** Compiling a concatenation concatenates the compiled parts. */
  lemma CompileConcat(a: string, b: string)
    ensures Compile(a + b) == Compile(a) + Compile(b)
  {
    assert forall i :: 0 <= i < |a + b| ==> Compile(a + b)[i] == (Compile(a) + Compile(b))[i];
  }

  /** A concatenation of patterns matches exactly when some split of the string matches part by part. */
  lemma {:induction false} GlobConcat(p: Pattern, q: Pattern, s: string)
    ensures Glob(p + q, s) <==> exists i :: 0 <= i <= |s| && Glob(p, s[..i]) && Glob(q, s[i..])
    decreases |p|, |s|
  {
    if Glob(p + q, s) {
      var i := GlobConcatSplit(p, q, s);
      assert Glob(p, s[..i]) && Glob(q, s[i..]);
    }
    if exists i :: 0 <= i <= |s| && Glob(p, s[..i]) && Glob(q, s[i..]) {
      var i :| 0 <= i <= |s| && Glob(p, s[..i]) && Glob(q, s[i..]);
      GlobConcatJoin(p, q, s, i);
    }
  }

  /** A match of `p + q` against `s` yields the split point. */
  lemma {:induction false} GlobConcatSplit(p: Pattern, q: Pattern, s: string) returns (i: nat)
    requires Glob(p + q, s)
    ensures i <= |s| && Glob(p, s[..i]) && Glob(q, s[i..])
    decreases |p|, |s|
  {
    if p == [] {
      assert p + q == q;
      i := 0;
      assert s[0..] == s;
    } else {
      assert (p + q)[0] == p[0];
      assert (p + q)[1..] == p[1..] + q;
      match p[0]
      case Star =>
        if Glob(p[1..] + q, s) {
          i := GlobConcatSplit(p[1..], q, s);
        } else {
          var j := GlobConcatSplit(p, q, s[1..]);
          i := j + 1;
          assert s[..i][1..] == s[1..][..j];
          assert s[i..] == s[1..][j..];
        }
      case AnyChar =>
        var j := GlobConcatSplit(p[1..], q, s[1..]);
        i := j + 1;
        assert s[..i][1..] == s[1..][..j];
        assert s[i..] == s[1..][j..];
      case Lit(c) =>
        var j := GlobConcatSplit(p[1..], q, s[1..]);
        i := j + 1;
        assert s[..i][1..] == s[1..][..j];
        assert s[i..] == s[1..][j..];
    }
  }

  /** Matches of the two parts combine into a match of the concatenation. */
  lemma {:induction false} GlobConcatJoin(p: Pattern, q: Pattern, s: string, i: nat)
    requires i <= |s| && Glob(p, s[..i]) && Glob(q, s[i..])
    ensures Glob(p + q, s)
    decreases |p|, i
  {
    if p == [] {
      assert p + q == q;
      assert s[..i] == [];
      assert s[i..] == s;
    } else {
      assert (p + q)[0] == p[0];
      assert (p + q)[1..] == p[1..] + q;
      match p[0]
      case Star =>
        if Glob(p[1..], s[..i]) {
          GlobConcatJoin(p[1..], q, s, i);
        } else {
          assert s[..i][1..] == s[1..][..i - 1];
          assert s[i..] == s[1..][i - 1..];
          GlobConcatJoin(p, q, s[1..], i - 1);
        }
      case AnyChar =>
        assert s[..i][1..] == s[1..][..i - 1];
        assert s[i..] == s[1..][i - 1..];
        GlobConcatJoin(p[1..], q, s[1..], i - 1);
      case Lit(c) =>
        assert s[..i][1..] == s[1..][..i - 1];
        assert s[i..] == s[1..][i - 1..];
        GlobConcatJoin(p[1..], q, s[1..], i - 1);
    }
  }

  function CompilePart(part: string): Option<Pattern> {
    if part == [] then None else Some(Compile(part))
  }

  /** The cache entry of a rule: one slot per part of `os.path.split(rule)`, `None` for an empty part. */
  function CompileRule(rule: string): (r: seq<Option<Pattern>>)
    ensures |r| == 2
  {
    var parts := Paths.Split(rule);
    [CompilePart(parts.0), CompilePart(parts.1)]
  }

  /** A non-empty path part needs a compiled part that matches it; an empty path part needs an empty rule part. */
  predicate PartMatches(regexp: Option<Pattern>, part: string) {
    if part != [] then regexp.Some? && FullMatch(regexp.value, part) else regexp.None?
  }

  /** `_match_rule(name, rule)`, as a function of its arguments alone. */
  predicate Matches(name: string, rule: string) {
    var parts := Paths.Split(name);
    var regexps := CompileRule(rule);
    PartMatches(regexps[0], parts.0) && PartMatches(regexps[1], parts.1)
  }

  /** A rule without a directory part matches only root-level names, and a rule with one only names below a directory. */
  lemma DirectoryPartsAgree(name: string, rule: string)
    requires Matches(name, rule)
    ensures '/' in rule <==> '/' in name
  {
  }

  /** With no line feed in play, the anchored match is the plain one. */
  lemma FullMatchWithoutLineFeed(p: Pattern, s: string)
    requires '\n' !in s
    ensures FullMatch(p, s) <==> Glob(p, s)
  {
    if s != [] { assert s[|s| - 1] in s; }
  }

  /** A rule without a separator is one anchored pattern tried against root-level names only. */
  lemma RootRule(name: string, rule: string)
    requires rule != [] && '/' !in rule
    ensures Matches(name, rule) <==> name != [] && '/' !in name && FullMatch(Compile(rule), name)
  {
    Paths.SplitBareName(rule);
    assert CompileRule(rule) == [None, Some(Compile(rule))];
    if '/' !in name {
      Paths.SplitBareName(name);
    }
  }

  /** The rule `*` selects every file directly under the root and nothing in a subdirectory. */
  lemma StarRule(name: string)
    requires '\n' !in name
    ensures Matches(name, "*") <==> name != [] && '/' !in name
  {
    var p := Compile("*");
    assert p == [Star];
    assert Matches(name, "*") <==> name != [] && '/' !in name && FullMatch(p, name) by {
      RootRule(name, "*");
    }
    assert FullMatch(p, name) <==> '\n' !in name by {
      FullMatchWithoutLineFeed(p, name);
      StarMatchesAnyRun(name);
    }
  }

  predicate EndsWithIgnoringCase(s: string, suffix: string) {
    |suffix| <= |s| && forall i :: 0 <= i < |suffix| ==> SameIgnoringCase(suffix[i], s[|s| - |suffix| + i])
  }

  /** The rule `*` + `ext` selects the root-level files whose name ends in `ext`, ignoring case. */
  lemma ExtensionRule(ext: string, name: string)
    requires ext != [] && Literal(ext) && '/' !in ext
    requires '\n' !in name
    ensures Matches(name, "*" + ext) <==> '/' !in name && EndsWithIgnoringCase(name, ext)
  {
    var rule := "*" + ext;
    var p := Compile(rule);
    assert p == [Star] + Compile(ext) by {
      CompileConcat("*", ext);
      assert Compile("*") == [Star];
    }
    assert Matches(name, rule) <==> name != [] && '/' !in name && FullMatch(p, name) by {
      assert '/' !in rule;
      RootRule(name, rule);
    }
    assert FullMatch(p, name) <==> EndsWithIgnoringCase(name, ext) by {
      FullMatchWithoutLineFeed(p, name);
      GlobConcat([Star], Compile(ext), name);
      StarThenLiteral(ext, name);
    }
  }

  /** `*` followed by a literal matches exactly the strings that end in the literal, up to case. */
  lemma StarThenLiteral(ext: string, name: string)
    requires Literal(ext) && '\n' !in name
    ensures (exists i :: 0 <= i <= |name| && Glob([Star], name[..i]) && Glob(Compile(ext), name[i..]))
            <==> EndsWithIgnoringCase(name, ext)
  {
    if exists i :: 0 <= i <= |name| && Glob([Star], name[..i]) && Glob(Compile(ext), name[i..]) {
      var i :| 0 <= i <= |name| && Glob([Star], name[..i]) && Glob(Compile(ext), name[i..]);
      LiteralMatchesItself(ext, name[i..]);
      forall k | 0 <= k < |ext| ensures SameIgnoringCase(ext[k], name[|name| - |ext| + k]) {
        assert name[i..][k] == name[|name| - |ext| + k];
      }
    }
    if EndsWithIgnoringCase(name, ext) {
      var i := |name| - |ext|;
      LiteralMatchesItself(ext, name[i..]);
      StarMatchesAnyRun(name[..i]);
      assert '\n' !in name[..i] by {
        forall k | 0 <= k < i ensures name[..i][k] != '\n' {
          assert name[k] in name;
        }
      }
      assert Glob([Star], name[..i]) && Glob(Compile(ext), name[i..]);
    }
  }

  /** A rule `d/n` with a literal directory `d` matches a path whose whole directory part is `d` up to case and whose name matches `n`. */
  lemma DirectoryRule(d: string, n: string, name: string)
    requires d != [] && d[|d| - 1] != '/' && Literal(d)
    requires n != [] && '/' !in n
    requires '\n' !in name
    ensures var parts := Paths.Split(name);
      Matches(name, d + "/" + n) <==>
        && |parts.0| == |d| && (forall i :: 0 <= i < |d| ==> SameIgnoringCase(d[i], parts.0[i]))
        && parts.1 != [] && FullMatch(Compile(n), parts.1)
  {
    Paths.SplitJoined(d, n);
    var parts := Paths.Split(name);
    if parts.0 != [] {
      assert '\n' !in parts.0;
      FullMatchWithoutLineFeed(Compile(d), parts.0);
      LiteralMatchesItself(d, parts.0);
    }
  }

  /** Without `*`, a pattern only matches strings of its own length: each other token takes one character. */
  lemma {:induction false} FixedLength(p: Pattern, s: string)
    requires Star !in p && Glob(p, s)
    ensures |s| == |p|
    decreases |p|
  {
    if p != [] {
      assert p[0] in p;
      assert Star !in p[1..];
      FixedLength(p[1..], s[1..]);
    }
  }

  /**
   * The class-wide `_regexps` dictionary of `LocalDataset`: rule text to the compiled pair of its
   * parts. One instance is shared by every dataset of the process.
   */
  class RuleCache {
    var regexps: map<string, seq<Option<Pattern>>>

    /** Every entry is the compilation of its own key. */
    ghost predicate Valid()
      reads this
    {
      forall r :: r in regexps ==> regexps[r] == CompileRule(r)
    }

    constructor ()
      ensures Valid() && regexps == map[]
    {
      regexps := map[];
    }

    /**
     * `_match_rule(name, rule)`: compiles and stores the rule on first use, then tests both parts
     * of the name. The answer is the same whatever the cache held, and an entry, once written,
     * never changes.
     */
    method MatchRule(name: string, rule: string) returns (matched: bool)
      requires Valid()
      modifies this
      ensures Valid()
      ensures matched == Matches(name, rule)
      ensures regexps == old(regexps)[rule := CompileRule(rule)]
      ensures rule in old(regexps) ==> regexps == old(regexps)
    {
      if rule !in regexps {
        var compiled := CompileParts(rule);
        regexps := regexps[rule := compiled];
      }
      matched := MatchParts(name, regexps[rule]);
    }
  }

  /** The compilation loop of `_match_rule`: each part of the rule, `None` when it is empty. */
  method CompileParts(rule: string) returns (compiled: seq<Option<Pattern>>)
    ensures compiled == CompileRule(rule)
  {
    var ruleParts := Paths.Split(rule);
    compiled := [];
    for i := 0 to 2
      invariant compiled == CompileRule(rule)[..i]
    {
      var part := if i == 0 then ruleParts.0 else ruleParts.1;
      var regexp := if part != [] then Some(Compile(part)) else None;
      compiled := compiled + [regexp];
    }
  }

  /** The matching loop of `_match_rule`: both parts of the name against the rule's compiled parts. */
  method MatchParts(name: string, entry: seq<Option<Pattern>>) returns (matched: bool)
    requires |entry| == 2
    ensures matched == (PartMatches(entry[0], Paths.Split(name).0) && PartMatches(entry[1], Paths.Split(name).1))
  {
    var parts := Paths.Split(name);
    for i := 0 to 2
      invariant i >= 1 ==> PartMatches(entry[0], parts.0)
      invariant i == 2 ==> PartMatches(entry[1], parts.1)
    {
      var part := if i == 0 then parts.0 else parts.1;
      var regexp := entry[i];
      if part != [] {
        if regexp.None? || !FullMatch(regexp.value, part) {
          return false;
        }
      } else if regexp.Some? {
        return false;
      }
    }
    return true;
  }
}
