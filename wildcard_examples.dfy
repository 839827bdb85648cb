/**
 * Concrete rules from the docstring of the file matcher, each checked against sample paths.
 * The rule and the paths are parameters fixed by the precondition, so that each fact is
 * derived from the general lemmas of the matcher.
 */
module WildcardExamples {
  import Paths
  import opened Wildcard

  /** The first `i` characters end in `lit`, and the rest has no line feed. */
  lemma StarThenLiteralMatch(lit: string, s: string, i: nat)
    requires Literal(lit) && '\n' !in s && i <= |s|
    requires EndsWithIgnoringCase(s[..i], lit)
    ensures FullMatch(([Star] + Compile(lit)) + [Star], s)
  {
    StarThenLiteral(lit, s[..i]);
    GlobConcat([Star], Compile(lit), s[..i]);
    StarMatchesAnyRun(s[i..]);
    assert '\n' !in s[i..] by {
      forall k | 0 <= k < |s| - i ensures s[i..][k] != '\n' {
        assert s[i + k] in s;
      }
    }
    GlobConcatJoin([Star] + Compile(lit), [Star], s, i);
  }

  lemma PlaceholderMatch(s: string)
    requires |s| == 12 && s[..6] == "table_" && s[8..] == ".csv" && s[6] != '\n' && s[7] != '\n'
    ensures FullMatch(Compile("table_") + ([AnyChar, AnyChar] + Compile(".csv")), s)
  {
    var q := [AnyChar, AnyChar] + Compile(".csv");
    LiteralMatchesItself("table_", s[..6]);
    LiteralMatchesItself(".csv", s[8..]);
    assert s[6..][1..][1..] == s[8..];
    assert q[1..][1..] == Compile(".csv");
    assert Glob(q, s[6..]);
    GlobConcatJoin(Compile("table_"), q, s, 6);
  }

  /** `*.pdf` selects root-level files with that extension in any case. */
  lemma PdfRuleMatches(rule: string, ext: string, lower: string, upper: string)
    requires rule == "*.pdf" && ext == ".pdf"
    requires lower == "file.pdf" && upper == "REPORT.PDF"
    ensures Matches(lower, rule) && Matches(upper, rule)
  {
    PdfNameFacts(rule, ext, lower, upper);
    ExtensionRule(ext, lower);
    ExtensionRule(ext, upper);
  }

  lemma PdfNameFacts(rule: string, ext: string, lower: string, upper: string)
    requires rule == "*.pdf" && ext == ".pdf"
    requires lower == "file.pdf" && upper == "REPORT.PDF"
    ensures rule == "*" + ext && ext != [] && Literal(ext) && '/' !in ext
    ensures '/' !in lower && '\n' !in lower && EndsWithIgnoringCase(lower, ext)
    ensures '/' !in upper && '\n' !in upper && EndsWithIgnoringCase(upper, ext)
  {
  }

  /** `*.pdf` does not select a longer extension: the match is anchored at the end. */
  lemma PdfRuleRejectsLongerExtension(rule: string, ext: string, name: string)
    requires rule == "*.pdf" && ext == ".pdf" && name == "report.PDFX"
    ensures !Matches(name, rule)
  {
    assert rule == "*" + ext;
    assert '\n' !in name;
    assert !SameIgnoringCase(ext[0], name[7]);
    ExtensionRule(ext, name);
  }

  /** `*.pdf` does not select a file in a subdirectory. */
  lemma PdfRuleRejectsSubdirectory(rule: string, ext: string, name: string)
    requires rule == "*.pdf" && ext == ".pdf" && name == "docs/file.pdf"
    ensures !Matches(name, rule)
  {
    assert rule == "*" + ext;
    assert '\n' !in name;
    assert name[4] == '/';
    ExtensionRule(ext, name);
  }

  /** `*.xls*` selects `file.xls` and `file.xlsx`. */
  lemma SpreadsheetRuleMatches(rule: string, ext: string, name: string)
    requires rule == "*.xls*" && ext == ".xls"
    requires name == "file.xls" || name == "file.xlsx"
    ensures Matches(name, rule)
  {
    SpreadsheetRuleCompiles(rule, ext);
    SpreadsheetNameFacts(ext, name);
    RootRule(name, rule);
    StarThenLiteralMatch(ext, name, 8);
  }

  lemma SpreadsheetRuleCompiles(rule: string, ext: string)
    requires rule == "*.xls*" && ext == ".xls"
    ensures rule != [] && '/' !in rule
    ensures Compile(rule) == ([Star] + Compile(ext)) + [Star]
  {
    assert rule == ("*" + ext) + "*";
    CompileConcat("*" + ext, "*");
    CompileConcat("*", ext);
    assert Compile("*") == [Star];
  }

  lemma SpreadsheetNameFacts(ext: string, name: string)
    requires ext == ".xls" && (name == "file.xls" || name == "file.xlsx")
    ensures Literal(ext) && name != [] && '/' !in name && '\n' !in name
    ensures 8 <= |name| && EndsWithIgnoringCase(name[..8], ext)
  {
  }

  // `data/*.csv` selects a CSV file directly in `data`, with the directory compared up to case.
  lemma DataRuleMatches(rule: string, name: string, d: string, n: string)
    requires rule == "data/*.csv"
    requires (name, d, n) == ("data/table.csv", "data", "table.csv") || (name, d, n) == ("DATA/results.CSV", "DATA", "results.CSV")
    ensures Matches(name, rule)
  {
    var dir, star, ext := "data", "*.csv", ".csv";
    DataRuleFacts(rule, dir, star, ext);
    DataNameFacts(name, d, n, dir, ext);
    Paths.SplitJoined(d, n);
    ExtensionRule(ext, n);
    RootRule(n, star);
    DirectoryRule(dir, star, name);
  }

  lemma DataRuleFacts(rule: string, dir: string, star: string, ext: string)
    requires rule == "data/*.csv" && dir == "data" && star == "*.csv" && ext == ".csv"
    ensures rule == dir + "/" + star && star == "*" + ext
    ensures dir != [] && dir[|dir| - 1] != '/' && Literal(dir) && star != [] && '/' !in star
    ensures ext != [] && Literal(ext) && '/' !in ext
  {
  }

  lemma DataNameFacts(name: string, d: string, n: string, dir: string, ext: string)
    requires dir == "data" && ext == ".csv"
    requires (name, d, n) == ("data/table.csv", "data", "table.csv") || (name, d, n) == ("DATA/results.CSV", "DATA", "results.CSV")
    ensures name == d + "/" + n && '\n' !in name && '\n' !in n && '/' !in n && n != []
    ensures d != [] && d[|d| - 1] != '/'
    ensures |d| == |dir| && forall i :: 0 <= i < |dir| ==> SameIgnoringCase(dir[i], d[i])
    ensures EndsWithIgnoringCase(n, ext)
  {
    if name == "data/table.csv" {
      LowerNameFacts(name, d, n, dir, ext);
    } else {
      UpperNameFacts(name, d, n, dir, ext);
    }
  }

  lemma LowerNameFacts(name: string, d: string, n: string, dir: string, ext: string)
    requires dir == "data" && ext == ".csv"
    requires name == "data/table.csv" && d == "data" && n == "table.csv"
    ensures name == d + "/" + n && '\n' !in name && '\n' !in n && '/' !in n && n != []
    ensures d != [] && d[|d| - 1] != '/'
    ensures |d| == |dir| && forall i :: 0 <= i < |dir| ==> SameIgnoringCase(dir[i], d[i])
    ensures EndsWithIgnoringCase(n, ext)
  {
  }

  lemma UpperNameFacts(name: string, d: string, n: string, dir: string, ext: string)
    requires dir == "data" && ext == ".csv"
    requires name == "DATA/results.CSV" && d == "DATA" && n == "results.CSV"
    ensures name == d + "/" + n && '\n' !in name && '\n' !in n && '/' !in n && n != []
    ensures d != [] && d[|d| - 1] != '/'
    ensures |d| == |dir| && forall i :: 0 <= i < |dir| ==> SameIgnoringCase(dir[i], d[i])
    ensures EndsWithIgnoringCase(n, ext)
  {
  }

  // `data/*.csv` does not select a file in a subdirectory of `data`.
  lemma DataRuleRejectsDeeper(rule: string, name: string, d: string, n: string)
    requires rule == "data/*.csv"
    requires name == "data/sub/table.csv" && d == "data/sub" && n == "table.csv"
    ensures !Matches(name, rule)
  {
    var dir, star := "data", "*.csv";
    DeeperFacts(rule, name, d, n, dir, star);
    Paths.SplitJoined(d, n);
    DirectoryRule(dir, star, name);
  }

  lemma DeeperFacts(rule: string, name: string, d: string, n: string, dir: string, star: string)
    requires rule == "data/*.csv" && dir == "data" && star == "*.csv"
    requires name == "data/sub/table.csv" && d == "data/sub" && n == "table.csv"
    ensures rule == dir + "/" + star && name == d + "/" + n
    ensures dir != [] && dir[|dir| - 1] != '/' && Literal(dir) && star != [] && '/' !in star
    ensures '\n' !in name && '/' !in n && n != [] && d != [] && d[|d| - 1] != '/' && |d| != |dir|
  {
  }

  // `data/*.csv` does not select a root-level file.
  lemma DataRuleRejectsRoot(rule: string, name: string)
    requires rule == "data/*.csv" && name == "table.csv"
    ensures !Matches(name, rule)
  {
    assert '/' !in name by {
      RootNameFacts(name);
    }
    Paths.SplitBareName(name);
    assert rule[4] == '/';
  }

  lemma RootNameFacts(name: string)
    requires name == "table.csv"
    ensures '/' !in name
  {
  }

  /** `table_??.csv` selects `table_` followed by exactly two characters and `.csv`. */
  lemma PlaceholderRuleMatches(rule: string, name: string)
    requires rule == "table_??.csv"
    requires name == "table_01.csv" || name == "table_a5.csv"
    ensures Matches(name, rule)
  {
    var prefix, ext := "table_", ".csv";
    assert Compile(rule) == Compile(prefix) + ([AnyChar, AnyChar] + Compile(ext)) by {
      assert rule == prefix + ("??" + ext);
      CompileConcat(prefix, "??" + ext);
      CompileConcat("??", ext);
      assert Compile("??") == [AnyChar, AnyChar];
    }
    assert rule != [] && '/' !in rule && '/' !in name;
    assert |name| == 12 && name[..6] == prefix && name[8..] == ext && name[6] != '\n' && name[7] != '\n';
    PlaceholderMatch(name);
    RootRule(name, rule);
  }

  /** `table_??.csv` does not select a name with one character in place of the two. */
  lemma PlaceholderRuleRejectsShort(rule: string, name: string)
    requires rule == "table_??.csv" && name == "table_1.csv"
    ensures !Matches(name, rule)
  {
    var p := Compile(rule);
    assert rule != [] && '/' !in rule && '\n' !in name;
    assert Star !in p by {
      assert forall i :: 0 <= i < |rule| ==> rule[i] != '*';
    }
    RootRule(name, rule);
    if FullMatch(p, name) {
      FullMatchWithoutLineFeed(p, name);
      FixedLength(p, name);
    }
  }

  /** A pattern without `*` pairs its `k`-th token with the `k`-th character; a literal token must agree up to case. */
  lemma {:induction false} LiteralTokenAt(p: Pattern, s: string, k: nat)
    requires Star !in p && Glob(p, s) && k < |p| && p[k].Lit?
    ensures k < |s| && SameIgnoringCase(p[k].c, s[k])
    decreases k
  {
    assert p[0] in p;
    if k > 0 {
      assert Star !in p[1..];
      LiteralTokenAt(p[1..], s[1..], k - 1);
    }
  }

  /**
   * The docstring spells the placeholder rule `table_??.cvs`; written that way it rejects the
   * docstring's own example `table_01.csv`, which only the `.csv` spelling selects.
   */
  lemma DocstringRuleRejectsExample(rule: string, name: string)
    requires rule == "table_??.cvs" && name == "table_01.csv"
    ensures !Matches(name, rule)
  {
    var p := Compile(rule);
    DocstringFacts(rule, name);
    RootRule(name, rule);
    FullMatchWithoutLineFeed(p, name);
    if Glob(p, name) {
      LiteralTokenAt(p, name, 10);
    }
  }

  lemma DocstringFacts(rule: string, name: string)
    requires rule == "table_??.cvs" && name == "table_01.csv"
    ensures rule != [] && '/' !in rule && '\n' !in name
    ensures Star !in Compile(rule) && 10 < |rule| && Compile(rule)[10] == Lit('v')
    ensures 10 < |name| && !SameIgnoringCase('v', name[10])
  {
  }

  // `data/*/*.csv` selects a CSV file one directory below `data`.
  lemma NestedDirectoryRuleMatches(rule: string, name: string)
    requires rule == "data/*/*.csv" && name == "data/set1/results.csv"
    ensures Matches(name, rule)
  {
    var dir, star, ext := "data/*", "*.csv", ".csv";
    var d, n := "data/set1", "results.csv";
    NestedFacts(rule, name, dir, star, ext, d, n);
    Paths.SplitJoined(dir, star);
    Paths.SplitJoined(d, n);
    NestedDirectoryMatches(dir, d);
    ExtensionRule(ext, n);
    RootRule(n, star);
  }

  lemma NestedFacts(rule: string, name: string, dir: string, star: string, ext: string, d: string, n: string)
    requires rule == "data/*/*.csv" && name == "data/set1/results.csv"
    requires dir == "data/*" && star == "*.csv" && ext == ".csv" && d == "data/set1" && n == "results.csv"
    ensures rule == dir + "/" + star && name == d + "/" + n && star == "*" + ext
    ensures '/' !in star && dir != [] && dir[|dir| - 1] != '/' && star != []
    ensures '/' !in n && d != [] && d[|d| - 1] != '/'
    ensures ext != [] && Literal(ext) && '/' !in ext && '\n' !in n && EndsWithIgnoringCase(n, ext)
  {
  }

  lemma NestedDirectoryMatches(dir: string, d: string)
    requires dir == "data/*" && d == "data/set1"
    ensures FullMatch(Compile(dir), d)
  {
    var lit, rest := "data/", "set1";
    assert dir == lit + "*" && d == lit + rest;
    CompileConcat(lit, "*");
    assert Compile("*") == [Star];
    LiteralMatchesItself(lit, lit);
    StarMatchesAnyRun(rest);
    assert d[..5] == lit && d[5..] == rest;
    GlobConcatJoin(Compile(lit), [Star], d, 5);
  }
}
