/**
 * The dataset directory as a tree, the breadth-first order in which `_get_files` lists it, and
 * the rule that decides which listed files belong to the dataset.
 */
module FileTree {
  import opened Wrappers
  import opened Values
  import Paths
  import Wildcard
  import opened HashCache
  import opened Datasets
  import opened Seqs

  /** An entry of a directory listing, in `os.listdir` order. */
  datatype Entry =
    | FileEntry(name: string, stat: Stat)
    | DirEntry(name: string, children: seq<Entry>)

  /** A directory in the `dirs` queue: its path relative to the dataset root and its entries. */
  datatype QueuedDir = QueuedDir(path: string, children: seq<Entry>)

  /** A file reached by the walk: its path relative to the dataset root and its live stat. */
  datatype Found = Found(path: string, stat: Stat)

  function EntrySize(e: Entry): nat
    decreases e, 1
  {
    match e
    case FileEntry(_, _) => 1
    case DirEntry(_, children) => 1 + EntriesSize(children)
  }

  function EntriesSize(es: seq<Entry>): nat
    decreases es, 0
  {
    if es == [] then 0 else EntriesSize(es[..|es| - 1]) + EntrySize(es[|es| - 1])
  }

  function QueueSize(q: seq<QueuedDir>): nat
    decreases |q|
  {
    if q == [] then 0 else QueueSize(q[..|q| - 1]) + 1 + EntriesSize(q[|q| - 1].children)
  }

  /** The files directly in a directory, in listing order. */
  function FilesIn(path: string, es: seq<Entry>): seq<Found>
    decreases |es|
  {
    if es == [] then []
    else
      var e := es[|es| - 1];
      FilesIn(path, es[..|es| - 1]) + if e.FileEntry? then [Found(Paths.Join(path, e.name), e.stat)] else []
  }

  /** The subdirectories of a directory, queued in listing order. */
  function SubdirsOf(path: string, es: seq<Entry>): seq<QueuedDir>
    decreases |es|
  {
    if es == [] then []
    else
      var e := es[|es| - 1];
      SubdirsOf(path, es[..|es| - 1]) + if e.DirEntry? then [QueuedDir(Paths.Join(path, e.name), e.children)] else []
  }

  lemma {:induction false} FilesInConcat(path: string, a: seq<Entry>, b: seq<Entry>)
    ensures FilesIn(path, a + b) == FilesIn(path, a) + FilesIn(path, b)
    decreases |b|
  {
    if b == [] {
      assert a + b == a;
    } else {
      ConcatInit(a, b);
      FilesInConcat(path, a, b[..|b| - 1]);
    }
  }

  lemma {:induction false} QueueSizeConcat(a: seq<QueuedDir>, b: seq<QueuedDir>)
    ensures QueueSize(a + b) == QueueSize(a) + QueueSize(b)
    decreases |b|
  {
    if b == [] {
      assert a + b == a;
    } else {
      ConcatInit(a, b);
      QueueSizeConcat(a, b[..|b| - 1]);
    }
  }

  lemma {:induction false} SubdirsSmaller(path: string, es: seq<Entry>)
    ensures QueueSize(SubdirsOf(path, es)) <= EntriesSize(es)
    decreases |es|
  {
    if es != [] {
      var e := es[|es| - 1];
      SubdirsSmaller(path, es[..|es| - 1]);
      var tail := if e.DirEntry? then [QueuedDir(Paths.Join(path, e.name), e.children)] else [];
      QueueSizeConcat(SubdirsOf(path, es[..|es| - 1]), tail);
      if e.DirEntry? {
        assert QueueSize(tail) == QueueSize([]) + 1 + EntriesSize(e.children) by {
          assert tail[..0] == [];
        }
      }
    }
  }

  /** Popping a directory and queueing its subdirectories shrinks the work left. */
  lemma QueueShrinks(q: seq<QueuedDir>)
    requires q != []
    ensures QueueSize(q[1..] + SubdirsOf(q[0].path, q[0].children)) < QueueSize(q)
  {
    var d := q[0];
    QueueSizeConcat([d], q[1..]);
    assert [d] + q[1..] == q;
    assert QueueSize([d]) == 1 + EntriesSize(d.children) by {
      assert [d][..0] == [];
    }
    QueueSizeConcat(q[1..], SubdirsOf(d.path, d.children));
    SubdirsSmaller(d.path, d.children);
  }

  /** The `while dirs` loop: pop the first directory, list its files, queue its subdirectories. */
  function Listing(q: seq<QueuedDir>): seq<Found>
    decreases QueueSize(q)
  {
    if q == [] then []
    else
      QueueShrinks(q);
      FilesIn(q[0].path, q[0].children) + Listing(q[1..] + SubdirsOf(q[0].path, q[0].children))
  }

  /** The files below a directory, depth first: an independent account of what the walk reaches. */
  function TreeFiles(path: string, es: seq<Entry>): seq<Found>
    decreases es, 0
  {
    if es == [] then [] else TreeFiles(path, es[..|es| - 1]) + EntryFiles(path, es[|es| - 1])
  }

  function EntryFiles(path: string, e: Entry): seq<Found>
    decreases e, 1
  {
    match e
    case FileEntry(name, stat) => [Found(Paths.Join(path, name), stat)]
    case DirEntry(name, children) => TreeFiles(Paths.Join(path, name), children)
  }

  function QueueFiles(q: seq<QueuedDir>): seq<Found>
    decreases |q|
  {
    if q == [] then [] else QueueFiles(q[..|q| - 1]) + TreeFiles(q[|q| - 1].path, q[|q| - 1].children)
  }

  lemma {:induction false} QueueFilesConcat(a: seq<QueuedDir>, b: seq<QueuedDir>)
    ensures QueueFiles(a + b) == QueueFiles(a) + QueueFiles(b)
    decreases |b|
  {
    if b == [] {
      assert a + b == a;
    } else {
      var init := b[..|b| - 1];
      var last := b[|b| - 1];
      ConcatInit(a, b);
      QueueFilesConcat(a, init);
      calc {
        QueueFiles(a + b);
        QueueFiles(a + init) + TreeFiles(last.path, last.children);
        QueueFiles(a) + QueueFiles(init) + TreeFiles(last.path, last.children);
        QueueFiles(a) + QueueFiles(b);
      }
    }
  }

  /** A directory's files are its direct files together with the files of its subdirectories. */
  lemma {:induction false} TreeSplit(path: string, es: seq<Entry>)
    ensures multiset(TreeFiles(path, es)) == multiset(FilesIn(path, es)) + multiset(QueueFiles(SubdirsOf(path, es)))
    decreases |es|
  {
    if es != [] {
      var init := es[..|es| - 1];
      var e := es[|es| - 1];
      TreeSplit(path, init);
      assert TreeFiles(path, es) == TreeFiles(path, init) + EntryFiles(path, e);
      match e
      case FileEntry(name, stat) =>
        assert FilesIn(path, es) == FilesIn(path, init) + [Found(Paths.Join(path, name), stat)];
        assert SubdirsOf(path, es) == SubdirsOf(path, init);
      case DirEntry(name, children) =>
        var d := QueuedDir(Paths.Join(path, name), children);
        assert FilesIn(path, es) == FilesIn(path, init);
        assert SubdirsOf(path, es) == SubdirsOf(path, init) + [d];
        QueueFilesConcat(SubdirsOf(path, init), [d]);
        assert QueueFiles([d]) == TreeFiles(d.path, d.children) by {
          assert [d][..0] == [];
        }
        assert EntryFiles(path, e) == TreeFiles(d.path, d.children);
    }
  }

  /** Breadth first or depth first, the walk lists the same files: every reachable directory is visited. */
  lemma {:induction false} ListingReachesAll(q: seq<QueuedDir>)
    ensures multiset(Listing(q)) == multiset(QueueFiles(q))
    decreases QueueSize(q)
  {
    if q != [] {
      var d := q[0];
      var next := q[1..] + SubdirsOf(d.path, d.children);
      ListingStep(q);
      QueueShrinks(q);
      ListingReachesAll(next);
      QueueFilesConcat(q[1..], SubdirsOf(d.path, d.children));
      TreeSplit(d.path, d.children);
      QueueFilesCons(q);
    }
  }

  lemma ListingStep(q: seq<QueuedDir>)
    requires q != []
    ensures Listing(q) == FilesIn(q[0].path, q[0].children) + Listing(q[1..] + SubdirsOf(q[0].path, q[0].children))
  {
  }

  lemma QueueFilesCons(q: seq<QueuedDir>)
    requires q != []
    ensures QueueFiles(q) == TreeFiles(q[0].path, q[0].children) + QueueFiles(q[1..])
  {
    var d := q[0];
    QueueFilesConcat([d], q[1..]);
    assert [d] + q[1..] == q;
    assert QueueFiles([d]) == TreeFiles(d.path, d.children) by {
      assert [d][..0] == [];
    }
  }

  /** The walk from the dataset root lists exactly the files of the tree, each as often as it occurs. */
  lemma WalkListsTree(root: seq<Entry>)
    ensures multiset(Listing([QueuedDir("", root)])) == multiset(TreeFiles("", root))
  {
    ListingReachesAll([QueuedDir("", root)]);
    assert [QueuedDir("", root)][..0] == [];
  }

  /**
   * `any(_match_rule(path, rule) for rule in rules)` with the loop's early `break`: rules are
   * tried in order, and one that is not a string raises `TypeError` when it is reached.
   */
  function ListMatches(path: string, items: seq<Value>): Result<bool>
    decreases |items|
  {
    if items == [] then Ok(false)
    else if !items[0].VStr? then Err(TypeError)
    else if Wildcard.Matches(path, items[0].s) then Ok(true)
    else ListMatches(path, items[1..])
  }

  /** The `i`-th character of a string of rules, taken as a rule of its own, matches `path`. */
  predicate CharRuleMatches(path: string, s: string, i: nat)
    requires i < |s|
  {
    Wildcard.Matches(path, [s[i]])
  }

  /** A rule, on its own, matches `path`. */
  predicate RuleMatches(path: string, k: string) {
    Wildcard.Matches(path, k)
  }

  /**
   * The rule loop over any value the manifest may hold: a list is tried in order, a string rule
   * by rule one character at a time, a mapping by its keys; other values are not iterable.
   */
  function AnyRuleMatches(path: string, rules: Value): Result<bool> {
    match rules
    case VList(items) => ListMatches(path, items)
    case VStr(s) => Ok(exists i :: 0 <= i < |s| && CharRuleMatches(path, s, i))
    case VMap(fields) => Ok(exists k {:trigger RuleMatches(path, k)} :: k in fields && RuleMatches(path, k))
    case _ => Err(TypeError)
  }

  /** The per-file test of `_get_files`: not the manifest, some include rule, no exclude rule. */
  function Keep(path: string, manifestName: string, includes: Value, excludes: Value): Result<bool> {
    if path == manifestName || !Truthy(includes) then Ok(false)
    else
      var included :- AnyRuleMatches(path, includes);
      if !included then Ok(false)
      else if !Truthy(excludes) then Ok(true)
      else
        var excluded :- AnyRuleMatches(path, excludes);
        Ok(!excluded)
  }

  /** The file record of a kept file, with the cached hash attached under the cache rule. */
  function FileFor(f: Found, md5s: Table): File {
    File(f.path, f.stat.size, CachedMd5(if f.path in md5s then Some(md5s[f.path]) else None, f.stat))
  }

  /** The outcome for one listed file: dropped, kept with its record, or the error its rules raise. */
  function Decide(f: Found, manifestName: string, includes: Value, excludes: Value, md5s: Table): Result<Option<File>> {
    var keep :- Keep(f.path, manifestName, includes, excludes);
    Ok(if keep then Some(FileFor(f, md5s)) else None)
  }

  /** The `files` list `_get_files` builds from the listed files, or the first error raised. */
  function Enumerate(found: seq<Found>, manifestName: string, includes: Value, excludes: Value, md5s: Table): Result<seq<File>>
    decreases |found|
  {
    if found == [] then Ok([])
    else
      var files :- Enumerate(found[..|found| - 1], manifestName, includes, excludes, md5s);
      var d :- Decide(found[|found| - 1], manifestName, includes, excludes, md5s);
      Ok(if d.Some? then files + [d.value] else files)
  }

  /** An error stops the walk: whatever is listed after it, the outcome is that error. */
  lemma {:induction false} EnumerateStopsAtError(found: seq<Found>, more: seq<Found>, manifestName: string, includes: Value, excludes: Value, md5s: Table)
    requires Enumerate(found, manifestName, includes, excludes, md5s).Err?
    ensures Enumerate(found + more, manifestName, includes, excludes, md5s) == Enumerate(found, manifestName, includes, excludes, md5s)
    decreases |more|
  {
    if more == [] {
      assert found + more == found;
    } else {
      var init := more[..|more| - 1];
      EnumerateStopsAtError(found, init, manifestName, includes, excludes, md5s);
      var all := found + more;
      ConcatInit(found, more);
      assert Enumerate(all[..|all| - 1], manifestName, includes, excludes, md5s).Err?;
    }
  }

  /** Listing one more entry of a directory. */
  lemma ScanStep(path: string, es: seq<Entry>, j: nat)
    requires j < |es|
    ensures FilesIn(path, es[..j + 1]) == FilesIn(path, es[..j]) + if es[j].FileEntry? then [Found(Paths.Join(path, es[j].name), es[j].stat)] else []
    ensures SubdirsOf(path, es[..j + 1]) == SubdirsOf(path, es[..j]) + if es[j].DirEntry? then [QueuedDir(Paths.Join(path, es[j].name), es[j].children)] else []
  {
    assert es[..j + 1][..j] == es[..j];
  }

  /** Deciding one more listed file. */
  lemma EnumerateSnoc(found: seq<Found>, f: Found, manifestName: string, includes: Value, excludes: Value, md5s: Table, files: seq<File>)
    requires Enumerate(found, manifestName, includes, excludes, md5s) == Ok(files)
    ensures var d := Decide(f, manifestName, includes, excludes, md5s);
      Enumerate(found + [f], manifestName, includes, excludes, md5s)
        == if d.Err? then Err(d.error) else Ok(if d.value.Some? then files + [d.value.value] else files)
  {
    assert (found + [f])[..|found|] == found;
  }

  /** A file of a directory whose decision fails makes the whole directory's outcome that failure. */
  lemma ScanFails(path: string, es: seq<Entry>, j: nat, before: seq<Found>, f: Found, manifestName: string, includes: Value, excludes: Value, md5s: Table)
    requires j < |es| && es[j].FileEntry? && f == Found(Paths.Join(path, es[j].name), es[j].stat)
    requires Enumerate(before + FilesIn(path, es[..j]) + [f], manifestName, includes, excludes, md5s).Err?
    ensures Enumerate(before + FilesIn(path, es), manifestName, includes, excludes, md5s)
         == Enumerate(before + FilesIn(path, es[..j]) + [f], manifestName, includes, excludes, md5s)
  {
    var upTo := before + FilesIn(path, es[..j]) + [f];
    var rest := FilesIn(path, es[j + 1..]);
    FilesAround(path, es, j);
    assert before + FilesIn(path, es) == upTo + rest;
    EnumerateStopsAtError(upTo, rest, manifestName, includes, excludes, md5s);
  }

  /** The files of a directory: those before the `j`th entry, its own, and those after it. */
  lemma FilesAround(path: string, es: seq<Entry>, j: nat)
    requires j < |es|
    ensures FilesIn(path, es) == FilesIn(path, es[..j]) + FilesIn(path, [es[j]]) + FilesIn(path, es[j + 1..])
  {
    ScanStep(path, es, j);
    FilesInConcat(path, es[..j + 1], es[j + 1..]);
    TakeDrop(es, j + 1);
    assert FilesIn(path, [es[j]]) == FilesIn(path, []) + if es[j].FileEntry? then [Found(Paths.Join(path, es[j].name), es[j].stat)] else [] by {
      assert [es[j]][..0] == [];
    }
  }

  /** Rules given as a list of strings. */
  function RuleList(rules: seq<string>): (r: Value)
    ensures r.VList? && |r.items| == |rules| && forall i :: 0 <= i < |rules| ==> r.items[i] == VStr(rules[i])
  {
    VList(seq(|rules|, i requires 0 <= i < |rules| => VStr(rules[i])))
  }

  /** Some rule of the list matches `path`. */
  predicate SomeRule(path: string, rules: seq<string>) {
    exists i :: 0 <= i < |rules| && RuleMatches(path, rules[i])
  }

  /** A list of rules has a match iff its first rule or one of the others does. */
  lemma SomeRuleCons(path: string, rules: seq<string>)
    requires rules != []
    ensures SomeRule(path, rules) <==> RuleMatches(path, rules[0]) || SomeRule(path, rules[1..])
  {
    if SomeRule(path, rules[1..]) {
      var i :| 0 <= i < |rules| - 1 && RuleMatches(path, rules[1..][i]);
      assert rules[1..][i] == rules[i + 1];
    }
    if SomeRule(path, rules) {
      var i :| 0 <= i < |rules| && RuleMatches(path, rules[i]);
      if i > 0 {
        assert rules[1..][i - 1] == rules[i];
      }
    }
  }

  lemma {:induction false} ListMatchesStrings(path: string, rules: seq<string>)
    ensures ListMatches(path, RuleList(rules).items) == Ok(SomeRule(path, rules))
    decreases |rules|
  {
    if rules != [] {
      ListMatchesStrings(path, rules[1..]);
      assert RuleList(rules).items[1..] == RuleList(rules[1..]).items;
      SomeRuleCons(path, rules);
    }
  }

  /**
   * With string rule lists, a file is kept iff it is not the manifest, the include list is
   * non-empty, some include rule matches its path and no exclude rule does.
   */
  lemma SelectionRule(path: string, manifestName: string, includes: seq<string>, excludes: seq<string>)
    ensures Keep(path, manifestName, RuleList(includes), RuleList(excludes)) == Ok(
      path != manifestName && includes != [] && SomeRule(path, includes) && !SomeRule(path, excludes))
  {
    ListMatchesStrings(path, includes);
    ListMatchesStrings(path, excludes);
  }

  /** An empty include list keeps nothing, whatever the excludes. */
  lemma EmptyIncludesKeepNothing(found: seq<Found>, manifestName: string, includes: Value, excludes: Value, md5s: Table)
    requires !Truthy(includes)
    ensures Enumerate(found, manifestName, includes, excludes, md5s) == Ok([])
    decreases |found|
  {
    if found != [] {
      EmptyIncludesKeepNothing(found[..|found| - 1], manifestName, includes, excludes, md5s);
    }
  }

  /** The listed file `x` passes the test and `f` is its record. */
  predicate KeptAs(f: File, x: Found, manifestName: string, includes: Value, excludes: Value, md5s: Table) {
    Keep(x.path, manifestName, includes, excludes) == Ok(true) && f == FileFor(x, md5s)
  }

  /** Some listed file passes the test and `f` is its record. */
  predicate KeptFrom(f: File, found: seq<Found>, manifestName: string, includes: Value, excludes: Value, md5s: Table) {
    exists x :: x in found && KeptAs(f, x, manifestName, includes, excludes, md5s)
  }

  lemma KeptFromSnoc(f: File, found: seq<Found>, manifestName: string, includes: Value, excludes: Value, md5s: Table)
    requires found != []
    ensures KeptFrom(f, found, manifestName, includes, excludes, md5s) <==>
      KeptFrom(f, found[..|found| - 1], manifestName, includes, excludes, md5s) || KeptAs(f, found[|found| - 1], manifestName, includes, excludes, md5s)
  {
    assert found == found[..|found| - 1] + [found[|found| - 1]];
  }

  /** The files kept from a non-empty listing: those kept before the last listed file, and that one if it passes. */
  lemma EnumerateLast(found: seq<Found>, manifestName: string, includes: Value, excludes: Value, md5s: Table)
    requires found != [] && Enumerate(found, manifestName, includes, excludes, md5s).Ok?
    ensures Enumerate(found[..|found| - 1], manifestName, includes, excludes, md5s).Ok?
    ensures Keep(found[|found| - 1].path, manifestName, includes, excludes).Ok?
    ensures forall f :: f in Enumerate(found, manifestName, includes, excludes, md5s).value <==>
      f in Enumerate(found[..|found| - 1], manifestName, includes, excludes, md5s).value
      || KeptAs(f, found[|found| - 1], manifestName, includes, excludes, md5s)
  {
    var n := |found| - 1;
    var before := Enumerate(found[..n], manifestName, includes, excludes, md5s).value;
    var d := Decide(found[n], manifestName, includes, excludes, md5s);
    var after := Enumerate(found, manifestName, includes, excludes, md5s).value;
    assert d.Ok? && after == if d.value.Some? then before + [d.value.value] else before;
    forall f
      ensures KeptAs(f, found[n], manifestName, includes, excludes, md5s) <==> d.value == Some(f)
    {
    }
  }

  /** The kept files are exactly the listed files that pass the test, in listing order. */
  lemma {:induction false} EnumerateKeeps(found: seq<Found>, manifestName: string, includes: Value, excludes: Value, md5s: Table)
    requires Enumerate(found, manifestName, includes, excludes, md5s).Ok?
    ensures forall i :: 0 <= i < |found| ==> Keep(found[i].path, manifestName, includes, excludes).Ok?
    ensures forall f :: f in Enumerate(found, manifestName, includes, excludes, md5s).value <==>
      KeptFrom(f, found, manifestName, includes, excludes, md5s)
    decreases |found|
  {
    if found != [] {
      var init := found[..|found| - 1];
      EnumerateLast(found, manifestName, includes, excludes, md5s);
      EnumerateKeeps(init, manifestName, includes, excludes, md5s);
      assert forall i :: 0 <= i < |init| ==> found[i] == init[i];
      forall f
        ensures f in Enumerate(found, manifestName, includes, excludes, md5s).value <==>
          KeptFrom(f, found, manifestName, includes, excludes, md5s)
      {
        KeptFromSnoc(f, found, manifestName, includes, excludes, md5s);
      }
    }
  }
}
