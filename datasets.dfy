/**
 * The generic parts of the `Dataset` base class: files, the path-keyed file map built from a file
 * list, the first-match lookup, and the comparison of two file maps.
 */
module Datasets {
  import opened Wrappers
  import opened PyDict
  import opened Seqs

  /** A file of a dataset: its path relative to the dataset, its size and its hash if known. */
  datatype File = File(path: string, size: nat, md5: Option<string>)

  function PathsOf(files: seq<File>): (r: seq<string>)
    ensures |r| == |files| && forall i :: 0 <= i < |files| ==> r[i] == files[i].path
  {
    seq(|files|, i requires 0 <= i < |files| => files[i].path)
  }

  /** The distinct elements of `s`, in the order of their first occurrence. */
  function FirstOccurrences(s: seq<string>): (r: seq<string>)
    ensures forall x :: x in r <==> x in s
    decreases |s|
  {
    if s == [] then []
    else
      var init := FirstOccurrences(s[..|s| - 1]);
      var last := s[|s| - 1];
      assert forall x :: x in s <==> x in s[..|s| - 1] || x == last by {
        assert s == s[..|s| - 1] + [last];
      }
      if last in init then init else init + [last]
  }

  /** `files[file.path] = file` for each file in turn, starting from `{}`. */
  function IndexByPath(files: seq<File>): Dict<string, File>
    decreases |files|
  {
    if files == [] then Empty()
    else
      var last := files[|files| - 1];
      Put(IndexByPath(files[..|files| - 1]), last.path, last)
  }

  /** The map holds each path once, in the order in which the paths first appear. */
  lemma {:induction false} IndexKeys(files: seq<File>)
    ensures IndexByPath(files).keys == FirstOccurrences(PathsOf(files))
    decreases |files|
  {
    if files != [] {
      var init := files[..|files| - 1];
      IndexKeys(init);
      assert PathsOf(files)[..|files| - 1] == PathsOf(init);
    }
  }

  /** The file stored for a path is the last file with that path. */
  lemma {:induction false} IndexLastWins(files: seq<File>, i: nat)
    requires i < |files| && forall j :: i < j < |files| ==> files[j].path != files[i].path
    ensures files[i].path in IndexByPath(files).vals
    ensures IndexByPath(files).vals[files[i].path] == files[i]
    decreases |files|
  {
    var init := files[..|files| - 1];
    if i < |files| - 1 {
      assert init[i] == files[i];
      IndexLastWins(init, i);
    }
  }

  /** Every stored file is one of the listed files. */
  lemma {:induction false} IndexValuesListed(files: seq<File>, p: string)
    requires p in IndexByPath(files).vals
    ensures IndexByPath(files).vals[p] in files && IndexByPath(files).vals[p].path == p
    decreases |files|
  {
    var init := files[..|files| - 1];
    if p != files[|files| - 1].path {
      IndexValuesListed(init, p);
    }
  }

  /** The first file of `files` that `matches(file, val)` accepts. */
  function FirstMatching(files: seq<File>, val: string, matches: (File, string) -> bool): (r: Option<File>)
    ensures r.None? <==> forall i :: 0 <= i < |files| ==> !matches(files[i], val)
    ensures r.Some? ==> exists i :: 0 <= i < |files| && files[i] == r.value && matches(r.value, val)
                                    && forall j :: 0 <= j < i ==> !matches(files[j], val)
    decreases |files|
  {
    if files == [] then None
    else if matches(files[0], val) then Some(files[0])
    else
      var r := FirstMatching(files[1..], val, matches);
      assert forall i :: 1 <= i < |files| ==> files[i] == files[1..][i - 1];
      if r.Some? then
        assert exists i :: 1 <= i < |files| && files[i] == r.value && matches(r.value, val)
                           && forall j :: 0 <= j < i ==> !matches(files[j], val) by {
          var k :| 0 <= k < |files| - 1 && files[1..][k] == r.value && matches(r.value, val)
                   && forall j :: 0 <= j < k ==> !matches(files[1..][j], val);
          assert files[k + 1] == r.value;
          assert forall j :: 1 <= j < k + 1 ==> files[j] == files[1..][j - 1];
        }
        r
      else r
  }

  /** One entry of a file comparison. */
  datatype Change =
    | Add(path: string, file: File)
    | Modify(path: string, file: File, otherFile: File)
    | Remove(path: string, otherFile: File)

  /** Two files with the same path are the same when their sizes and hashes agree. */
  predicate SameContent(a: File, b: File) {
    a.size == b.size && a.md5 == b.md5
  }

  /** The first loop of `diff_files`, over the paths `keys` of this dataset's map `files`. */
  function AddsAndModifies(keys: seq<string>, files: map<string, File>, other: map<string, File>): seq<Change>
    requires forall k :: k in keys ==> k in files
    decreases |keys|
  {
    if keys == [] then []
    else
      var init := AddsAndModifies(keys[..|keys| - 1], files, other);
      var p := keys[|keys| - 1];
      if p !in other then init + [Add(p, files[p])]
      else if SameContent(files[p], other[p]) then init
      else init + [Modify(p, files[p], other[p])]
  }

  /** The second loop of `diff_files`, over the paths `keys` of the other dataset's map. */
  function Removes(keys: seq<string>, files: map<string, File>, other: map<string, File>): seq<Change>
    requires forall k :: k in keys ==> k in other
    decreases |keys|
  {
    if keys == [] then []
    else
      var init := Removes(keys[..|keys| - 1], files, other);
      var p := keys[|keys| - 1];
      if p in files then init else init + [Remove(p, other[p])]
  }

  /** `diff_files`: additions and modifications in this map's order, then removals in the other's. */
  function Diff(files: Dict<string, File>, other: Dict<string, File>): seq<Change> {
    AddsAndModifies(files.keys, files.vals, other.vals) + Removes(other.keys, files.vals, other.vals)
  }

  /** The change a path should get, if any. */
  predicate Expected(c: Change, files: map<string, File>, other: map<string, File>) {
    match c
    case Add(p, f) => p in files && p !in other && f == files[p]
    case Modify(p, f, g) => p in files && p in other && f == files[p] && g == other[p] && !SameContent(f, g)
    case Remove(p, g) => p !in files && p in other && g == other[p]
  }

  lemma {:induction false} AddsAndModifiesExactly(keys: seq<string>, files: map<string, File>, other: map<string, File>)
    requires forall k :: k in keys ==> k in files
    ensures forall c :: c in AddsAndModifies(keys, files, other) <==> !c.Remove? && c.path in keys && Expected(c, files, other)
    decreases |keys|
  {
    if keys != [] {
      var init := keys[..|keys| - 1];
      AddsAndModifiesExactly(init, files, other);
      assert keys == init + [keys[|keys| - 1]];
    }
  }

  lemma {:induction false} RemovesExactly(keys: seq<string>, files: map<string, File>, other: map<string, File>)
    requires forall k :: k in keys ==> k in other
    ensures forall c :: c in Removes(keys, files, other) <==> c.Remove? && c.path in keys && Expected(c, files, other)
    decreases |keys|
  {
    if keys != [] {
      var init := keys[..|keys| - 1];
      RemovesExactly(init, files, other);
      assert keys == init + [keys[|keys| - 1]];
    }
  }

  /**
   * A path in both maps with equal size and hash gets no entry, one that differs is a modify, a
   * path only here is an add and a path only in the other map is a remove.
   */
  lemma DiffClassifies(files: Dict<string, File>, other: Dict<string, File>)
    ensures forall c :: c in Diff(files, other) <==> Expected(c, files.vals, other.vals)
  {
    AddsAndModifiesExactly(files.keys, files.vals, other.vals);
    RemovesExactly(other.keys, files.vals, other.vals);
  }

  /** The paths of the changes, in order. */
  function ChangedPaths(changes: seq<Change>): (r: seq<string>)
    ensures |r| == |changes| && forall i :: 0 <= i < |changes| ==> r[i] == changes[i].path
  {
    seq(|changes|, i requires 0 <= i < |changes| => changes[i].path)
  }

  lemma {:induction false} AddsAndModifiesPaths(keys: seq<string>, files: map<string, File>, other: map<string, File>)
    requires forall k :: k in keys ==> k in files
    requires Distinct(keys)
    ensures Distinct(ChangedPaths(AddsAndModifies(keys, files, other)))
    ensures forall p :: p in ChangedPaths(AddsAndModifies(keys, files, other)) ==> p in keys
    decreases |keys|
  {
    if keys != [] {
      var init := keys[..|keys| - 1];
      var last := keys[|keys| - 1];
      assert Distinct(init);
      AddsAndModifiesPaths(init, files, other);
      assert last !in init;
      var before := AddsAndModifies(init, files, other);
      var after := AddsAndModifies(keys, files, other);
      if after != before {
        assert after == before + [after[|after| - 1]] && after[|after| - 1].path == last;
        assert ChangedPaths(after) == ChangedPaths(before) + [last];
      }
    }
  }

  lemma {:induction false} RemovesPaths(keys: seq<string>, files: map<string, File>, other: map<string, File>)
    requires forall k :: k in keys ==> k in other
    requires Distinct(keys)
    ensures Distinct(ChangedPaths(Removes(keys, files, other)))
    ensures forall p :: p in ChangedPaths(Removes(keys, files, other)) ==> p in keys && p !in files
    decreases |keys|
  {
    if keys != [] {
      var init := keys[..|keys| - 1];
      var last := keys[|keys| - 1];
      assert Distinct(init);
      RemovesPaths(init, files, other);
      assert last !in init;
      var before := Removes(init, files, other);
      var after := Removes(keys, files, other);
      if after != before {
        assert after == before + [Remove(last, other[last])];
        assert ChangedPaths(after) == ChangedPaths(before) + [last];
      }
    }
  }

  /** Each path is classified at most once, so none is both added and removed. */
  lemma DiffPathsDistinct(files: Dict<string, File>, other: Dict<string, File>)
    ensures Distinct(ChangedPaths(Diff(files, other)))
  {
    var first := AddsAndModifies(files.keys, files.vals, other.vals);
    var second := Removes(other.keys, files.vals, other.vals);
    KeysDistinct(files);
    KeysDistinct(other);
    AddsAndModifiesPaths(files.keys, files.vals, other.vals);
    RemovesPaths(other.keys, files.vals, other.vals);
    var all := ChangedPaths(first + second);
    forall i, j | 0 <= i < j < |all| ensures all[i] != all[j] {
      if i < |first| && j >= |first| {
        assert all[i] == ChangedPaths(first)[i] && all[j] == ChangedPaths(second)[j - |first|];
        assert all[i] in files.vals;
      } else if i < |first| {
        assert all[i] == ChangedPaths(first)[i] && all[j] == ChangedPaths(first)[j];
      } else {
        assert all[i] == ChangedPaths(second)[i - |first|] && all[j] == ChangedPaths(second)[j - |first|];
      }
    }
  }
}
