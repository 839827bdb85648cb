/**
 * A dataset in a local directory: its manifest, its MD5 cache, its lazily loaded rules and
 * memoised metadata and files, and the operations that save it and upload it to a repository.
 * The methods of the generic `Dataset` base class are modelled here, on its one modelled subclass.
 */
module Local {
  import opened Wrappers
  import opened Values
  import opened PyDict
  import Paths
  import opened Wildcard
  import opened HashCache
  import opened Manifest
  import opened Datasets
  import opened FileTree
  import opened Remote
  import opened Seqs

  /** A rule list section as `includes`/`excludes` load it; `VNull` is `None` and means "load again". */
  function LazyRules(cached: Value, file: ManifestFile, key: string): Result<Value>
    requires key == "includes" || key == "excludes"
  {
    if cached != VNull then Ok(cached)
    else
      var m :- GetManifest(file);
      Ok(m["files"].fields[key])
  }

  /** The value the lazy field holds afterwards: the loaded value, or the old one when loading failed. */
  function RulesAfter(cached: Value, file: ManifestFile, key: string): Value
    requires key == "includes" || key == "excludes"
  {
    var r := LazyRules(cached, file, key);
    if r.Ok? then r.value else cached
  }

  /** `_get_metadata()`: the manifest's `metadata` section as keyword arguments of `Metadata`. */
  function ReadMetadata(file: ManifestFile): (r: Result<map<string, Value>>)
    ensures r.Ok? ==> GetManifest(file).Ok? && GetManifest(file).value["metadata"] == VMap(r.value)
    ensures GetManifest(file).Ok? && !GetManifest(file).value["metadata"].VMap? ==> r == Err(TypeError)
  {
    var m :- GetManifest(file);
    if m["metadata"].VMap? then Ok(m["metadata"].fields) else Err(TypeError)
  }

  /** The sum of the sizes of `files`. */
  function TotalSize(files: seq<File>): nat
    decreases |files|
  {
    if files == [] then 0 else TotalSize(files[..|files| - 1]) + files[|files| - 1].size
  }

  lemma {:induction false} TotalSizeConcat(a: seq<File>, b: seq<File>)
    ensures TotalSize(a + b) == TotalSize(a) + TotalSize(b)
    decreases |b|
  {
    if b == [] {
      assert a + b == a;
    } else {
      ConcatInit(a, b);
      TotalSizeConcat(a, b[..|b| - 1]);
    }
  }

  /** No file is larger than the total, and the total of no files is zero. */
  lemma {:induction false} TotalSizeBounds(files: seq<File>)
    ensures forall i :: 0 <= i < |files| ==> files[i].size <= TotalSize(files)
    ensures files == [] <==> |files| == 0
    ensures (forall i :: 0 <= i < |files| ==> files[i].size == 0) <==> TotalSize(files) == 0
    decreases |files|
  {
    if files != [] {
      var init := files[..|files| - 1];
      TotalSizeBounds(init);
      assert forall i :: 0 <= i < |init| ==> init[i] == files[i];
    }
  }

  /**
   * `size` as written: the loop runs over the keys of the file map, and a path has no `size`
   * attribute, so any dataset with a file raises `AttributeError`.
   */
  function SizeAsWritten(files: Dict<string, File>): Result<nat> {
    if files.keys == [] then Ok(0) else Err(AttributeError("'str' object has no attribute 'size'"))
  }

  /** As written, `size` only succeeds for a dataset with no files, whose total it gets right. */
  lemma SizeAsWrittenFailsOnFiles(files: Dict<string, File>)
    ensures SizeAsWritten(files).Ok? <==> files.keys == []
    ensures SizeAsWritten(files).Ok? ==> SizeAsWritten(files).value == TotalSize(PyDict.Values(files))
  {
    if files.keys == [] {
      assert PyDict.Values(files) == [];
    }
  }

  /** What `upload` is given: a repository or client identifier, a client object, or anything else. */
  datatype Target =
    | Named(id: string, resolved: Result<Client>)  // `fairly.client(id)` and its outcome
    | GivenClient(client: Client)
    | Unrecognised

  function ClientsOf(target: Target): set<Client> {
    match target
    case Named(_, resolved) => if resolved.Ok? then {resolved.value} else {}
    case GivenClient(c) => {c}
    case Unrecognised => {}
  }

  /** The calls an upload makes and its outcome. */
  datatype UploadRun = UploadRun(calls: seq<Call>, result: Result<RemoteDataset>)

  /** The index of the first file whose upload fails. */
  function FirstFailure(files: seq<File>, failing: set<string>): (r: Option<nat>)
    ensures r.Some? ==> r.value < |files| && files[r.value].path in failing
                        && forall j :: 0 <= j < r.value ==> files[j].path !in failing
    ensures r.None? ==> forall j :: 0 <= j < |files| ==> files[j].path !in failing
    decreases |files|
  {
    if files == [] then None
    else if files[0].path in failing then Some(0)
    else
      var r := FirstFailure(files[1..], failing);
      assert forall j :: 1 <= j < |files| ==> files[j] == files[1..][j - 1];
      if r.Some? then Some(r.value + 1) else None
  }

  function UploadsOf(dataset: RemoteDataset, files: seq<File>): (r: seq<Call>)
    ensures |r| == |files| && forall i :: 0 <= i < |files| ==> r[i] == UploadCall(dataset, files[i].path)
  {
    seq(|files|, i requires 0 <= i < |files| => UploadCall(dataset, files[i].path))
  }

  /** The compensating delete after `calls`: a failing delete replaces the error being raised. */
  function RolledBack(dataset: RemoteDataset, calls: seq<Call>, error: Error, deleteError: Option<Error>): UploadRun {
    UploadRun(calls + [DeleteCall(dataset.id)], Err(if deleteError.Some? then deleteError.value else error))
  }

  /** The `try` block of `upload` and its handler: the calls made after the remote dataset exists. */
  function AfterCreate(ds: RemoteDataset, files: Result<seq<File>>, failing: set<string>, uploadError: Error, deleteError: Option<Error>): UploadRun {
    if files.Err? then RolledBack(ds, [], files.error, deleteError)
    else
      match FirstFailure(files.value, failing)
      case None => UploadRun(UploadsOf(ds, files.value), Ok(ds))
      case Some(k) => RolledBack(ds, UploadsOf(ds, files.value[..k + 1]), uploadError, deleteError)
  }

  lemma UploadsOfSnoc(dataset: RemoteDataset, files: seq<File>, i: nat)
    requires i < |files|
    ensures UploadsOf(dataset, files[..i + 1]) == UploadsOf(dataset, files[..i]) + [UploadCall(dataset, files[i].path)]
  {
  }

  lemma FirstFailureAt(dataset: RemoteDataset, files: seq<File>, i: nat, failing: set<string>, uploadError: Error, deleteError: Option<Error>)
    requires i < |files| && files[i].path in failing && forall j :: 0 <= j < i ==> files[j].path !in failing
    ensures AfterCreate(dataset, Ok(files), failing, uploadError, deleteError)
            == RolledBack(dataset, UploadsOf(dataset, files[..i + 1]), uploadError, deleteError)
  {
    assert FirstFailure(files, failing) == Some(i);
  }

  lemma NoFailure(dataset: RemoteDataset, files: seq<File>, failing: set<string>, uploadError: Error, deleteError: Option<Error>)
    requires forall j :: 0 <= j < |files| ==> files[j].path !in failing
    ensures AfterCreate(dataset, Ok(files), failing, uploadError, deleteError) == UploadRun(UploadsOf(dataset, files), Ok(dataset))
  {
    assert files[..|files|] == files;
  }

  /**
   * `upload`, once the client is known: read the metadata, create the remote dataset, list the
   * files afresh and upload them in order; a failure after the creation deletes the remote dataset.
   */
  function UploadSpec(metadata: Result<map<string, Value>>, created: Result<RemoteDataset>, files: Result<seq<File>>,
                      failing: set<string>, uploadError: Error, deleteError: Option<Error>): UploadRun
  {
    if metadata.Err? then UploadRun([], Err(metadata.error))
    else if created.Err? then UploadRun([CreateCall(metadata.value)], Err(created.error))
    else
      var rest := AfterCreate(created.value, files, failing, uploadError, deleteError);
      UploadRun([CreateCall(metadata.value)] + rest.calls, rest.result)
  }

  function DeleteCount(calls: seq<Call>): nat
    decreases |calls|
  {
    if calls == [] then 0 else DeleteCount(calls[..|calls| - 1]) + if calls[|calls| - 1].DeleteCall? then 1 else 0
  }

  lemma {:induction false} DeleteCountConcat(a: seq<Call>, b: seq<Call>)
    ensures DeleteCount(a + b) == DeleteCount(a) + DeleteCount(b)
    decreases |b|
  {
    if b == [] {
      assert a + b == a;
    } else {
      ConcatInit(a, b);
      DeleteCountConcat(a, b[..|b| - 1]);
    }
  }

  lemma {:induction false} NoDeletesInUploads(dataset: RemoteDataset, files: seq<File>)
    ensures DeleteCount(UploadsOf(dataset, files)) == 0
    decreases |files|
  {
    if files != [] {
      var init := files[..|files| - 1];
      NoDeletesInUploads(dataset, init);
      assert UploadsOf(dataset, files)[..|files| - 1] == UploadsOf(dataset, init);
    }
  }

  /** A successful upload creates once, uploads every file in order and deletes nothing. */
  lemma UploadSucceeds(md: map<string, Value>, ds: RemoteDataset, files: seq<File>, failing: set<string>, uploadError: Error, deleteError: Option<Error>)
    requires forall i :: 0 <= i < |files| ==> files[i].path !in failing
    ensures UploadSpec(Ok(md), Ok(ds), Ok(files), failing, uploadError, deleteError)
            == UploadRun([CreateCall(md)] + UploadsOf(ds, files), Ok(ds))
    ensures DeleteCount([CreateCall(md)] + UploadsOf(ds, files)) == 0
  {
    NoDeletesInUploads(ds, files);
    DeleteCountConcat([CreateCall(md)], UploadsOf(ds, files));
    assert DeleteCount([CreateCall(md)]) == 0 by {
      assert [CreateCall(md)][..0] == [];
    }
  }

  /**
   * When the `k`-th upload is the first to fail, the files up to it are uploaded, nothing after
   * it, and the remote dataset is deleted exactly once, at the end; the upload's error is raised
   * unless the delete fails too.
   */
  lemma UploadRollsBack(md: map<string, Value>, ds: RemoteDataset, files: seq<File>, k: nat, failing: set<string>, uploadError: Error, deleteError: Option<Error>)
    requires k < |files| && files[k].path in failing && forall j :: 0 <= j < k ==> files[j].path !in failing
    ensures var run := UploadSpec(Ok(md), Ok(ds), Ok(files), failing, uploadError, deleteError);
      && run.calls == [CreateCall(md)] + UploadsOf(ds, files[..k + 1]) + [DeleteCall(ds.id)]
      && DeleteCount(run.calls) == 1
      && run.result == Err(if deleteError.Some? then deleteError.value else uploadError)
  {
    assert FirstFailure(files, failing) == Some(k);
    var ups := UploadsOf(ds, files[..k + 1]);
    NoDeletesInUploads(ds, files[..k + 1]);
    DeleteCountConcat([CreateCall(md)], ups);
    DeleteCountConcat([CreateCall(md)] + ups, [DeleteCall(ds.id)]);
    assert DeleteCount([CreateCall(md)]) == 0 && DeleteCount([DeleteCall(ds.id)]) == 1 by {
      assert [CreateCall(md)][..0] == [] && [DeleteCall(ds.id)][..0] == [];
    }
  }

  /** A failing refresh of the file list deletes the remote dataset before any upload. */
  lemma UploadRefreshFails(md: map<string, Value>, ds: RemoteDataset, e: Error, failing: set<string>, uploadError: Error, deleteError: Option<Error>)
    ensures UploadSpec(Ok(md), Ok(ds), Err(e), failing, uploadError, deleteError)
            == UploadRun([CreateCall(md), DeleteCall(ds.id)], Err(if deleteError.Some? then deleteError.value else e))
  {
  }

  /** A failing `create_dataset` makes no further call, so nothing is deleted. */
  lemma UploadCreateFails(md: map<string, Value>, e: Error, files: Result<seq<File>>, failing: set<string>, uploadError: Error, deleteError: Option<Error>)
    ensures UploadSpec(Ok(md), Err(e), files, failing, uploadError, deleteError) == UploadRun([CreateCall(md)], Err(e))
  {
  }

  lemma UploadComposes(trace0: seq<Call>, trace1: seq<Call>, trace2: seq<Call>, r: Result<RemoteDataset>,
                        md: map<string, Value>, ds: RemoteDataset, files: Result<seq<File>>, failing: set<string>, uploadError: Error, deleteError: Option<Error>)
    requires trace1 == trace0 + [CreateCall(md)]
    requires var rest := AfterCreate(ds, files, failing, uploadError, deleteError);
      trace2 == trace1 + rest.calls && r == rest.result
    ensures var run := UploadSpec(Ok(md), Ok(ds), files, failing, uploadError, deleteError);
      trace2 == trace0 + run.calls && r == run.result
  {
  }

  predicate NoCreates(calls: seq<Call>) {
    forall i :: 0 <= i < |calls| ==> !calls[i].CreateCall?
  }

  /** After the creation, nothing is created again, and the delete comes exactly when the upload fails, last. */
  lemma AfterCreateShape(ds: RemoteDataset, files: Result<seq<File>>, failing: set<string>, uploadError: Error, deleteError: Option<Error>)
    ensures var rest := AfterCreate(ds, files, failing, uploadError, deleteError);
      && NoCreates(rest.calls)
      && DeleteCount(rest.calls) <= 1
      && (DeleteCount(rest.calls) == 1 <==> rest.result.Err?)
      && (DeleteCount(rest.calls) == 1 ==> rest.calls != [] && rest.calls[|rest.calls| - 1] == DeleteCall(ds.id))
  {
    if files.Err? {
      RolledBackShape(ds, [], files.error, deleteError);
    } else {
      match FirstFailure(files.value, failing)
      case None =>
        NoDeletesInUploads(ds, files.value);
      case Some(k) =>
        NoDeletesInUploads(ds, files.value[..k + 1]);
        RolledBackShape(ds, UploadsOf(ds, files.value[..k + 1]), uploadError, deleteError);
    }
  }

  /** A rollback after calls that neither create nor delete: one delete, last, and an error. */
  lemma RolledBackShape(ds: RemoteDataset, calls: seq<Call>, error: Error, deleteError: Option<Error>)
    requires NoCreates(calls) && DeleteCount(calls) == 0
    ensures var rest := RolledBack(ds, calls, error, deleteError);
      && NoCreates(rest.calls)
      && DeleteCount(rest.calls) == 1
      && rest.result.Err?
      && rest.calls != [] && rest.calls[|rest.calls| - 1] == DeleteCall(ds.id)
  {
    assert DeleteCount([DeleteCall(ds.id)]) == 1 by {
      assert [DeleteCall(ds.id)][..0] == [];
    }
    DeleteCountConcat(calls, [DeleteCall(ds.id)]);
  }

  /** Whatever happens, `create_dataset` is called at most once and first, and the delete at most once and last. */
  lemma UploadCallShape(metadata: Result<map<string, Value>>, created: Result<RemoteDataset>, files: Result<seq<File>>,
                        failing: set<string>, uploadError: Error, deleteError: Option<Error>)
    ensures var run := UploadSpec(metadata, created, files, failing, uploadError, deleteError);
      && (run.calls == [] <==> metadata.Err?)
      && (run.calls != [] ==> run.calls[0] == CreateCall(metadata.value) && NoCreates(run.calls[1..]))
      && DeleteCount(run.calls) <= 1
      && (DeleteCount(run.calls) == 1 <==> created.Ok? && metadata.Ok? && run.result.Err?)
      && (DeleteCount(run.calls) == 1 ==> run.calls[|run.calls| - 1] == DeleteCall(created.value.id))
  {
    if metadata.Ok? {
      var create := [CreateCall(metadata.value)];
      assert DeleteCount(create) == 0 by {
        assert create[..0] == [];
      }
      assert create[1..] == [];
      if created.Ok? {
        var rest := AfterCreate(created.value, files, failing, uploadError, deleteError);
        AfterCreateShape(created.value, files, failing, uploadError, deleteError);
        DeleteCountConcat(create, rest.calls);
        assert (create + rest.calls)[1..] == rest.calls;
      }
    }
  }

  class LocalDataset {
    /** The class-wide rule cache, shared by every dataset. */
    const cache: RuleCache
    /** The entries of the dataset directory. */
    const tree: seq<Entry>
    /** The manifest's name relative to the dataset directory. */
    const manifestName: string
    /** The manifest file on disk. */
    var manifestFile: ManifestFile
    /** `_md5s`. */
    var md5s: Table
    /** `_includes` and `_excludes`; `VNull` is `None`. */
    var includesCache: Value
    var excludesCache: Value
    /** `_metadata` and `_files` of the base class. */
    var metadataCache: Option<map<string, Value>>
    var filesCache: Option<Dict<string, File>>

    constructor (cache: RuleCache, tree: seq<Entry>, manifestName: string, manifestFile: ManifestFile)
      ensures this.cache == cache && this.tree == tree && this.manifestName == manifestName
      ensures this.manifestFile == manifestFile && md5s == map[]
      ensures includesCache == VNull && excludesCache == VNull
      ensures metadataCache == None && filesCache == None
    {
      this.cache := cache;
      this.tree := tree;
      this.manifestName := manifestName;
      this.manifestFile := manifestFile;
      md5s := map[];
      includesCache := VNull;
      excludesCache := VNull;
      metadataCache := None;
      filesCache := None;
    }

    /**
     * `LocalDataset(path, manifest_file)`: a path that is not a directory raises
     * `NotADirectoryError`; otherwise the MD5 cache is loaded, and a malformed row fails the
     * construction.
     */
    static method Open(cache: RuleCache, isDirectory: bool, tree: seq<Entry>, manifestName: string,
                       manifestFile: ManifestFile, md5File: Option<seq<seq<string>>>) returns (r: Result<LocalDataset>)
      ensures !isDirectory ==> r == Err(NotADirectoryError)
      ensures isDirectory ==> (r.Ok? <==> LoadedTable(md5File).Ok?)
      ensures isDirectory && r.Err? ==> r.error == LoadedTable(md5File).error
      ensures r.Ok? ==> var ds := r.value;
        && fresh(ds)
        && ds.cache == cache && ds.tree == tree && ds.manifestName == manifestName && ds.manifestFile == manifestFile
        && ds.md5s == LoadedTable(md5File).value
        && ds.includesCache == VNull && ds.excludesCache == VNull
        && ds.metadataCache == None && ds.filesCache == None
    {
      if !isDirectory {
        return Err(NotADirectoryError);
      }
      var ds := new LocalDataset(cache, tree, manifestName, manifestFile);
      var loaded := ds.LoadMd5s(md5File);
      if loaded.Err? {
        return Err(loaded.error);
      }
      return Ok(ds);
    }

    /** `_load_md5s()`: the table starts empty and is filled row by row. */
    method LoadMd5s(file: Option<seq<seq<string>>>) returns (r: Result<()>)
      modifies this`md5s
      ensures r.Ok? <==> LoadedTable(file).Ok?
      ensures r.Ok? ==> md5s == LoadedTable(file).value
      ensures r.Err? ==> r.error == LoadedTable(file).error
    {
      md5s := map[];
      if file.None? {
        return Ok(());
      }
      var rows := file.value;
      for i := 0 to |rows|
        invariant TableOf(rows[..i]) == Ok(md5s)
      {
        var row := rows[i];
        assert rows[..i + 1][..i] == rows[..i];
        if |row| != 4 {
          assert TableOf(rows[..i + 1]).Err?;
          TableOfStopsAtError(rows[..i + 1], rows[i + 1..]);
          TakeDrop(rows, i + 1);
          return Err(ValueError("row does not have four fields"));
        }
        md5s := md5s[row[0] := StoredEntry(row[1], row[2], row[3])];
      }
      assert rows[..|rows|] == rows;
      return Ok(());
    }

    /** The `includes` property: loaded from the manifest while the field holds `None`. */
    method Includes() returns (r: Result<Value>)
      modifies this`includesCache
      ensures r == LazyRules(old(includesCache), manifestFile, "includes")
      ensures includesCache == RulesAfter(old(includesCache), manifestFile, "includes")
    {
      if includesCache == VNull {
        var manifest :- GetManifest(manifestFile);
        includesCache := manifest["files"].fields["includes"];
      }
      return Ok(includesCache);
    }

    /** The `excludes` property, in the same way. */
    method Excludes() returns (r: Result<Value>)
      modifies this`excludesCache
      ensures r == LazyRules(old(excludesCache), manifestFile, "excludes")
      ensures excludesCache == RulesAfter(old(excludesCache), manifestFile, "excludes")
    {
      if excludesCache == VNull {
        var manifest :- GetManifest(manifestFile);
        excludesCache := manifest["files"].fields["excludes"];
      }
      return Ok(excludesCache);
    }

    /** What `get_metadata(refresh)` gives in the current state. */
    function MetadataNow(refresh: bool): Result<map<string, Value>>
      reads this`metadataCache, this`manifestFile
    {
      if metadataCache.Some? && !refresh then Ok(metadataCache.value) else ReadMetadata(manifestFile)
    }

    /** `_metadata` after `get_metadata(refresh)` in the current state. */
    function MetadataAfter(refresh: bool): Option<map<string, Value>>
      reads this`metadataCache, this`manifestFile
    {
      var m := MetadataNow(refresh);
      if m.Ok? then Some(m.value) else metadataCache
    }

    /** `get_metadata(refresh)`: reads the manifest only when nothing is cached or a refresh is asked for. */
    method GetMetadata(refresh: bool) returns (r: Result<map<string, Value>>)
      modifies this`metadataCache
      ensures r == old(MetadataNow(refresh))
      ensures old(metadataCache).Some? && !refresh ==> metadataCache == old(metadataCache)
      ensures metadataCache == if r.Ok? then Some(r.value) else old(metadataCache)
    {
      if metadataCache.None? || refresh {
        var m :- ReadMetadata(manifestFile);
        metadataCache := Some(m);
      }
      return Ok(metadataCache.value);
    }

    /** `set_metadata(**kwargs)`: the given keys replace or join the cached metadata, the others stay. */
    method SetMetadata(kwargs: map<string, Value>) returns (r: Result<()>)
      modifies this`metadataCache
      ensures r.Ok? <==> old(MetadataNow(false)).Ok?
      ensures r.Ok? ==> metadataCache == Some(old(MetadataNow(false)).value + kwargs)
      ensures r.Ok? ==> forall k :: k in metadataCache.value ==>
        metadataCache.value[k] == if k in kwargs then kwargs[k] else old(MetadataNow(false)).value[k]
      ensures r.Err? ==> metadataCache == old(metadataCache)
    {
      var m :- GetMetadata(false);
      metadataCache := Some(m + kwargs);
      return Ok(());
    }

    /** `_set_manifest(manifest)`: writes the manifest with its missing sections filled in. */
    method SetManifest(manifest: map<string, Value>)
      modifies this`manifestFile
      ensures manifestFile == Parsed(VMap(WithDefaults(manifest)))
    {
      manifestFile := Parsed(VMap(WithDefaults(manifest)));
    }

    /** `save_metadata()`: the manifest as loaded, with its `metadata` section replaced by the dataset's metadata. */
    method SaveMetadata() returns (r: Result<()>)
      modifies this`manifestFile, this`metadataCache
      ensures r.Ok? <==> GetManifest(old(manifestFile)).Ok? && old(MetadataNow(false)).Ok?
      ensures r.Ok? ==> manifestFile == Parsed(VMap(WithDefaults(
        GetManifest(old(manifestFile)).value["metadata" := VMap(old(MetadataNow(false)).value)])))
      ensures r.Err? ==> manifestFile == old(manifestFile)
      ensures metadataCache == if old(MetadataNow(false)).Ok? && GetManifest(old(manifestFile)).Ok? then Some(old(MetadataNow(false)).value) else old(metadataCache)
    {
      var manifest :- GetManifest(manifestFile);
      var metadata :- GetMetadata(false);
      SetManifest(manifest["metadata" := VMap(metadata)]);
      return Ok(());
    }

    /** `save_files()`: the manifest as loaded, with its `files` section replaced by the current rules. */
    method SaveFiles() returns (r: Result<()>)
      modifies this`manifestFile, this`includesCache, this`excludesCache
      ensures var m := GetManifest(old(manifestFile));
        var inc := LazyRules(old(includesCache), old(manifestFile), "includes");
        var exc := LazyRules(old(excludesCache), old(manifestFile), "excludes");
        && (r.Ok? <==> m.Ok? && inc.Ok? && exc.Ok?)
        && (r.Ok? ==> manifestFile == Parsed(VMap(WithDefaults(
              m.value["files" := VMap(map["includes" := inc.value, "excludes" := exc.value])]))))
        && (r.Err? ==> manifestFile == old(manifestFile))
      ensures includesCache == if GetManifest(old(manifestFile)).Ok? then RulesAfter(old(includesCache), old(manifestFile), "includes") else old(includesCache)
      ensures excludesCache == if GetManifest(old(manifestFile)).Ok? then RulesAfter(old(excludesCache), old(manifestFile), "excludes") else old(excludesCache)
    {
      var manifest :- GetManifest(manifestFile);
      // Once the manifest has loaded, neither lazy property can fail.
      var includes := Includes();
      var excludes := Excludes();
      assert includes.Ok? && excludes.Ok?;
      SetManifest(manifest["files" := VMap(map["includes" := includes.value, "excludes" := excludes.value])]);
      return Ok(());
    }

    /** `save()`: `save_metadata()` and then, if it succeeded, `save_files()` on the manifest it wrote. */
    method Save() returns (r: Result<()>)
      modifies this`manifestFile, this`metadataCache, this`includesCache, this`excludesCache
      ensures var m := GetManifest(old(manifestFile));
        var md := old(MetadataNow(false));
        && (m.Err? || md.Err? ==> r.Err? && manifestFile == old(manifestFile))
        && (m.Ok? && md.Ok? ==>
              var first := Parsed(VMap(WithDefaults(m.value["metadata" := VMap(md.value)])));
              var inc := LazyRules(old(includesCache), first, "includes");
              var exc := LazyRules(old(excludesCache), first, "excludes");
              && (r.Ok? <==> inc.Ok? && exc.Ok?)
              && (r.Ok? ==> manifestFile == Parsed(VMap(WithDefaults(
                    GetManifest(first).value["files" := VMap(map["includes" := inc.value, "excludes" := exc.value])])))))
      ensures var m := GetManifest(old(manifestFile));
        var md := old(MetadataNow(false));
        && metadataCache == (if m.Ok? && md.Ok? then Some(md.value) else old(metadataCache))
        && (m.Err? || md.Err? ==> includesCache == old(includesCache) && excludesCache == old(excludesCache))
        && (m.Ok? && md.Ok? ==>
              var first := Parsed(VMap(WithDefaults(m.value["metadata" := VMap(md.value)])));
              && includesCache == (if GetManifest(first).Ok? then RulesAfter(old(includesCache), first, "includes") else old(includesCache))
              && excludesCache == (if GetManifest(first).Ok? then RulesAfter(old(excludesCache), first, "excludes") else old(excludesCache)))
    {
      var saved :- SaveMetadata();
      r := SaveFiles();
    }

    /** `for rule in rules: if self._match_rule(path, rule): matched = True; break`. */
    method AnyMatch(path: string, rules: Value) returns (r: Result<bool>)
      requires cache.Valid()
      modifies cache
      ensures cache.Valid()
      ensures r == AnyRuleMatches(path, rules)
    {
      match rules
      case VList(items) =>
        r := ListAnyMatch(path, items);
      case VStr(s) =>
        var matched := StringAnyMatch(path, s);
        r := Ok(matched);
      case VMap(fields) =>
        var matched := KeyAnyMatch(path, fields.Keys);
        r := Ok(matched);
      case _ =>
        r := Err(TypeError);
    }

    /** The rule loop over a list: the rules in order, stopping at the first match or non-string. */
    method ListAnyMatch(path: string, items: seq<Value>) returns (r: Result<bool>)
      requires cache.Valid()
      modifies cache
      ensures cache.Valid()
      ensures r == ListMatches(path, items)
    {
      var i := 0;
      while i < |items|
        invariant 0 <= i <= |items| && cache.Valid()
        invariant ListMatches(path, items) == ListMatches(path, items[i..])
      {
        assert items[i..][1..] == items[i + 1..];
        if !items[i].VStr? {
          return Err(TypeError);
        }
        var matched := cache.MatchRule(path, items[i].s);
        if matched {
          return Ok(true);
        }
        i := i + 1;
      }
      return Ok(false);
    }

    /** The rule loop over a string: each character is a rule of its own. */
    method StringAnyMatch(path: string, s: string) returns (matched: bool)
      requires cache.Valid()
      modifies cache
      ensures cache.Valid()
      ensures matched <==> exists i :: 0 <= i < |s| && CharRuleMatches(path, s, i)
    {
      for i := 0 to |s|
        invariant cache.Valid()
        invariant forall j :: 0 <= j < i ==> !CharRuleMatches(path, s, j)
      {
        matched := MatchChar(path, s, i);
        if matched {
          return;
        }
      }
      return false;
    }

    /** `_match_rule(path, rule)` for the `i`-th character of `s` as the rule. */
    method MatchChar(path: string, s: string, i: nat) returns (matched: bool)
      requires cache.Valid() && i < |s|
      modifies cache
      ensures cache.Valid()
      ensures matched == CharRuleMatches(path, s, i)
    {
      matched := cache.MatchRule(path, [s[i]]);
    }

    /** The rule loop over a mapping: its keys are the rules. */
    method KeyAnyMatch(path: string, keys: set<string>) returns (matched: bool)
      requires cache.Valid()
      modifies cache
      ensures cache.Valid()
      ensures matched <==> exists k {:trigger RuleMatches(path, k)} :: k in keys && RuleMatches(path, k)
    {
      var left := keys;
      while left != {}
        invariant left <= keys && cache.Valid()
        invariant forall k {:trigger RuleMatches(path, k)} :: k in keys && k !in left ==> !RuleMatches(path, k)
        decreases left
      {
        var k :| k in left;
        matched := cache.MatchRule(path, k);
        assert matched == RuleMatches(path, k);
        if matched {
          return;
        }
        left := left - {k};
      }
      return false;
    }

    /** The body of the file loop of `_get_files` for one file. */
    method DecideFile(found: Found, includes: Value, excludes: Value) returns (r: Result<Option<File>>)
      requires cache.Valid()
      modifies cache
      ensures cache.Valid()
      ensures r == Decide(found, manifestName, includes, excludes, md5s)
    {
      if found.path == manifestName || !Truthy(includes) {
        return Ok(None);
      }
      var included :- AnyMatch(found.path, includes);
      if !included {
        return Ok(None);
      }
      if Truthy(excludes) {
        var excluded :- AnyMatch(found.path, excludes);
        if excluded {
          return Ok(None);
        }
      }
      var entry := if found.path in md5s then Some(md5s[found.path]) else None;
      return Ok(Some(File(found.path, found.stat.size, CachedMd5(entry, found.stat))));
    }

    /** What `_get_files()` gives in the current state. */
    function FileListNow(): Result<seq<File>>
      reads this`excludesCache, this`includesCache, this`manifestFile, this`md5s
    {
      var excludes :- LazyRules(excludesCache, manifestFile, "excludes");
      var includes :- LazyRules(includesCache, manifestFile, "includes");
      Enumerate(Listing([QueuedDir("", tree)]), manifestName, includes, excludes, md5s)
    }

    /** `_excludes` once `_get_files()` has run in the current state. */
    function ExcludesAfterListing(): Value
      reads this`excludesCache, this`manifestFile
    {
      RulesAfter(excludesCache, manifestFile, "excludes")
    }

    /** `_includes` once `_get_files()` has run: it is read only when the excludes could be. */
    function IncludesAfterListing(): Value
      reads this`excludesCache, this`includesCache, this`manifestFile
    {
      if LazyRules(excludesCache, manifestFile, "excludes").Ok? then RulesAfter(includesCache, manifestFile, "includes")
      else includesCache
    }

    /** `_includes`, `_excludes` and `_files`: the memo fields a listing may fill. */
    function ListingState(): (Value, Value, Option<Dict<string, File>>)
      reads this`includesCache, this`excludesCache, this`filesCache
    {
      (includesCache, excludesCache, filesCache)
    }

    /**
     * The memo fields after `get_files(refresh)` in the current state: unchanged when the cached
     * map is used; otherwise the rules as the listing read them and, when it succeeds, the new map.
     */
    function ListingStateAfter(refresh: bool): (Value, Value, Option<Dict<string, File>>)
      reads this`filesCache, this`excludesCache, this`includesCache, this`manifestFile, this`md5s
    {
      if filesCache.Some? && !refresh then ListingState()
      else
        var list := FileListNow();
        (IncludesAfterListing(), ExcludesAfterListing(), if list.Ok? then Some(IndexByPath(list.value)) else filesCache)
    }

    /** `_get_files()`: the breadth-first walk over the `dirs` queue, keeping the files that pass the rules. */
    method ListFiles() returns (r: Result<seq<File>>)
      requires cache.Valid()
      modifies this`includesCache, this`excludesCache, cache
      ensures cache.Valid()
      ensures r == old(FileListNow())
      ensures excludesCache == old(ExcludesAfterListing())
      ensures includesCache == old(IncludesAfterListing())
    {
      var excludes :- Excludes();
      var includes :- Includes();
      r := Walk(includes, excludes);
    }

    /** The `while dirs` loop of `_get_files` with the rules loaded. */
    method Walk(includes: Value, excludes: Value) returns (r: Result<seq<File>>)
      requires cache.Valid()
      modifies cache
      ensures cache.Valid()
      ensures r == Enumerate(Listing([QueuedDir("", tree)]), manifestName, includes, excludes, md5s)
    {
      var files: seq<File> := [];
      var dirs := [QueuedDir("", tree)];
      ghost var all := Listing(dirs);
      ghost var seen: seq<Found> := [];
      while dirs != []
        invariant cache.Valid()
        invariant seen + Listing(dirs) == all
        invariant Enumerate(seen, manifestName, includes, excludes, md5s) == Ok(files)
        decreases QueueSize(dirs)
      {
        var dir := dirs[0];
        QueueShrinks(dirs);
        var next := dirs[1..];
        ghost var later := Listing(next + SubdirsOf(dir.path, dir.children));
        ListingStep(dirs);
        assert all == seen + FilesIn(dir.path, dir.children) + later;
        var scanned, subdirs := ScanDirectory(dir, includes, excludes, files, seen);
        if scanned.Err? {
          EnumerateStopsAtError(seen + FilesIn(dir.path, dir.children), later, manifestName, includes, excludes, md5s);
          return Err(scanned.error);
        }
        files := scanned.value;
        seen := seen + FilesIn(dir.path, dir.children);
        dirs := next + subdirs;
      }
      assert seen == all;
      return Ok(files);
    }

    /** One turn of the `while dirs` loop: the entries of `dir` in listing order. */
    method ScanDirectory(dir: QueuedDir, includes: Value, excludes: Value, files0: seq<File>, ghost seen0: seq<Found>)
      returns (r: Result<seq<File>>, subdirs: seq<QueuedDir>)
      requires cache.Valid()
      requires Enumerate(seen0, manifestName, includes, excludes, md5s) == Ok(files0)
      modifies cache
      ensures cache.Valid()
      ensures r == Enumerate(seen0 + FilesIn(dir.path, dir.children), manifestName, includes, excludes, md5s)
      ensures r.Ok? ==> subdirs == SubdirsOf(dir.path, dir.children)
    {
      var files := files0;
      ghost var seen := seen0;
      subdirs := [];
      for j := 0 to |dir.children|
        invariant cache.Valid()
        invariant seen == seen0 + FilesIn(dir.path, dir.children[..j])
        invariant subdirs == SubdirsOf(dir.path, dir.children[..j])
        invariant Enumerate(seen, manifestName, includes, excludes, md5s) == Ok(files)
      {
        var entry := dir.children[j];
        ScanStep(dir.path, dir.children, j);
        var path := Paths.Join(dir.path, entry.name);
        if entry.DirEntry? {
          subdirs := subdirs + [QueuedDir(path, entry.children)];
        } else {
          var found := Found(path, entry.stat);
          var decision := DecideFile(found, includes, excludes);
          EnumerateSnoc(seen, found, manifestName, includes, excludes, md5s, files);
          if decision.Err? {
            ScanFails(dir.path, dir.children, j, seen0, found, manifestName, includes, excludes, md5s);
            return Err(decision.error), subdirs;
          }
          if decision.value.Some? {
            files := files + [decision.value.value];
          }
          seen := seen + [found];
        }
      }
      assert dir.children[..|dir.children|] == dir.children;
      return Ok(files), subdirs;
    }

    /** What `get_files(refresh)` gives in the current state. */
    function FilesNow(refresh: bool): Result<Dict<string, File>>
      reads this`filesCache, this`excludesCache, this`includesCache, this`manifestFile, this`md5s
    {
      if filesCache.Some? && !refresh then Ok(filesCache.value)
      else
        var list :- FileListNow();
        Ok(IndexByPath(list))
    }

    /** `get_files(refresh)`: lists the files only when nothing is cached or a refresh is asked for. */
    method GetFiles(refresh: bool) returns (r: Result<Dict<string, File>>)
      requires cache.Valid()
      modifies this`includesCache, this`excludesCache, this`filesCache, cache
      ensures cache.Valid()
      ensures r == old(FilesNow(refresh))
      ensures filesCache == if r.Ok? then Some(r.value) else old(filesCache)
      ensures ListingState() == old(ListingStateAfter(refresh))
    {
      if filesCache.None? || refresh {
        var list :- ListFiles();
        var files: Dict<string, File> := Empty();
        for i := 0 to |list|
          invariant files == IndexByPath(list[..i])
        {
          assert list[..i + 1][..i] == list[..i];
          files := Put(files, list[i].path, list[i]);
        }
        assert list[..|list|] == list;
        filesCache := Some(files);
      }
      return Ok(filesCache.value);
    }

    /** `get_file(val, refresh)`: the first file, in map order, that `file.match(val)` accepts. */
    method GetFile(val: string, refresh: bool, matches: (File, string) -> bool) returns (r: Result<Option<File>>)
      requires cache.Valid()
      modifies this`includesCache, this`excludesCache, this`filesCache, cache
      ensures cache.Valid()
      ensures r.Ok? <==> old(FilesNow(refresh)).Ok?
      ensures r.Err? ==> r.error == old(FilesNow(refresh)).error
      ensures r.Ok? ==> r.value == FirstMatching(PyDict.Values(old(FilesNow(refresh)).value), val, matches)
      ensures ListingState() == old(ListingStateAfter(refresh))
    {
      var files :- GetFiles(refresh);
      var found := FindFile(PyDict.Values(files), val, matches);
      return Ok(found);
    }

    /** `size`, as the property evidently means it: the sum of the sizes of the dataset's files. */
    method Size() returns (r: Result<nat>)
      requires cache.Valid()
      modifies this`includesCache, this`excludesCache, this`filesCache, cache
      ensures cache.Valid()
      ensures r.Ok? <==> old(FilesNow(false)).Ok?
      ensures r.Err? ==> r.error == old(FilesNow(false)).error
      ensures r.Ok? ==> r.value == TotalSize(PyDict.Values(old(FilesNow(false)).value))
      ensures ListingState() == old(ListingStateAfter(false))
    {
      var files :- GetFiles(false);
      var all := PyDict.Values(files);
      var size := 0;
      for i := 0 to |all|
        invariant size == TotalSize(all[..i])
      {
        assert all[..i + 1][..i] == all[..i];
        size := size + all[i].size;
      }
      assert all[..|all|] == all;
      return Ok(size);
    }

    /** The file list an upload works through: the values of a freshly listed file map. */
    function RefreshedFiles(): Result<seq<File>>
      reads this`excludesCache, this`includesCache, this`manifestFile, this`md5s
    {
      var list :- FileListNow();
      Ok(PyDict.Values(IndexByPath(list)))
    }

    /**
     * `upload(repository)`: resolve the client, create the remote dataset from the metadata, then
     * upload the files of a fresh listing in map order; any failure after the creation deletes
     * the remote dataset and is raised again, unless the delete fails too.
     */
    method Upload(target: Target) returns (r: Result<RemoteDataset>)
      requires cache.Valid()
      modifies this`metadataCache, this`includesCache, this`excludesCache, this`filesCache, cache, ClientsOf(target)
      ensures cache.Valid()
      ensures target.Unrecognised? ==> r == Err(ValueError("Invalid repository"))
      ensures target.Named? && target.resolved.Err? ==> r == Err(target.resolved.error)
      ensures forall c :: c in ClientsOf(target) ==>
        var run := UploadSpec(old(MetadataNow(false)), c.createOutcome, old(RefreshedFiles()), c.failingUploads, c.uploadError, c.deleteError);
        c.trace == old(c.trace) + run.calls && r == run.result
      ensures ClientsOf(target) == {} ==> metadataCache == old(metadataCache) && ListingState() == old(ListingState())
      ensures forall c :: c in ClientsOf(target) ==>
        && metadataCache == old(MetadataAfter(false))
        && ListingState() == if old(MetadataNow(false)).Ok? && c.createOutcome.Ok? then old(ListingStateAfter(true)) else old(ListingState())
    {
      match target {
        case Unrecognised =>
          return Err(ValueError("Invalid repository"));
        case Named(_, resolved) =>
          if resolved.Err? {
            return Err(resolved.error);
          }
          r := UploadWith(resolved.value);
        case GivenClient(c) =>
          r := UploadWith(c);
      }
    }

    /** `upload` with its client resolved. */
    method UploadWith(client: Client) returns (r: Result<RemoteDataset>)
      requires cache.Valid()
      modifies this`metadataCache, this`includesCache, this`excludesCache, this`filesCache, cache, client
      ensures cache.Valid()
      ensures var run := UploadSpec(old(MetadataNow(false)), client.createOutcome, old(RefreshedFiles()),
                                    client.failingUploads, client.uploadError, client.deleteError);
        client.trace == old(client.trace) + run.calls && r == run.result
      ensures metadataCache == old(MetadataAfter(false))
      ensures ListingState() == if old(MetadataNow(false)).Ok? && client.createOutcome.Ok? then old(ListingStateAfter(true)) else old(ListingState())
    {
      var metadata := GetMetadata(false);
      if metadata.Err? {
        return Err(metadata.error);
      }
      r := CreateAndTransfer(client, metadata.value, RefreshedFiles());
    }

    method CreateAndTransfer(client: Client, metadata: map<string, Value>, ghost files: Result<seq<File>>) returns (r: Result<RemoteDataset>)
      requires cache.Valid() && files == RefreshedFiles()
      modifies this`includesCache, this`excludesCache, this`filesCache, cache, client
      ensures cache.Valid()
      ensures var run := UploadSpec(Ok(metadata), client.createOutcome, files,
                                    client.failingUploads, client.uploadError, client.deleteError);
        client.trace == old(client.trace) + run.calls && r == run.result
      ensures ListingState() == if client.createOutcome.Ok? then old(ListingStateAfter(true)) else old(ListingState())
    {
      var dataset := client.CreateDataset(metadata);
      if dataset.Err? {
        UploadCreateFails(metadata, dataset.error, files, client.failingUploads, client.uploadError, client.deleteError);
        return Err(dataset.error);
      }
      ghost var trace1 := client.trace;
      r := Transfer(client, dataset.value, files);
      UploadComposes(old(client.trace), trace1, client.trace, r, metadata, dataset.value, files, client.failingUploads, client.uploadError, client.deleteError);
    }

    /** The `try` block of `upload` and its handler, once the remote dataset exists. */
    method Transfer(client: Client, dataset: RemoteDataset, ghost files: Result<seq<File>>) returns (r: Result<RemoteDataset>)
      requires cache.Valid() && files == RefreshedFiles()
      modifies this`includesCache, this`excludesCache, this`filesCache, cache, client
      ensures cache.Valid()
      ensures var run := AfterCreate(dataset, files, client.failingUploads, client.uploadError, client.deleteError);
        client.trace == old(client.trace) + run.calls && r == run.result
      ensures ListingState() == old(ListingStateAfter(true))
    {
      var files := GetFiles(true);
      if files.Err? {
        var deleteError := client.DeleteDataset(dataset.id);
        return Err(if deleteError.Some? then deleteError.value else files.error);
      }
      r := UploadAll(client, dataset, PyDict.Values(files.value));
    }

    /** The upload loop: the files in order, stopping at the first failure to delete the remote dataset. */
    static method UploadAll(client: Client, dataset: RemoteDataset, all: seq<File>) returns (r: Result<RemoteDataset>)
      modifies client
      ensures var run := AfterCreate(dataset, Ok(all), client.failingUploads, client.uploadError, client.deleteError);
        client.trace == old(client.trace) + run.calls && r == run.result
    {
      for i := 0 to |all|
        invariant client.trace == old(client.trace) + UploadsOf(dataset, all[..i])
        invariant forall j :: 0 <= j < i ==> all[j].path !in client.failingUploads
      {
        UploadsOfSnoc(dataset, all, i);
        var uploaded := client.UploadFile(dataset, all[i]);
        if uploaded.Err? {
          FirstFailureAt(dataset, all, i, client.failingUploads, client.uploadError, client.deleteError);
          var deleteError := client.DeleteDataset(dataset.id);
          return Err(if deleteError.Some? then deleteError.value else uploaded.error);
        }
      }
      NoFailure(dataset, all, client.failingUploads, client.uploadError, client.deleteError);
      return Ok(dataset);
    }

    /**
     * `diff_files(dataset)`: both file maps are obtained, then this map's paths are classified
     * as added or modified and the other map's missing paths as removed.
     */
    method DiffFiles(other: LocalDataset) returns (r: Result<seq<Change>>)
      requires cache.Valid() && other.cache == cache
      modifies this`includesCache, this`excludesCache, this`filesCache
      modifies other`includesCache, other`excludesCache, other`filesCache, cache
      ensures cache.Valid()
      ensures old(FilesNow(false)).Err? ==> r == Err(old(FilesNow(false)).error)
      ensures r.Ok? ==> old(FilesNow(false)).Ok? && filesCache == Some(old(FilesNow(false)).value)
      ensures old(FilesNow(false)).Ok? && other != this && old(other.FilesNow(false)).Err? ==> r == Err(old(other.FilesNow(false)).error)
      ensures r.Ok? && other != this ==> other.filesCache.Some? && old(other.FilesNow(false)) == Ok(other.filesCache.value)
      ensures r.Ok? ==> filesCache.Some? && other.filesCache.Some?
                        && r.value == Diff(filesCache.value, other.filesCache.value)
      ensures old(FilesNow(false)).Ok? && other == this ==>
        r == Ok(Diff(old(FilesNow(false)).value, old(FilesNow(false)).value))
      ensures old(FilesNow(false)).Ok? && other != this && old(other.FilesNow(false)).Ok? ==>
        r == Ok(Diff(old(FilesNow(false)).value, old(other.FilesNow(false)).value))
      ensures ListingState() == old(ListingStateAfter(false))
      ensures other != this ==>
        other.ListingState() == if old(FilesNow(false)).Ok? then old(other.ListingStateAfter(false)) else old(other.ListingState())
    {
      var files :- GetFiles(false);
      var otherFiles :- other.GetFiles(false);
      var changes := AddedOrModified(files, otherFiles);
      var removed := RemovedFrom(files, otherFiles);
      return Ok(changes + removed);
    }
  }

  /** The file loop of `get_file`: the first file, in order, that `matches` accepts. */
  method FindFile(all: seq<File>, val: string, matches: (File, string) -> bool) returns (found: Option<File>)
    ensures found == FirstMatching(all, val, matches)
  {
    for i := 0 to |all|
      invariant forall j :: 0 <= j < i ==> !matches(all[j], val)
    {
      if matches(all[i], val) {
        return Some(all[i]);
      }
    }
    return None;
  }

  /** The first loop of `diff_files`: this map's paths, in order, added or modified. */
  method AddedOrModified(files: Dict<string, File>, otherFiles: Dict<string, File>) returns (changes: seq<Change>)
    ensures changes == AddsAndModifies(files.keys, files.vals, otherFiles.vals)
  {
    changes := [];
    for i := 0 to |files.keys|
      invariant changes == AddsAndModifies(files.keys[..i], files.vals, otherFiles.vals)
    {
      assert files.keys[..i + 1][..i] == files.keys[..i];
      var path := files.keys[i];
      var file := files.vals[path];
      if path in otherFiles.vals {
        var otherFile := otherFiles.vals[path];
        if !SameContent(file, otherFile) {
          changes := changes + [Modify(path, file, otherFile)];
        }
      } else {
        changes := changes + [Add(path, file)];
      }
    }
    assert files.keys[..|files.keys|] == files.keys;
  }

  /** The second loop of `diff_files`: the other map's paths, in order, that this map lacks. */
  method RemovedFrom(files: Dict<string, File>, otherFiles: Dict<string, File>) returns (changes: seq<Change>)
    ensures changes == Removes(otherFiles.keys, files.vals, otherFiles.vals)
  {
    changes := [];
    for i := 0 to |otherFiles.keys|
      invariant changes == Removes(otherFiles.keys[..i], files.vals, otherFiles.vals)
    {
      assert otherFiles.keys[..i + 1][..i] == otherFiles.keys[..i];
      var path := otherFiles.keys[i];
      if path !in files.vals {
        changes := changes + [Remove(path, otherFiles.vals[path])];
      }
    }
    assert otherFiles.keys[..|otherFiles.keys|] == otherFiles.keys;
  }
}
