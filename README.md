# fairly: local datasets, the repository registry and the package helpers

This project models the core of `fairly`, a Python toolkit that prepares research datasets and
uploads them to data repositories. It covers three parts:

- **The local dataset** (`LocalDataset`): a directory with a YAML manifest and a `.fairly_md5`
  hash cache.
  - `metadata` holds the dataset's metadata.
  - `files.includes` and `files.excludes` are wildcard rules that select the dataset's files.
- **The generic dataset operations** of the `Dataset` base class:
  - the memoised metadata and file map;
  - the first-match file lookup;
  - `save`;
  - the comparison of two file maps.
- **The package-level functions**:
  - the configuration lookup;
  - the merged and validated repository registry with its lookup by id or URL;
  - client resolution;
  - the metadata template list;
  - `init_dataset`;
  - the progress line `notify` prints.

Each module lives in its own file:

| module | file | what it holds |
|---|---|---|
| `Wrappers` | `wrappers.dfy` | `Option`, `Result`, and the Python exception kinds the code raises |
| `Values` | `values.dfy` | a parsed JSON/YAML value and Python truthiness |
| `Seqs` | `seqs.dfy` | facts about slicing and concatenating sequences, and distinct elements |
| `PyDict` | `pydict.dfy` | Python's insertion-ordered `dict` |
| `Text` | `text.dfy` | ASCII case mapping, decimal formatting and parsing, `str.split` |
| `Paths` | `paths.dfy` | `os.path.split`, `splitext` and `join` for POSIX paths |
| `Wildcard` | `wildcard.dfy` | `_match_rule` as a function of the rule and the name, its lemmas, and the class-wide `_regexps` cache as a class |
| `WildcardExamples` | `wildcard_examples.dfy` | the docstring's rules checked against sample paths |
| `HashCache` | `hashcache.dfy` | `_load_md5s` and the rule that attaches a cached hash |
| `Manifest` | `manifest.dfy` | `_get_manifest` normalisation and the `_set_manifest` defaults |
| `FileTree` | `filetree.dfy` | the breadth-first walk of `_get_files` and the per-file selection rule |
| `Datasets` | `datasets.dfy` | files, the path-keyed file map, `get_file`'s first match, `diff_files` |
| `Remote` | `remote.dfy` | the client operations `upload` calls, as a stub that records its calls |
| `Local` | `local.dfy` | `LocalDataset` as a class with its fields, and the upload's specification |
| `Config` | `config.dfy` | `get_config` |
| `Registry` | `registry.dfy` | `get_repositories`, `get_repository`, `client` |
| `Fairly` | `fairly.dfy` | `metadata_templates`, `init_dataset`, `notify` |

Code that changes state step by step is imperative in the model:

- `LocalDataset` is a class. Its fields are the manifest on disk, `_md5s`, the lazy
  `_includes`/`_excludes`, and the memoised `_metadata`/`_files`.
- The class-wide `_regexps` dictionary is the `RuleCache` class. Every dataset shares it.
- Each loop of the source is a method with a loop. Its contract ties the result and the new state
  to a specification function, and lemmas prove the promised properties of that function.
- Pure lookups and merges are functions.

The environment the code reads is passed in as parameters:

- the directory tree with its `stat` values;
- the manifest and repository files as parsed documents;
- `os.environ`;
- the set of client ids `get_clients()` discovers;
- the client's `get_config`;
- outcomes of the remote client calls, fixed in advance.

## Model

| member | source | states |
|---|---|---|
| Wildcard.StarMatchesAnyRun | src/fairly/dataset/local.py:171 | a lone `*` matches exactly the strings without a line feed |
| Wildcard.AnyCharMatchesOne | src/fairly/dataset/local.py:172 | a lone `?` matches exactly one character other than a line feed |
| Wildcard.LiteralMatchesItself | src/fairly/dataset/local.py:201-202 | a part without wildcards matches exactly the strings of its length equal to it up to case (`re.IGNORECASE`) |
| Wildcard.GlobConcat | src/fairly/dataset/local.py:201-202 | a concatenated pattern matches exactly when some split of the string matches part by part |
| Wildcard.DirectoryPartsAgree | src/fairly/dataset/local.py:207-214 | a matching name has a directory part exactly when the rule has one |
| Wildcard.FullMatchWithoutLineFeed | src/fairly/dataset/local.py:202 | without a line feed, the `^…$` match is the plain whole-string match |
| Wildcard.RootRule | src/fairly/dataset/local.py:207-214 | a rule without `/` matches exactly the non-empty root-level names its pattern matches |
| Wildcard.StarRule | src/fairly/dataset/local.py:177 | `*` selects exactly the root-level files and nothing in a subdirectory |
| Wildcard.ExtensionRule | src/fairly/dataset/local.py:178 | `*` + extension selects exactly the root-level names ending in the extension, ignoring case |
| Wildcard.StarThenLiteral | src/fairly/dataset/local.py:171 | `*` followed by a literal matches exactly the strings ending in the literal, up to case |
| Wildcard.DirectoryRule | src/fairly/dataset/local.py:173 | `d/n` with a literal `d` matches exactly when the whole directory part equals `d` up to case and the name matches `n` |
| Wildcard.FixedLength | src/fairly/dataset/local.py:172 | without `*`, a pattern matches only strings of its own length |
| Wildcard.RuleCache.constructor | src/fairly/dataset/local.py:31 | the class-wide cache starts empty and consistent |
| Wildcard.RuleCache.MatchRule | src/fairly/dataset/local.py:167-214 | the answer is `Matches(name, rule)` whatever the cache held; the cache gains the rule's compilation and a cached entry never changes |
| Wildcard.CompileParts | src/fairly/dataset/local.py:197-204 | the loop over the rule's two parts compiles each non-empty part and records `None` for an empty one |
| Wildcard.MatchParts | src/fairly/dataset/local.py:206-214 | true exactly when each non-empty part of the name matches its compiled rule part and each empty part meets an empty rule part |
| WildcardExamples.PdfRuleMatches | src/fairly/dataset/local.py:178 | `*.pdf` selects `file.pdf` and, ignoring case, `REPORT.PDF` |
| WildcardExamples.PdfRuleRejectsLongerExtension | src/fairly/dataset/local.py:178 | `*.pdf` rejects `report.PDFX`: the match is anchored at the end |
| WildcardExamples.PdfRuleRejectsSubdirectory | src/fairly/dataset/local.py:178 | `*.pdf` rejects `docs/file.pdf` |
| WildcardExamples.SpreadsheetRuleMatches | src/fairly/dataset/local.py:179-180 | `*.xls*` selects `file.xls` and `file.xlsx` |
| WildcardExamples.PlaceholderRuleMatches | src/fairly/dataset/local.py:181-183 | `table_??.csv` selects `table_01.csv` and `table_a5.csv` |
| WildcardExamples.PlaceholderRuleRejectsShort | src/fairly/dataset/local.py:181-183 | `table_??.csv` rejects `table_1.csv`: each `?` takes exactly one character |
| WildcardExamples.DocstringRuleRejectsExample | src/fairly/dataset/local.py:181-183 | the docstring's own spelling `table_??.cvs` rejects its example `table_01.csv` |
| WildcardExamples.DataRuleMatches | src/fairly/dataset/local.py:184-185 | `data/*.csv` selects `data/table.csv` and, ignoring case, `DATA/results.CSV` |
| WildcardExamples.DataRuleRejectsDeeper | src/fairly/dataset/local.py:184-185 | `data/*.csv` rejects `data/sub/table.csv`: the directory part must be `data` as a whole |
| WildcardExamples.DataRuleRejectsRoot | src/fairly/dataset/local.py:184-185 | `data/*.csv` rejects the root-level `table.csv` |
| WildcardExamples.NestedDirectoryRuleMatches | src/fairly/dataset/local.py:186-188 | `data/*/*.csv` selects `data/set1/results.csv` |
| HashCache.LoadedTable | src/fairly/dataset/local.py:270-280 | a missing `.fairly_md5` loads as the empty table |
| HashCache.TableOfSucceeds | src/fairly/dataset/local.py:277-278 | the cache loads exactly when every row unpacks into four fields |
| HashCache.TableOfStopsAtError | src/fairly/dataset/local.py:277-278 | rows after a malformed one are never read |
| HashCache.TableKeys | src/fairly/dataset/local.py:277-278 | the names in the table are exactly the names of the rows |
| HashCache.LastRowWins | src/fairly/dataset/local.py:278 | a name's entry comes from the last row that carries it |
| HashCache.CachedMd5AsWrittenNeverValidates | src/fairly/dataset/local.py:256-260 | as written, an entry stored for the file's live time and size is still discarded |
| HashCache.CachedMd5 | src/fairly/dataset/local.py:254-265 | an attached hash is the stored entry's hash |
| HashCache.CachedMd5Sound | src/fairly/dataset/local.py:258 | an attached hash means the stored date and size read back as the live modification time and size |
| HashCache.CacheHonoured | src/fairly/dataset/local.py:256-260 | an entry written for the file's time and size is honoured while both are unchanged |
| HashCache.CacheInvalidated | src/fairly/dataset/local.py:258-260 | the entry is dropped once the modification time or the size changes |
| Manifest.GetManifest | src/fairly/dataset/local.py:64-86 | a loaded manifest has exactly `metadata`, `template` and `files`, the last with exactly `includes` and `excludes` |
| Manifest.Normalise | src/fairly/dataset/local.py:78-86 | any mapping normalises to the three sections |
| Manifest.MissingManifestDefaults | src/fairly/dataset/local.py:71-77 | a missing or empty manifest loads as `{}` metadata, `""` template and empty rule lists |
| Manifest.GetManifestFails | src/fairly/dataset/local.py:72-78 | loading fails exactly for an unreadable file, a true document that is not a mapping, or a `files` value that is not a mapping |
| Manifest.PresentSectionsCopied | src/fairly/dataset/local.py:78-86 | sections present in the document are copied unchanged and absent ones take their defaults |
| Manifest.WithDefaults | src/fairly/dataset/local.py:146-153 | the written document keeps every given key and adds `metadata`/`files` defaults only when missing |
| Manifest.WithDefaultsIdempotent | src/fairly/dataset/local.py:146-153 | filling in the defaults twice is filling them in once |
| Manifest.WithDefaultsKeepsNormal | src/fairly/dataset/local.py:146-153 | a loaded manifest is written as it is |
| Manifest.SaveLoadRoundTrip | src/fairly/dataset/local.py:64-86 | writing a loaded manifest and loading it back gives the same manifest |
| Manifest.SaveIsIdempotent | src/fairly/dataset/local.py:161-164 | load, save, load and save again writes what the first save wrote |
| Manifest.ReplaceSection | src/fairly/dataset/local.py:161-164 | replacing one section and saving changes that section only, as the next load shows |
| FileTree.ListingReachesAll | src/fairly/dataset/local.py:221-228 | the breadth-first `dirs` queue walk lists the files of every queued directory tree, as a multiset |
| FileTree.WalkListsTree | src/fairly/dataset/local.py:221-228 | the walk from the root lists exactly the files of the tree |
| FileTree.TreeSplit | src/fairly/dataset/local.py:224-227 | a directory's files are its direct files plus those of its subdirectories |
| FileTree.QueueShrinks | src/fairly/dataset/local.py:222-227 | popping a directory and queueing its subdirectories shrinks the work left, so the walk ends |
| FileTree.EnumerateStopsAtError | src/fairly/dataset/local.py:234-253 | an error raised by a rule ends the listing with that error |
| FileTree.ListMatchesStrings | src/fairly/dataset/local.py:235-239 | the rule loop over strings finds a match exactly when some rule matches |
| FileTree.SelectionRule | src/fairly/dataset/local.py:231-253 | a file is kept iff it is not the manifest, the includes are non-empty, some include matches and no exclude matches |
| FileTree.EmptyIncludesKeepNothing | src/fairly/dataset/local.py:234-243 | empty includes keep no file, whatever the excludes |
| FileTree.EnumerateKeeps | src/fairly/dataset/local.py:229-266 | the kept records are exactly those of the listed files that pass the test, each with its cache-checked hash |
| Datasets.IndexKeys | src/fairly/dataset/__init__.py:81-85 | the file map holds each path once, in the order of first appearance |
| Datasets.IndexLastWins | src/fairly/dataset/__init__.py:83-84 | the file stored for a path is the last listed file with that path |
| Datasets.IndexValuesListed | src/fairly/dataset/__init__.py:83-84 | every stored file is a listed file stored under its own path |
| Datasets.FirstMatching | src/fairly/dataset/__init__.py:97-101 | the result is the first accepted file, or none when no file is accepted |
| Datasets.AddsAndModifiesExactly | src/fairly/dataset/__init__.py:141-149 | the first loop yields exactly the additions and modifications of this map's paths |
| Datasets.RemovesExactly | src/fairly/dataset/__init__.py:150-152 | the second loop yields exactly the removals of the other map's paths |
| Datasets.DiffClassifies | src/fairly/dataset/__init__.py:137-153 | a change is listed iff it is the expected one: equal size and hash means no entry, a difference is a modify, a path only here is an add, a path only there is a remove |
| Datasets.DiffPathsDistinct | src/fairly/dataset/__init__.py:137-153 | no path is listed twice |
| Local.ReadMetadata | src/fairly/dataset/local.py:126-134 | the metadata is the manifest's `metadata` mapping; a section that is not a mapping raises `TypeError` |
| Local.TotalSizeConcat | src/fairly/dataset/local.py:323-325 | the total of two lists is the sum of their totals |
| Local.TotalSizeBounds | src/fairly/dataset/local.py:323-325 | no file is larger than the total, and the total is zero iff every file is empty |
| Local.SizeAsWrittenFailsOnFiles | src/fairly/dataset/local.py:320-327 | as written, `size` succeeds only for a dataset with no files |
| Local.FirstFailure | src/fairly/dataset/local.py:310-311 | the index of the first file whose upload fails, or none when none fails |
| Local.UploadSucceeds | src/fairly/dataset/local.py:305-317 | a successful upload creates once, uploads every file in order and deletes nothing |
| Local.UploadRollsBack | src/fairly/dataset/local.py:307-315 | after a failing upload, the files up to it have been uploaded, nothing after; the delete runs once, last; the upload error is raised unless the delete fails |
| Local.UploadRefreshFails | src/fairly/dataset/local.py:309-315 | a failing refresh of the file list deletes the remote dataset before any upload |
| Local.UploadCreateFails | src/fairly/dataset/local.py:305 | a failing `create_dataset` makes no further call |
| Local.AfterCreateShape | src/fairly/dataset/local.py:307-315 | after the creation, nothing is created again; exactly one delete happens, last, iff the upload fails |
| Local.UploadCallShape | src/fairly/dataset/local.py:292-317 | in every case, the create comes first and at most once, and the delete at most once and last, exactly when a created dataset's upload fails |
| Local.LocalDataset.constructor | src/fairly/dataset/local.py:50-58 | a dataset starts with empty caches and unloaded rules |
| Local.LocalDataset.Open | src/fairly/dataset/local.py:33-61 | a path that is not a directory raises `NotADirectoryError`; otherwise the dataset opens exactly when the hash cache loads, holding the loaded table |
| Local.LocalDataset.LoadMd5s | src/fairly/dataset/local.py:270-280 | the row loop leaves exactly the loaded table, or the error of the first malformed row |
| Local.LocalDataset.Includes | src/fairly/dataset/local.py:106-113 | the manifest is read only while the field holds `None`; the loaded rules are kept |
| Local.LocalDataset.Excludes | src/fairly/dataset/local.py:116-123 | the same for the exclusion rules |
| Local.LocalDataset.GetMetadata | src/fairly/dataset/__init__.py:37-48 | the manifest is read only when nothing is cached or a refresh is asked for; the result is cached |
| Local.LocalDataset.SetMetadata | src/fairly/dataset/__init__.py:57-58 | the given keys replace or join the cached metadata and the others stay |
| Local.LocalDataset.SetManifest | src/fairly/dataset/local.py:137-158 | the written manifest is the given one with the missing sections filled in |
| Local.LocalDataset.SaveMetadata | src/fairly/dataset/local.py:161-164 | the loaded manifest is written back with its `metadata` replaced by the dataset's metadata; on failure nothing is written |
| Local.LocalDataset.SaveFiles | src/fairly/dataset/local.py:283-289 | the loaded manifest is written back with `files` replaced by the current rules; on failure nothing is written; `_includes`/`_excludes` hold the rules read from the old manifest |
| Local.LocalDataset.Save | src/fairly/dataset/__init__.py:121-123 | the metadata is saved first; the rules are saved only if that succeeded, on the manifest it wrote; `_metadata` and the rule fields afterwards |
| Local.LocalDataset.AnyMatch | src/fairly/dataset/local.py:235-251 | the rule loop over any manifest value agrees with the selection function and keeps the cache consistent |
| Local.LocalDataset.ListAnyMatch | src/fairly/dataset/local.py:236-239 | the loop over a rule list, stopping at the first match or the first rule that is not a string |
| Local.LocalDataset.StringAnyMatch | src/fairly/dataset/local.py:236-239 | a string of rules matches iff one of its characters, taken as a rule, matches |
| Local.LocalDataset.KeyAnyMatch | src/fairly/dataset/local.py:236-239 | a mapping of rules matches iff one of its keys matches |
| Local.LocalDataset.DecideFile | src/fairly/dataset/local.py:231-266 | the decision for one file agrees with the selection rule and the cache rule |
| Local.LocalDataset.ListFiles | src/fairly/dataset/local.py:217-267 | `_get_files` loads the excludes, then the includes, and lists exactly the kept files in walk order; the rule fields then hold what was read |
| Local.LocalDataset.Walk | src/fairly/dataset/local.py:221-228 | the `while dirs` loop lists the kept files of the breadth-first walk from the root |
| Local.LocalDataset.ScanDirectory | src/fairly/dataset/local.py:224-266 | one directory's entries, in listing order, extend the kept files and queue its subdirectories |
| Local.LocalDataset.GetFiles | src/fairly/dataset/__init__.py:72-86 | the files are listed only when nothing is cached or a refresh is asked for; the result is the path-keyed map of the listing, and it is cached; `_files`, `_includes` and `_excludes` afterwards (`ListingStateAfter`) |
| Local.LocalDataset.GetFile | src/fairly/dataset/__init__.py:95-101 | the first file in map order that `file.match(val)` accepts, or `None`; the memo fields as `get_files` leaves them |
| Local.FindFile | src/fairly/dataset/__init__.py:97-101 | the loop returns the first file in map order that `file.match(val)` accepts, or `None` |
| Local.LocalDataset.Size | src/fairly/dataset/local.py:320-327 | the total size is the sum of the sizes of the dataset's files; the memo fields as `get_files()` leaves them |
| Local.LocalDataset.Upload | src/fairly/dataset/local.py:292-317 | an unrecognised target raises `ValueError`; an unresolvable id raises its error; otherwise the client's calls and the outcome follow the upload specification; `_metadata` is cached, and once the create succeeds the memo fields hold the fresh listing, even after a rollback; an unresolved target changes nothing |
| Local.LocalDataset.UploadWith | src/fairly/dataset/local.py:305-317 | with the client known: the metadata, then create, refresh and upload, with the compensating delete; `_metadata` and the memo fields afterwards |
| Local.LocalDataset.CreateAndTransfer | src/fairly/dataset/local.py:305-315 | the create call, then the transfer: the calls the client sees and the outcome are those the upload specification gives; the fresh listing is cached exactly when the create succeeds |
| Local.LocalDataset.Transfer | src/fairly/dataset/local.py:307-315 | the `try` block and its handler, once the remote dataset exists; the memo fields as `get_files(refresh=True)` leaves them |
| Local.LocalDataset.UploadAll | src/fairly/dataset/local.py:310-315 | the upload loop stops at the first failure and deletes the remote dataset |
| Local.LocalDataset.DiffFiles | src/fairly/dataset/__init__.py:137-153 | both file maps are obtained; when both listings succeed the result is exactly `Diff` of the two maps (of one map with itself when the same dataset is given), and a failure to obtain either is raised; both datasets' memo fields afterwards, the same dataset given twice included |
| Local.AddedOrModified | src/fairly/dataset/__init__.py:141-149 | the first loop of `diff_files` yields the additions and modifications of this map's paths, in map order |
| Local.RemovedFrom | src/fairly/dataset/__init__.py:150-152 | the second loop yields the removals of the other map's paths, in its order |
| Config.FileSection | src/fairly/__init__.py:43-49 | a missing file contributes nothing; a mapping document never fails; a non-empty contribution is the document's own section for the prefix |
| Config.GetConfig | src/fairly/__init__.py:20-60 | the file section, then each prefixed variable in order setting its lower-cased key |
| Config.OverlayKeys | src/fairly/__init__.py:52-58 | the result's keys are exactly the file's keys and those set by prefixed variables |
| Config.EnvironmentWins | src/fairly/__init__.py:54-58 | the last variable that sets a key decides its value, whatever the file says |
| Config.FileValueKept | src/fairly/__init__.py:46-58 | a key no variable sets keeps the file's value |
| Config.UnprefixedIgnored | src/fairly/__init__.py:55-56 | variables without the prefix change nothing |
| Config.MissingFileIsEmpty | src/fairly/__init__.py:43-49 | a missing file contributes nothing, and a malformed one fails the call |
| Registry.Update | src/fairly/__init__.py:123 | updating with a mapping overrides key by key |
| Registry.ClientIdOf | src/fairly/__init__.py:133-138 | an id passes exactly when its attributes carry a known string `client_id`, which it returns |
| Registry.ClientIdErrors | src/fairly/__init__.py:133-136 | "No client id" is raised exactly when `client_id` is missing; "Invalid client_id" exactly when it is present but not a known client |
| Registry.MergeInto | src/fairly/__init__.py:117-125 | one source merged into the data, item by item |
| Registry.MergeItemsInto | src/fairly/__init__.py:119-123 | the item loop gives the merge of the items in document order, or the error of the first item that fails |
| Registry.MergeOne | src/fairly/__init__.py:120-123 | an unknown id is inserted with its attributes; a known one has its attributes updated, failing as `update` fails |
| Registry.GetRepositories | src/fairly/__init__.py:97-144 | the merge loop over both sources, then the validation loop |
| Registry.MergeSourcesStopsAtError | src/fairly/__init__.py:114-125 | an error in one source ends the merge |
| Registry.FirstSourceInserted | src/fairly/__init__.py:119-121 | the first source is taken as it is, in document order |
| Registry.MergeMappings | src/fairly/__init__.py:119-123 | merging mapping items never fails; known ids keep their place and, unless named, their attributes; the ids become the union |
| Registry.MergeMappingsValues | src/fairly/__init__.py:120-123 | each id of the source joins with its attributes, or has its attributes updated key by key |
| Registry.LaterSourceWins | src/fairly/__init__.py:113-125 | with two object sources, the user's file wins per key, the packaged ids keep their place, and the ids are the union |
| Registry.ValidateAllOk | src/fairly/__init__.py:130-141 | validation succeeds exactly when every id passes |
| Registry.ValidatedEntries | src/fairly/__init__.py:130-141 | a successful validation lists each id once, in merge order, with its entry |
| Registry.ValidateFirstError | src/fairly/__init__.py:133-136 | the first id that fails decides the error raised |
| Registry.EntryOf | src/fairly/__init__.py:131-141 | each returned entry is built from the merged attributes of its id |
| Registry.EntriesCarryIds | src/fairly/__init__.py:131-140 | each entry has `id` and `client_id`; unless the client configuration replaces them, they are the entry's id and a known client |
| Registry.GetRepository | src/fairly/__init__.py:170-195 | the exact id first, then the first entry whose `url` is the identifier, else `None` |
| Registry.ExactIdWins | src/fairly/__init__.py:188-189 | an exact id wins, even over an entry whose `url` is the same string |
| Registry.FirstUrlMatch | src/fairly/__init__.py:191-193 | otherwise the first entry whose `url` is the identifier is returned |
| Registry.NoUrlMatch | src/fairly/__init__.py:191-195 | no matching id or `url` gives `None` |
| Registry.MissingUrlRaises | src/fairly/__init__.py:192 | an entry without `url`, reached by the search, raises `KeyError` |
| Registry.Construct | src/fairly/__init__.py:229-232 | the construction succeeds exactly for a known client id; an unknown one raises `ValueError("Invalid client id: …")` |
| Registry.ClientResolution | src/fairly/__init__.py:222-232 | a repository id resolves to its client with `repository_id` added; anything else is a client id; `ValueError` exactly when the result is not a known client |
| Registry.RepositoryClient | src/fairly/__init__.py:222-232 | `client(rid)` for a registered repository always succeeds, constructing its validated client with `repository_id=rid` |
| Fairly.YamlTemplatesConcat | src/fairly/__init__.py:161-165 | the filter works entry by entry: the templates of two listings joined are those of each, in listing order |
| Fairly.MetadataTemplates | src/fairly/__init__.py:149-167 | the loop over the listing keeps the base names of the `.yaml` entries, in listing order |
| Fairly.YamlTemplatesMembers | src/fairly/__init__.py:161-165 | a name is listed iff some entry splits into it and `.yaml` |
| Fairly.TemplatesExactly | src/fairly/__init__.py:161-165 | the templates are exactly the names `n` with an entry `n.yaml`, where `n` is not dots only |
| Fairly.InitDataset | src/fairly/__init__.py:279-304 | the manifest is written iff the call succeeds: the path exists or may be created, is a directory, the manifest path (checked after `makedirs`) does not exist, and the template exists; `NotADirectoryError` exactly for a non-directory and `ValueError` for every other failure, with the `Invalid path` and `Invalid template name` messages in their cases; the directory is made exactly when absent and allowed; the text written |
| Fairly.NeverOverwrites | src/fairly/__init__.py:279-290 | an existing manifest is never overwritten, whether the directory existed or was just made: `Operation not permitted`, nothing written |
| Fairly.ManifestLines | src/fairly/__init__.py:300-304 | the manifest reads as the template's lines, then `template: <name>`, `files:` and the two empty rule lists |
| Fairly.Notify | src/fairly/__init__.py:309-317 | the printed line starts with the file's path and a comma |
| Fairly.FractionRoundTrip | src/fairly/__init__.py:312-317 | a printed fraction `a/b` reads back as `a` and `b` |
| Fairly.NotifyFields | src/fairly/__init__.py:309-317 | without a total, or for an unfinished file, the file's own progress is shown; the overall progress comes last whenever there is a total; there are two fields exactly when both are shown |

## Left out

- File I/O is not modelled; its contents are parameters:
  - JSON parsing: the configuration file and `repositories.json` arrive as parsed documents or as
    "missing" / "malformed".
  - YAML loading and dumping: the manifest is a parsed `Value`; writing it is modelled as storing
    that document.
  - CSV reading of `.fairly_md5`: its rows arrive as lists of text fields.
  - `os.listdir` and `stat`: the directory tree is a value, listed in a fixed order.
  - I/O errors other than a missing file.
- `Value` has no floating-point case, so JSON or YAML floats in configuration values, repository
  attributes and manifest metadata cannot be represented.
- Modification times are modelled as whole numbers, and `CachedMd5` compares them as decimal text.
  The source's times are floating point.
- Symbolic links and special files are not modelled. Paths are relative POSIX paths.
  `fullpath == self._manifest_path` is compared as the relative path against the manifest name.
- `re.IGNORECASE` folds ASCII letters only. Unicode case folding is not modelled.
- GetConfig: `prefix.upper()` and `key[start:].lower()` are modelled on ASCII letters only
  (`Config.EnvPrefix` and `Config.KeyOf` use `Text.UpperStr` and `Text.LowerStr`). Python maps
  the whole of Unicode, so for a prefix such as `straße` the source reads `FAIRLY_STRASSE_…`
  variables and the model does not.
- `Metadata` is modelled as its keyword dictionary:
  - `Metadata.serialize()` is taken as the identity.
  - `Metadata.update` is taken as a dictionary update.
  - The `Metadata(**manifest["metadata"])` call needs a mapping; anything else is `TypeError`.
- `LocalFile` is the record of path, size and cached hash. The source computes the size from the
  file itself; here it is taken from the listing's `stat`.
- `file.match(val)` depends on the file class, which is not part of this model. `GetFile` takes it
  as a parameter.
- The truth value of `other_file` in `diff_files` is taken as "present". A file object is always
  true.
- `Registry.Update`: a non-empty list is modelled as raising `TypeError`. The source's
  `dict.update` would accept a list of key/value pairs.
- `get_clients()`: the discovery of client classes is not modelled. Its result is the `clients` set
  of ids. `clients[id](**kwargs)` is the `ClientCall` value.
- `client.get_config(**attrs)` is the `clientConfig` parameter.
- The `lru_cache` memoisation of `get_repositories`, `metadata_templates` and `get_clients` is not
  modelled. Each call is computed anew, which gives the same result for the same files.
- `upload` resolves a string through `fairly.client`, whose outcome is part of the `Target` value.
  The `notify` callback passed to `upload_file` is not modelled.
- The remote client (`remote.py`) is not part of this model beyond the three calls `upload` makes.
  Their outcomes are fixed when the stub is made.
- `init_dataset` is modelled up to the written manifest:
  - Its final `dataset(path)` call and the DOI/URL dispatch of `dataset` are not modelled.
  - A failing `os.makedirs` is not modelled.
  - `manifest_file` itself is not modelled. Whether the joined manifest path exists is an input
    of its own, so a manifest outside a directory just made is covered.
- `notify` returns the line instead of printing it. Numbers print as decimal integers.
- The command-line interface, `diff_metadata`, which computes nothing and only reads both
  datasets' metadata, and the `title`, `manifest` and
  `template` cached properties are not modelled.
- The `file` property is not modelled. It cannot be called as written, since a property takes no
  argument.
- `$` in the rule patterns also matches before a final line feed, as in Python's `re`. Paths
  containing line feeds are allowed but are not otherwise explored.

## Findings

| source | as written | input that shows it | evidently intended | confidence | as-written member | corrected member |
|---|---|---|---|---|---|---|
| src/fairly/dataset/local.py:256-260 | the cached date and size, read from CSV as text, are compared with `!=` against the numbers `os.path.getmtime` and `os.path.getsize` return | any file whose `.fairly_md5` entry records its current time and size: `"5" != 5` is true, so the hash is discarded | keep the cached hash while the stored time and size equal the live ones | not executed | HashCache.CachedMd5AsWrittenNeverValidates | HashCache.CacheHonoured |
| src/fairly/dataset/local.py:320-327 | `for file in self.files` iterates the keys of the file dictionary, so `file.size` is looked up on a path string | any dataset with at least one file raises `AttributeError` | sum `file.size` over the dictionary's values | not executed | Local.SizeAsWrittenFailsOnFiles | Local.LocalDataset.Size |
| src/fairly/dataset/local.py:181-188 | the docstring's example rules end in `.cvs` while their examples end in `.csv` | the rule `table_??.cvs` rejects its own example `table_01.csv` | the rules `table_??.csv`, `data/*.csv` and `data/*/*.csv` | not executed | WildcardExamples.DocstringRuleRejectsExample | WildcardExamples.PlaceholderRuleMatches |
