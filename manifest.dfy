/**
 * The dataset manifest: how a loaded YAML document is normalised into the three sections
 * `metadata`, `template` and `files` (with `includes` and `excludes`), and which defaults are
 * added before a manifest is written back.
 */
module Manifest {
  import opened Wrappers
  import opened Values

  /** The manifest file as the YAML loader sees it. */
  datatype ManifestFile =
    | Absent                // no file at the manifest path
    | Invalid               // a file the YAML loader rejects
    | Parsed(doc: Value)    // the loaded document (`VNull` for an empty file)

  const EmptyFiles: Value := VMap(map["includes" := EmptyList, "excludes" := EmptyList])

  /** What `_get_manifest` gives for a missing or empty manifest. */
  const DefaultManifest: map<string, Value> :=
    map["metadata" := EmptyMap, "template" := VStr(""), "files" := EmptyFiles]

  /** `d.get(key, default)` on a mapping. */
  function GetOr(m: map<string, Value>, key: string, default: Value): Value {
    if key in m then m[key] else default
  }

  /** A `files` section: exactly the rule lists `includes` and `excludes`. */
  predicate FilesShaped(v: Value) {
    v.VMap? && v.fields.Keys == {"includes", "excludes"}
  }

  /** A manifest as `_get_manifest` returns it: exactly the three sections, `files` being files-shaped. */
  predicate Normal(m: map<string, Value>) {
    m.Keys == {"metadata", "template", "files"} && FilesShaped(m["files"])
  }

  /**
   * `_get_manifest()`: a missing file or a false document becomes `{}`; a document that is not a
   * mapping, or a `files` value that is not one, has no `.get` and raises `AttributeError`.
   */
  function GetManifest(file: ManifestFile): (r: Result<map<string, Value>>)
    ensures r.Ok? ==> Normal(r.value)
  {
    match file
    case Invalid => Err(ParseError)
    case Absent => Ok(Normalise(map[]))
    case Parsed(doc) =>
      if !Truthy(doc) then Ok(Normalise(map[]))
      else if !doc.VMap? then Err(AttributeError("manifest is not a mapping"))
      else if "files" in doc.fields && !doc.fields["files"].VMap? then Err(AttributeError("files is not a mapping"))
      else Ok(Normalise(doc.fields))
  }

  function Normalise(m: map<string, Value>): (r: map<string, Value>)
    requires "files" in m ==> m["files"].VMap?
    ensures Normal(r)
  {
    var files := GetOr(m, "files", EmptyMap).fields;
    map[
      "metadata" := GetOr(m, "metadata", EmptyMap),
      "template" := GetOr(m, "template", VStr("")),
      "files" := VMap(map["includes" := GetOr(files, "includes", EmptyList), "excludes" := GetOr(files, "excludes", EmptyList)])]
  }

  /** A missing or empty manifest loads as the documented defaults. */
  lemma MissingManifestDefaults(file: ManifestFile)
    requires file.Absent? || (file.Parsed? && !Truthy(file.doc))
    ensures GetManifest(file) == Ok(DefaultManifest)
  {
  }

  /** Loading fails exactly for an unreadable file, a true non-mapping document, or a non-mapping `files`. */
  lemma GetManifestFails(file: ManifestFile)
    ensures GetManifest(file).Err? <==>
      || file.Invalid?
      || (file.Parsed? && Truthy(file.doc) && !file.doc.VMap?)
      || (file.Parsed? && file.doc.VMap? && "files" in file.doc.fields && !file.doc.fields["files"].VMap?)
  {
  }

  /** Sections present in the document are copied unchanged; absent ones take their defaults. */
  lemma PresentSectionsCopied(fields: map<string, Value>)
    requires fields != map[]
    requires "files" in fields ==> fields["files"].VMap?
    ensures GetManifest(Parsed(VMap(fields))).Ok?
    ensures var m := GetManifest(Parsed(VMap(fields))).value;
      && m["metadata"] == GetOr(fields, "metadata", EmptyMap)
      && m["template"] == GetOr(fields, "template", VStr(""))
      && var files := GetOr(fields, "files", EmptyMap).fields;
         m["files"].fields["includes"] == GetOr(files, "includes", EmptyList)
         && m["files"].fields["excludes"] == GetOr(files, "excludes", EmptyList)
  {
    assert Truthy(VMap(fields));
  }

  /**
   * `_set_manifest(manifest)`: the document written is the given one with `metadata` and `files`
   * filled in when, and only when, they are missing.
   */
  function WithDefaults(m: map<string, Value>): (r: map<string, Value>)
    ensures r.Keys == m.Keys + {"metadata", "files"}
    ensures forall k :: k in m ==> r[k] == m[k]
    ensures "metadata" !in m ==> r["metadata"] == EmptyMap
    ensures "files" !in m ==> r["files"] == EmptyFiles
  {
    var withMetadata := if "metadata" in m then m else m["metadata" := EmptyMap];
    if "files" in withMetadata then withMetadata else withMetadata["files" := EmptyFiles]
  }

  /** Filling in the defaults twice is filling them in once. */
  lemma WithDefaultsIdempotent(m: map<string, Value>)
    ensures WithDefaults(WithDefaults(m)) == WithDefaults(m)
  {
  }

  /** A normal manifest is written as it is. */
  lemma WithDefaultsKeepsNormal(m: map<string, Value>)
    requires Normal(m)
    ensures WithDefaults(m) == m
  {
  }

  /** Writing a normal manifest and loading it back gives the same manifest. */
  lemma SaveLoadRoundTrip(m: map<string, Value>)
    requires Normal(m)
    ensures GetManifest(Parsed(VMap(WithDefaults(m)))) == Ok(m)
  {
    WithDefaultsKeepsNormal(m);
    assert "metadata" in m;
    assert Truthy(VMap(m));
    var files := m["files"].fields;
    assert files.Keys == {"includes", "excludes"};
    assert Normalise(m)["files"] == VMap(files);
    assert Normalise(m) == m;
  }

  /** Saving what was loaded, loading it, and saving again writes what the first save wrote. */
  lemma SaveIsIdempotent(file: ManifestFile)
    requires GetManifest(file).Ok?
    ensures var saved := WithDefaults(GetManifest(file).value);
      GetManifest(Parsed(VMap(saved))).Ok? && WithDefaults(GetManifest(Parsed(VMap(saved))).value) == saved
  {
    SaveLoadRoundTrip(GetManifest(file).value);
  }

  /** Replacing one section of a loaded manifest and saving changes that section only. */
  lemma ReplaceSection(m: map<string, Value>, key: string, v: Value)
    requires Normal(m)
    requires key == "metadata" || key == "template" || (key == "files" && FilesShaped(v))
    ensures GetManifest(Parsed(VMap(WithDefaults(m[key := v])))) == Ok(m[key := v])
    ensures forall k :: k in m && k != key ==> m[key := v][k] == m[k]
  {
    SaveLoadRoundTrip(m[key := v]);
  }
}
