/**
 * The package-level helpers of `fairly`: the list of metadata templates, the creation of a new
 * local dataset from a template, and the progress line printed while files are transferred.
 */
module Fairly {
  import opened Wrappers
  import opened Text
  import Paths
  import opened Seqs

  // ---------------------------------------------------------------------------------------------
  // metadata_templates

  /** The names of the `.yaml` entries of a directory listing, in listing order. */
  function YamlTemplates(listing: seq<string>): (r: seq<string>)
    ensures |r| <= |listing|
    decreases |listing|
  {
    if listing == [] then []
    else
      var names := YamlTemplates(listing[..|listing| - 1]);
      var (name, ext) := Paths.SplitExt(listing[|listing| - 1]);
      if ext == ".yaml" then names + [name] else names
  }

  /** `metadata_templates()` over the listing of the packaged templates directory. */
  method MetadataTemplates(listing: seq<string>) returns (templates: seq<string>)
    ensures templates == YamlTemplates(listing)
  {
    templates := [];
    for i := 0 to |listing|
      invariant templates == YamlTemplates(listing[..i])
    {
      assert listing[..i + 1][..i] == listing[..i];
      var (name, ext) := Paths.SplitExt(listing[i]);
      if ext == ".yaml" {
        templates := templates + [name];
      }
    }
    assert listing[..|listing|] == listing;
  }

  /** A name is listed exactly when some entry splits into it and the `.yaml` extension. */
  lemma {:induction false} YamlTemplatesMembers(listing: seq<string>, n: string)
    ensures n in YamlTemplates(listing) <==> exists f :: f in listing && Paths.SplitExt(f) == (n, ".yaml")
    decreases |listing|
  {
    if listing != [] {
      var init := listing[..|listing| - 1];
      var last := listing[|listing| - 1];
      YamlTemplatesMembers(init, n);
      YamlTemplatesLast(listing, n);
      SnocMembers(listing);
      if Paths.SplitExt(last) == (n, ".yaml") {
        assert last in listing;
      }
    }
  }

  /** The filter works entry by entry: the templates of two listings are those of each, in order. */
  lemma {:induction false} YamlTemplatesConcat(a: seq<string>, b: seq<string>)
    ensures YamlTemplates(a + b) == YamlTemplates(a) + YamlTemplates(b)
    decreases |b|
  {
    if b == [] {
      assert a + b == a;
    } else {
      var init := b[..|b| - 1];
      YamlTemplatesConcat(a, init);
      ConcatInit(a, b);
      assert (a + b)[|a + b| - 1] == b[|b| - 1];
    }
  }

  /** A name is listed iff the entries before the last list it or the last entry is `n.yaml`. */
  lemma YamlTemplatesLast(listing: seq<string>, n: string)
    requires listing != []
    ensures n in YamlTemplates(listing) <==>
      n in YamlTemplates(listing[..|listing| - 1]) || Paths.SplitExt(listing[|listing| - 1]) == (n, ".yaml")
  {
  }

  lemma YamlExtension()
    ensures var ext := ".yaml"; ext != [] && ext[0] == '.' && '.' !in ext[1..] && '/' !in ext
  {
    var ext := ".yaml";
    assert ext[1..] == "yaml";
  }

  /**
   * The templates are exactly the base names `n` of the entries named `n.yaml`, where `n` is not
   * made of dots only (`os.path.splitext(".yaml")` has no extension).
   */
  lemma TemplatesExactly(listing: seq<string>, n: string)
    requires forall f :: f in listing ==> '/' !in f
    ensures n in YamlTemplates(listing) <==> n + ".yaml" in listing && exists k :: 0 <= k < |n| && n[k] != '.'
  {
    YamlTemplatesMembers(listing, n);
    YamlExtension();
    forall f | f in listing
      ensures Paths.SplitExt(f) == (n, ".yaml") <==> f == n + ".yaml" && exists k :: 0 <= k < |n| && n[k] != '.'
    {
      Paths.SplitExtOfName(f, n, ".yaml");
    }
  }

  // ---------------------------------------------------------------------------------------------
  // init_dataset

  /** What `os.path.exists` and `os.path.isdir` say about the dataset path. */
  datatype PathState =
    | Absent
    | Directory
    | NotADirectory

  /** The effects of one `init_dataset` call: a created directory, a written manifest, the outcome. */
  datatype InitRun = InitRun(madeDirectory: bool, written: Option<string>, result: Result<()>)

  /** The manifest text written for template text `metadata` and template name `template`. */
  function ManifestText(metadata: string, template: string): string {
    metadata + "\n" + "template: " + template + "\n" + "files:" + "\n" + "  includes: []" + "\n" + "  excludes: []" + "\n"
  }

  /**
   * `init_dataset(path, template, manifest_file, create)`: the guards in order, then the write.
   * `manifestExists` is what `os.path.exists(os.path.join(path, manifest_file))` says once the
   * directory is in place; `manifest_file` may point outside a directory just made, so it is an
   * input of its own. `templates` maps each template name whose `<name>.yaml` exists to the
   * file's text.
   */
  function InitDataset(path: string, state: PathState, create: bool, manifestExists: bool, templates: map<string, string>, template: string): (r: InitRun)
    ensures r.written.Some? <==> r.result.Ok?
    ensures r.result.Ok? <==> (state.Absent? ==> create) && !state.NotADirectory? && !manifestExists && template in templates
    ensures r.result == Err(NotADirectoryError) <==> state.NotADirectory?
    ensures r.result.Err? && !state.NotADirectory? ==> r.result.error.ValueError?
    ensures state.Absent? && !create ==> r.result == Err(ValueError("Invalid path: " + path))
    ensures (state.Absent? ==> create) && !state.NotADirectory? && !manifestExists && template !in templates ==>
      r.result == Err(ValueError("Invalid template name: " + template))
    ensures r.madeDirectory <==> state.Absent? && create
    ensures r.written.Some? ==> r.written.value == ManifestText(templates[template], template)
  {
    if state.Absent? && !create then InitRun(false, None, Err(ValueError("Invalid path: " + path)))
    else if state.NotADirectory? then InitRun(false, None, Err(NotADirectoryError))
    else
      var made := state.Absent?;
      if manifestExists then InitRun(made, None, Err(ValueError("Operation not permitted")))
      else if template !in templates then InitRun(made, None, Err(ValueError("Invalid template name: " + template)))
      else InitRun(made, Some(ManifestText(templates[template], template)), Ok(()))
  }

  /**
   * An existing manifest is never overwritten: the call fails with "Operation not permitted"
   * and writes nothing, whether the directory was already there or has just been made.
   */
  lemma NeverOverwrites(path: string, state: PathState, create: bool, templates: map<string, string>, template: string)
    requires (state.Absent? ==> create) && !state.NotADirectory?
    ensures InitDataset(path, state, create, true, templates, template) ==
      InitRun(state.Absent?, None, Err(ValueError("Operation not permitted")))
  {
  }

  /**
   * Read line by line, the manifest is the template's lines, then the template line, then the
   * two empty file lists (and the empty piece after the final newline).
   */
  lemma ManifestLines(metadata: string, template: string)
    requires '\n' !in template
    ensures SplitOn(ManifestText(metadata, template), '\n') ==
      SplitOn(metadata, '\n') + ["template: " + template, "files:", "  includes: []", "  excludes: []", ""]
  {
    var l1 := "template: " + template;
    var l2, l3, l4 := "files:", "  includes: []", "  excludes: []";
    assert '\n' !in l1 by {
      assert forall k :: 0 <= k < |l1| ==> l1[k] == if k < 10 then "template: "[k] else template[k - 10];
    }
    LinesFree(l2, l3, l4);
    ManifestTextLines(metadata, template, l1, l2, l3, l4);
    FiveLines(metadata, l1, l2, l3, l4);
  }

  lemma ManifestTextLines(metadata: string, template: string, l1: string, l2: string, l3: string, l4: string)
    requires l1 == "template: " + template && l2 == "files:" && l3 == "  includes: []" && l4 == "  excludes: []"
    ensures ManifestText(metadata, template) == metadata + "\n" + l1 + "\n" + l2 + "\n" + l3 + "\n" + l4 + "\n" + []
  {
    assert metadata + "\n" + l1 == metadata + "\n" + "template: " + template;
  }

  lemma FiveLines(m: string, l1: string, l2: string, l3: string, l4: string)
    requires '\n' !in l1 && '\n' !in l2 && '\n' !in l3 && '\n' !in l4
    ensures SplitOn(m + "\n" + l1 + "\n" + l2 + "\n" + l3 + "\n" + l4 + "\n" + [], '\n') == SplitOn(m, '\n') + [l1, l2, l3, l4, ""]
  {
    var t1 := m + "\n" + l1;
    var t2 := t1 + "\n" + l2;
    var t3 := t2 + "\n" + l3;
    var t4 := t3 + "\n" + l4;
    SplitOnAppend(m, l1, '\n');
    SplitOnAppend(t1, l2, '\n');
    SplitOnAppend(t2, l3, '\n');
    SplitOnAppend(t3, l4, '\n');
    SplitOnAppend(t4, [], '\n');
  }

  lemma LinesFree(l2: string, l3: string, l4: string)
    requires l2 == "files:" && l3 == "  includes: []" && l4 == "  excludes: []"
    ensures '\n' !in l2 && '\n' !in l3 && '\n' !in l4
  {
  }

  // ---------------------------------------------------------------------------------------------
  // notify

  /** `str(x)` for an optional integer: `None` prints as `None`. */
  function ShowInt(x: Option<int>): string {
    match x
    case None => "None"
    case Some(i) => FormatInt(i)
  }

  function Fraction(a: string, b: string): string {
    a + "/" + b
  }

  /** The line `notify(file, current_size, total_size, current_total_size)` prints. */
  function Notify(path: string, size: int, current: int, total: Option<int>, currentTotal: Option<int>): (line: string)
    ensures StartsWith(line, path + ", ")
  {
    var own := Fraction(FormatInt(current), FormatInt(size));
    if total.Some? && total.value != 0 then
      var overall := Fraction(ShowInt(currentTotal), FormatInt(total.value));
      if current == size then path + ", " + overall else path + ", " + own + ", " + overall
    else path + ", " + own
  }

  /** Reads a fraction `a/b` back into its two integers. */
  function ParseFraction(s: string): (r: Option<(int, int)>) {
    var i := Paths.LastIndex(s, '/');
    if i < 0 then None
    else
      match (ParseInt(s[..i]), ParseInt(s[i + 1..]))
      case (Some(a), Some(b)) => Some((a, b))
      case _ => None
  }

  predicate NumeralChars(s: string) {
    forall k :: 0 <= k < |s| ==> IsDigit(s[k]) || s[k] == '-'
  }

  lemma FormatIntChars(i: int)
    ensures NumeralChars(FormatInt(i))
  {
  }

  lemma {:induction false} FractionRoundTrip(a: int, b: int)
    ensures ParseFraction(Fraction(FormatInt(a), FormatInt(b))) == Some((a, b))
    ensures NumeralChars(Fraction(FormatInt(a), FormatInt(b))[..|FormatInt(a)|])
  {
    var x, y := FormatInt(a), FormatInt(b);
    var s := Fraction(x, y);
    FormatIntChars(a);
    FormatIntChars(b);
    assert s[|x|] == '/';
    assert forall j :: |x| < j < |s| ==> s[j] == y[j - |x| - 1];
    assert Paths.LastIndex(s, '/') == |x|;
    assert s[..|x|] == x && s[|x| + 1..] == y;
    ParseFormatInt(a);
    ParseFormatInt(b);
  }

  /**
   * The fields after `path, ` are separated by commas: the file's own fraction comes first
   * whenever it is shown, which is always without a total and otherwise only for an unfinished
   * file, and the overall fraction comes last whenever there is a total.
   */
  lemma NotifyFields(path: string, size: int, current: int, total: Option<int>, currentTotal: Option<int>)
    ensures var line := Notify(path, size, current, total, currentTotal);
      var fields := SplitOn(line[|path| + 2..], ',');
      var hasTotal := total.Some? && total.value != 0;
      && |fields| == (if hasTotal && current != size then 2 else 1)
      && (!hasTotal || current != size ==> ParseFraction(fields[0]) == Some((current, size)))
      && (hasTotal && currentTotal.Some? ==>
            var overall := fields[|fields| - 1];
            overall != [] && ParseFraction(if current == size then overall else overall[1..]) == Some((currentTotal.value, total.value)))
  {
    if !(total.Some? && total.value != 0) {
      OwnOnly(path, size, current, total, currentTotal);
    } else if current == size {
      OverallOnly(path, size, current, total.value, currentTotal);
    } else {
      OwnAndOverall(path, size, current, total.value, currentTotal);
    }
  }

  /** Without a total, the line shows the file's own fraction alone. */
  lemma OwnOnly(path: string, size: int, current: int, total: Option<int>, currentTotal: Option<int>)
    requires !(total.Some? && total.value != 0)
    ensures var own := Fraction(FormatInt(current), FormatInt(size));
      && SplitOn(Notify(path, size, current, total, currentTotal)[|path| + 2..], ',') == [own]
      && ParseFraction(own) == Some((current, size))
  {
    NotifyTail(path, size, current, total, currentTotal);
    OwnField(current, size);
    SplitOnNone(Fraction(FormatInt(current), FormatInt(size)), ',');
  }

  /** With a total and a finished file, the line shows the overall fraction alone. */
  lemma OverallOnly(path: string, size: int, current: int, total: int, currentTotal: Option<int>)
    requires total != 0 && current == size
    ensures var overall := Fraction(ShowInt(currentTotal), FormatInt(total));
      && SplitOn(Notify(path, size, current, Some(total), currentTotal)[|path| + 2..], ',') == [overall]
      && overall != []
      && (currentTotal.Some? ==> ParseFraction(overall) == Some((currentTotal.value, total)))
  {
    NotifyTail(path, size, current, Some(total), currentTotal);
    OverallField(currentTotal, total);
    SplitOnNone(Fraction(ShowInt(currentTotal), FormatInt(total)), ',');
  }

  /** With a total and an unfinished file, the line shows both fractions, the overall one after a space. */
  lemma OwnAndOverall(path: string, size: int, current: int, total: int, currentTotal: Option<int>)
    requires total != 0 && current != size
    ensures var own := Fraction(FormatInt(current), FormatInt(size));
      var overall := Fraction(ShowInt(currentTotal), FormatInt(total));
      && SplitOn(Notify(path, size, current, Some(total), currentTotal)[|path| + 2..], ',') == [own, " " + overall]
      && ParseFraction(own) == Some((current, size))
      && (" " + overall)[1..] == overall
      && (currentTotal.Some? ==> ParseFraction(overall) == Some((currentTotal.value, total)))
  {
    NotifyTail(path, size, current, Some(total), currentTotal);
    OwnField(current, size);
    OverallField(currentTotal, total);
    TwoFields(Fraction(FormatInt(current), FormatInt(size)), Fraction(ShowInt(currentTotal), FormatInt(total)));
  }

  /** What follows `path, ` in the printed line. */
  lemma NotifyTail(path: string, size: int, current: int, total: Option<int>, currentTotal: Option<int>)
    ensures var line := Notify(path, size, current, total, currentTotal);
      var own := Fraction(FormatInt(current), FormatInt(size));
      var overall := Fraction(ShowInt(currentTotal), FormatInt(if total.Some? then total.value else 0));
      line[|path| + 2..] ==
        if !(total.Some? && total.value != 0) then own
        else if current == size then overall
        else own + [','] + (" " + overall)
  {
  }

  lemma OwnField(current: int, size: int)
    ensures var own := Fraction(FormatInt(current), FormatInt(size));
      ',' !in own && ParseFraction(own) == Some((current, size))
  {
    FormatIntChars(current);
    FormatIntChars(size);
    FractionFree(FormatInt(current), FormatInt(size));
    FractionRoundTrip(current, size);
  }

  lemma OverallField(currentTotal: Option<int>, total: int)
    ensures var overall := Fraction(ShowInt(currentTotal), FormatInt(total));
      ',' !in overall && (currentTotal.Some? ==> ParseFraction(overall) == Some((currentTotal.value, total)))
  {
    if currentTotal.Some? {
      FormatIntChars(currentTotal.value);
      FractionRoundTrip(currentTotal.value, total);
    }
    FormatIntChars(total);
    FractionFree(ShowInt(currentTotal), FormatInt(total));
  }

  lemma TwoFields(own: string, overall: string)
    requires ',' !in own && ',' !in overall
    ensures SplitOn(own + [','] + (" " + overall), ',') == [own, " " + overall]
    ensures (" " + overall)[1..] == overall
  {
    assert ',' !in " " + overall by {
      assert forall k :: 0 < k < |" " + overall| ==> (" " + overall)[k] == overall[k - 1];
    }
    SplitOnAppend(own, " " + overall, ',');
    SplitOnNone(own, ',');
  }

  lemma FractionFree(a: string, b: string)
    requires a == "None" || NumeralChars(a)
    requires NumeralChars(b)
    ensures ',' !in Fraction(a, b)
  {
    var s := Fraction(a, b);
    assert forall k :: 0 <= k < |s| ==> s[k] == if k < |a| then a[k] else if k == |a| then '/' else b[k - |a| - 1];
  }
}
