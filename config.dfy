/**
 * `get_config(prefix)`: the section of the user's JSON configuration file named by the prefix,
 * with the prefixed environment variables folded in over it.
 */
module Config {
  import opened Wrappers
  import opened Text
  import opened Values

  /** A JSON file as `json.load` sees it. */
  datatype JsonFile =
    | NoFile            // `FileNotFoundError`, which is ignored
    | Malformed         // a document `json.load` rejects
    | Loaded(doc: Value)

  /** `os.environ.items()` in iteration order. */
  type Environ = seq<(string, string)>

  /**
   * `if prefix in attrs and isinstance(attrs[prefix], dict)` for whatever document the file
   * holds: `in` means key, element or substring membership, and indexing a list or a string by a
   * string raises `TypeError`, as does `in` on a scalar.
   */
  function FileSection(prefix: string, file: JsonFile): (r: Result<map<string, Value>>)
    ensures file.NoFile? ==> r == Ok(map[])
    ensures file.Loaded? && file.doc.VMap? ==> r.Ok?
    ensures r.Ok? && r.value != map[] ==>
      file.Loaded? && file.doc.VMap? && prefix in file.doc.fields && file.doc.fields[prefix] == VMap(r.value)
  {
    match file
    case NoFile => Ok(map[])
    case Malformed => Err(ParseError)
    case Loaded(doc) =>
      match doc
      case VMap(fields) => Ok(if prefix in fields && fields[prefix].VMap? then fields[prefix].fields else map[])
      case VList(items) => if VStr(prefix) in items then Err(TypeError) else Ok(map[])
      case VStr(s) => if IsSubstring(prefix, s) then Err(TypeError) else Ok(map[])
      case _ => Err(TypeError)
  }

  /** The prefix the environment variables of a configuration prefix carry. */
  function EnvPrefix(prefix: string): string {
    "FAIRLY_" + UpperStr(prefix) + "_"
  }

  /** The configuration key a prefixed variable sets. */
  function KeyOf(envPrefix: string, name: string): string
    requires |envPrefix| <= |name|
  {
    LowerStr(name[|envPrefix|..])
  }

  /** Whether the variable `v` sets configuration key `k`. */
  predicate Sets(envPrefix: string, v: (string, string), k: string) {
    StartsWith(v.0, envPrefix) && KeyOf(envPrefix, v.0) == k
  }

  /** The environment loop: each prefixed variable, in order, sets its lower-cased key. */
  function Overlay(config: map<string, Value>, envPrefix: string, environ: Environ): map<string, Value>
    decreases |environ|
  {
    if environ == [] then config
    else
      var c := Overlay(config, envPrefix, environ[..|environ| - 1]);
      var v := environ[|environ| - 1];
      if StartsWith(v.0, envPrefix) then c[KeyOf(envPrefix, v.0) := VStr(v.1)] else c
  }

  /** What `get_config(prefix)` returns or raises. */
  function ConfigOf(prefix: string, file: JsonFile, environ: Environ): Result<map<string, Value>> {
    var base :- FileSection(prefix, file);
    Ok(Overlay(base, EnvPrefix(prefix), environ))
  }

  /** `get_config(prefix)`, its environment loop updating `config` in place. */
  method GetConfig(prefix: string, file: JsonFile, environ: Environ) returns (r: Result<map<string, Value>>)
    ensures r == ConfigOf(prefix, file, environ)
  {
    var config :- FileSection(prefix, file);
    var envPrefix := "FAIRLY_" + UpperStr(prefix) + "_";
    var start := |envPrefix|;
    for i := 0 to |environ|
      invariant config == Overlay(FileSection(prefix, file).value, envPrefix, environ[..i])
    {
      assert environ[..i + 1][..i] == environ[..i];
      var (key, val) := environ[i];
      if !StartsWith(key, envPrefix) {
        continue;
      }
      config := config[LowerStr(key[start..]) := VStr(val)];
    }
    assert environ[..|environ|] == environ;
    return Ok(config);
  }

  /** The keys of the result: the file's keys and those of the prefixed variables, and nothing else. */
  lemma {:induction false} OverlayKeys(config: map<string, Value>, envPrefix: string, environ: Environ)
    ensures forall k :: k in Overlay(config, envPrefix, environ) <==>
      k in config || exists i :: 0 <= i < |environ| && Sets(envPrefix, environ[i], k)
    decreases |environ|
  {
    if environ != [] {
      var init := environ[..|environ| - 1];
      OverlayKeys(config, envPrefix, init);
      assert forall i :: 0 <= i < |init| ==> init[i] == environ[i];
    }
  }

  /** The last variable that sets a key decides its value, whatever the file says. */
  lemma {:induction false} EnvironmentWins(config: map<string, Value>, envPrefix: string, environ: Environ, i: nat, k: string)
    requires i < |environ| && Sets(envPrefix, environ[i], k)
    requires forall j :: i < j < |environ| ==> !Sets(envPrefix, environ[j], k)
    ensures k in Overlay(config, envPrefix, environ) && Overlay(config, envPrefix, environ)[k] == VStr(environ[i].1)
    decreases |environ|
  {
    var init := environ[..|environ| - 1];
    if i < |environ| - 1 {
      assert init[i] == environ[i];
      EnvironmentWins(config, envPrefix, init, i, k);
    }
  }

  /** A key no variable sets keeps the file's value; variables without the prefix change nothing. */
  lemma {:induction false} FileValueKept(config: map<string, Value>, envPrefix: string, environ: Environ, k: string)
    requires forall j :: 0 <= j < |environ| ==> !Sets(envPrefix, environ[j], k)
    ensures k in Overlay(config, envPrefix, environ) <==> k in config
    ensures k in config ==> Overlay(config, envPrefix, environ)[k] == config[k]
    decreases |environ|
  {
    if environ != [] {
      var init := environ[..|environ| - 1];
      assert forall j :: 0 <= j < |init| ==> init[j] == environ[j];
      FileValueKept(config, envPrefix, init, k);
    }
  }

  /** Variables without the prefix may be dropped from the environment without changing the result. */
  lemma {:induction false} UnprefixedIgnored(config: map<string, Value>, envPrefix: string, environ: Environ, v: (string, string))
    requires !StartsWith(v.0, envPrefix)
    ensures Overlay(config, envPrefix, environ + [v]) == Overlay(config, envPrefix, environ)
  {
    assert (environ + [v])[..|environ|] == environ;
  }

  /** A missing configuration file contributes nothing, and a malformed one fails the call. */
  lemma MissingFileIsEmpty(prefix: string, environ: Environ)
    ensures ConfigOf(prefix, NoFile, environ) == Ok(Overlay(map[], EnvPrefix(prefix), environ))
    ensures ConfigOf(prefix, Malformed, environ) == Err(ParseError)
  {
  }
}
