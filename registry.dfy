/**
 * The repository registry: `get_repositories()` merges the packaged and the user's
 * `repositories.json` and validates each entry's `client_id`; `get_repository(uid)` looks an entry
 * up by id or URL; `client(id, **kwargs)` resolves an identifier to a client construction.
 */
module Registry {
  import opened Wrappers
  import opened Text
  import opened Values
  import opened PyDict
  import opened Seqs

  /** A `repositories.json` as the merge loop sees it. */
  datatype Source =
    | Missing                                // `FileNotFoundError`, which is ignored
    | Malformed                              // a document `json.load` rejects
    | NotAnObject                            // a document without `.items()`
    | Object(entries: Dict<string, Value>)   // a JSON object, in document order

  /** A validated repository entry. */
  type Repository = map<string, Value>

  /**
   * `dict.update(attrs)` on a repository's attributes: a mapping overrides key by key, an empty
   * list or string changes nothing, a non-empty string has elements of length one, and a scalar is
   * not iterable.
   */
  function Update(fields: map<string, Value>, attrs: Value): (r: Result<map<string, Value>>)
    ensures attrs.VMap? ==> r == Ok(fields + attrs.fields)
  {
    match attrs
    case VMap(a) => Ok(fields + a)
    case VList(items) => if items == [] then Ok(fields) else Err(TypeError)
    case VStr(s) => if s == [] then Ok(fields) else Err(ValueError("dictionary update sequence element #0 has length 1; 2 is required"))
    case _ => Err(TypeError)
  }

  /** One `(id, attrs)` of a source: an unknown id is inserted as it is, a known one is updated. */
  function MergeEntry(data: Dict<string, Value>, id: string, attrs: Value): Result<Dict<string, Value>> {
    if id !in data.vals then Ok(Put(data, id, attrs))
    else if !data.vals[id].VMap? then Err(AttributeError("object has no attribute 'update'"))
    else
      var merged :- Update(data.vals[id].fields, attrs);
      Ok(Put(data, id, VMap(merged)))
  }

  /** The items of one source, in order; the first error ends the merge. */
  function MergeItems(data: Dict<string, Value>, items: seq<(string, Value)>): Result<Dict<string, Value>>
    decreases |items|
  {
    if items == [] then Ok(data)
    else
      var d :- MergeItems(data, items[..|items| - 1]);
      MergeEntry(d, items[|items| - 1].0, items[|items| - 1].1)
  }

  function MergeSource(data: Dict<string, Value>, src: Source): Result<Dict<string, Value>> {
    match src
    case Missing => Ok(data)
    case Malformed => Err(ParseError)
    case NotAnObject => Err(AttributeError("object has no attribute 'items'"))
    case Object(entries) => MergeItems(data, Items(entries))
  }

  /** The merge loop of `get_repositories` over its sources, the packaged one first. */
  function MergeSources(sources: seq<Source>): Result<Dict<string, Value>>
    decreases |sources|
  {
    if sources == [] then Ok(Empty())
    else
      var d :- MergeSources(sources[..|sources| - 1]);
      MergeSource(d, sources[|sources| - 1])
  }

  /**
   * `"client_id" not in attrs` and `attrs["client_id"] not in clients` for any value: a mapping
   * is searched by key, a list by element and a string by substring, and indexing either of the
   * latter two by a string, or looking up an unhashable id, raises `TypeError`.
   */
  function ClientIdOf(id: string, attrs: Value, clients: set<string>): (r: Result<string>)
    ensures r.Ok? <==> attrs.VMap? && "client_id" in attrs.fields && attrs.fields["client_id"].VStr?
                       && attrs.fields["client_id"].s in clients
    ensures r.Ok? ==> attrs.fields["client_id"] == VStr(r.value)
  {
    match attrs
    case VMap(f) =>
      if "client_id" !in f then Err(AttributeError("No client id: " + id))
      else
        (match f["client_id"]
         case VStr(c) => if c in clients then Ok(c) else Err(AttributeError("Invalid client_id: " + id))
         case VList(_) => Err(TypeError)
         case VMap(_) => Err(TypeError)
         case _ => Err(AttributeError("Invalid client_id: " + id)))
    case VList(items) => if VStr("client_id") in items then Err(TypeError) else Err(AttributeError("No client id: " + id))
    case VStr(s) => if IsSubstring("client_id", s) then Err(TypeError) else Err(AttributeError("No client id: " + id))
    case _ => Err(TypeError)
  }

  /** For attributes that are a mapping, the two `AttributeError`s are raised exactly as documented. */
  lemma ClientIdErrors(id: string, fields: map<string, Value>, clients: set<string>)
    ensures ClientIdOf(id, VMap(fields), clients) == Err(AttributeError("No client id: " + id)) <==> "client_id" !in fields
    ensures ClientIdOf(id, VMap(fields), clients) == Err(AttributeError("Invalid client_id: " + id)) <==>
      "client_id" in fields && !fields["client_id"].VList? && !fields["client_id"].VMap?
      && !(fields["client_id"].VStr? && fields["client_id"].s in clients)
  {
    var no := "No client id: ";
    var invalid := "Invalid client_id: ";
    assert no + id != invalid + id by {
      assert (no + id)[0] == 'N' && (invalid + id)[0] == 'I';
    }
  }

  /** A repository entry: its id and client id, updated with what the client class adds. */
  function RepositoryOf(id: string, clientId: string, attrs: map<string, Value>,
                        clientConfig: (string, map<string, Value>) -> map<string, Value>): Repository
  {
    map["id" := VStr(id), "client_id" := VStr(clientId)] + clientConfig(clientId, attrs)
  }

  /** The validation loop of `get_repositories` over the merged ids, in order. */
  function ValidateAll(keys: seq<string>, data: map<string, Value>, clients: set<string>,
                       clientConfig: (string, map<string, Value>) -> map<string, Value>): Result<Dict<string, Repository>>
    requires forall k :: k in keys ==> k in data
    decreases |keys|
  {
    if keys == [] then Ok(Empty())
    else
      var repositories :- ValidateAll(keys[..|keys| - 1], data, clients, clientConfig);
      var id := keys[|keys| - 1];
      var clientId :- ClientIdOf(id, data[id], clients);
      Ok(Put(repositories, id, RepositoryOf(id, clientId, data[id].fields, clientConfig)))
  }

  /** What `get_repositories()` returns or raises. */
  function RepositoriesOf(sources: seq<Source>, clients: set<string>,
                          clientConfig: (string, map<string, Value>) -> map<string, Value>): Result<Dict<string, Repository>>
  {
    var data :- MergeSources(sources);
    ValidateAll(data.keys, data.vals, clients, clientConfig)
  }

  /** One source merged into `data`. */
  method MergeInto(data: Dict<string, Value>, src: Source) returns (r: Result<Dict<string, Value>>)
    ensures r == MergeSource(data, src)
  {
    match src {
      case Missing => return Ok(data);
      case Malformed => return Err(ParseError);
      case NotAnObject => return Err(AttributeError("object has no attribute 'items'"));
      case Object(entries) => r := MergeItemsInto(data, Items(entries));
    }
  }

  /** The loop over a source's items; the first error ends it. */
  method MergeItemsInto(data: Dict<string, Value>, items: seq<(string, Value)>) returns (r: Result<Dict<string, Value>>)
    ensures r == MergeItems(data, items)
  {
    var d := data;
    for i := 0 to |items|
      invariant MergeItems(data, items[..i]) == Ok(d)
    {
      assert items[..i + 1][..i] == items[..i];
      var next := MergeOne(d, items[i].0, items[i].1);
      if next.Err? {
        MergeItemsStopsAtError(data, items[..i + 1], items[i + 1..]);
        TakeDrop(items, i + 1);
        return next;
      }
      d := next.value;
    }
    assert items[..|items|] == items;
    return Ok(d);
  }

  /** One item: an unknown id is inserted, a known one has its attributes updated in place. */
  method MergeOne(d: Dict<string, Value>, id: string, attrs: Value) returns (r: Result<Dict<string, Value>>)
    ensures r == MergeEntry(d, id, attrs)
  {
    if id !in d.vals {
      return Ok(Put(d, id, attrs));
    } else if !d.vals[id].VMap? {
      return Err(AttributeError("object has no attribute 'update'"));
    }
    var merged := Update(d.vals[id].fields, attrs);
    if merged.Err? {
      return Err(merged.error);
    }
    return Ok(Put(d, id, VMap(merged.value)));
  }

  lemma {:induction false} MergeItemsStopsAtError(data: Dict<string, Value>, items: seq<(string, Value)>, more: seq<(string, Value)>)
    requires MergeItems(data, items).Err?
    ensures MergeItems(data, items + more) == MergeItems(data, items)
    decreases |more|
  {
    if more == [] {
      assert items + more == items;
    } else {
      MergeItemsStopsAtError(data, items, more[..|more| - 1]);
      var all := items + more;
      ConcatInit(items, more);
      MergeItemsErrLast(data, all);
    }
  }

  /** An error before the last item is the error of the whole merge. */
  lemma MergeItemsErrLast(data: Dict<string, Value>, items: seq<(string, Value)>)
    requires items != [] && MergeItems(data, items[..|items| - 1]).Err?
    ensures MergeItems(data, items) == MergeItems(data, items[..|items| - 1])
  {
  }

  lemma {:induction false} ValidateStopsAtError(keys: seq<string>, more: seq<string>, data: map<string, Value>, clients: set<string>,
                                                clientConfig: (string, map<string, Value>) -> map<string, Value>)
    requires forall k :: k in keys + more ==> k in data
    requires ValidateAll(keys, data, clients, clientConfig).Err?
    ensures ValidateAll(keys + more, data, clients, clientConfig) == ValidateAll(keys, data, clients, clientConfig)
    decreases |more|
  {
    if more == [] {
      assert keys + more == keys;
    } else {
      var all := keys + more;
      ConcatInit(keys, more);
      ValidateStopsAtError(keys, more[..|more| - 1], data, clients, clientConfig);
      ValidateErrLast(all, data, clients, clientConfig);
    }
  }

  /** An error before the last id is the error of the whole validation. */
  lemma ValidateErrLast(keys: seq<string>, data: map<string, Value>, clients: set<string>,
                        clientConfig: (string, map<string, Value>) -> map<string, Value>)
    requires forall k :: k in keys ==> k in data
    requires keys != [] && ValidateAll(keys[..|keys| - 1], data, clients, clientConfig).Err?
    ensures ValidateAll(keys, data, clients, clientConfig) == ValidateAll(keys[..|keys| - 1], data, clients, clientConfig)
  {
  }

  /** `get_repositories()`: the merge loops, then the validation loop. */
  method GetRepositories(sources: seq<Source>, clients: set<string>,
                         clientConfig: (string, map<string, Value>) -> map<string, Value>) returns (r: Result<Dict<string, Repository>>)
    ensures r == RepositoriesOf(sources, clients, clientConfig)
  {
    var data: Dict<string, Value> := Empty();
    for i := 0 to |sources|
      invariant MergeSources(sources[..i]) == Ok(data)
    {
      assert sources[..i + 1][..i] == sources[..i];
      var merged := MergeInto(data, sources[i]);
      if merged.Err? {
        MergeSourcesStopsAtError(sources[..i + 1], sources[i + 1..]);
        TakeDrop(sources, i + 1);
        return Err(merged.error);
      }
      data := merged.value;
    }
    assert sources[..|sources|] == sources;
    var repositories: Dict<string, Repository> := Empty();
    for i := 0 to |data.keys|
      invariant ValidateAll(data.keys[..i], data.vals, clients, clientConfig) == Ok(repositories)
    {
      assert data.keys[..i + 1][..i] == data.keys[..i];
      var id := data.keys[i];
      var attrs := data.vals[id];
      var clientId := ClientIdOf(id, attrs, clients);
      if clientId.Err? {
        ValidateStopsAtError(data.keys[..i + 1], data.keys[i + 1..], data.vals, clients, clientConfig);
        TakeDrop(data.keys, i + 1);
        return Err(clientId.error);
      }
      repositories := Put(repositories, id, RepositoryOf(id, clientId.value, attrs.fields, clientConfig));
    }
    assert data.keys[..|data.keys|] == data.keys;
    return Ok(repositories);
  }

  lemma {:induction false} MergeSourcesStopsAtError(sources: seq<Source>, more: seq<Source>)
    requires MergeSources(sources).Err?
    ensures MergeSources(sources + more) == MergeSources(sources)
    decreases |more|
  {
    if more == [] {
      assert sources + more == sources;
    } else {
      var all := sources + more;
      ConcatInit(sources, more);
      MergeSourcesStopsAtError(sources, more[..|more| - 1]);
    }
  }

  predicate AllMappings(d: map<string, Value>) {
    forall k :: k in d ==> d[k].VMap?
  }

  /** The ids a source's items name, in order. */
  function Ids(items: seq<(string, Value)>): (r: seq<string>)
    ensures |r| == |items| && forall i :: 0 <= i < |items| ==> r[i] == items[i].0
  {
    seq(|items|, i requires 0 <= i < |items| => items[i].0)
  }

  predicate MappingItems(items: seq<(string, Value)>) {
    forall i :: 0 <= i < |items| ==> items[i].1.VMap?
  }

  predicate DistinctIds(items: seq<(string, Value)>) {
    Distinct(Ids(items))
  }

  /** One step of the merge, once the items before it have merged. */
  lemma MergeItemsLast(data: Dict<string, Value>, items: seq<(string, Value)>)
    requires items != [] && MergeItems(data, items[..|items| - 1]).Ok?
    ensures MergeItems(data, items) ==
      MergeEntry(MergeItems(data, items[..|items| - 1]).value, items[|items| - 1].0, items[|items| - 1].1)
  {
  }

  /** The first source is inserted as it is: its ids, in document order, with their attributes. */
  lemma FirstSourceInserted(a: Dict<string, Value>)
    ensures MergeSources([Object(a)]) == Ok(a)
  {
    assert [Object(a)][..0] == [];
    var items := Items(a);
    InsertedPrefix(a, |items|);
    assert items[..|items|] == items;
    var m := MergeItems(Empty(), items).value;
    assert m.keys == a.keys by {
      assert a.keys[..|a.keys|] == a.keys;
    }
    assert m.vals == a.vals;
  }

  lemma {:induction false} InsertedPrefix(a: Dict<string, Value>, i: nat)
    requires i <= |a.keys|
    ensures MergeItems(Empty(), Items(a)[..i]).Ok?
    ensures var m := MergeItems(Empty(), Items(a)[..i]).value;
      && m.keys == a.keys[..i]
      && (forall k :: k in m.vals ==> k in a.vals && m.vals[k] == a.vals[k])
  {
    var items := Items(a);
    if i > 0 {
      InsertedPrefix(a, i - 1);
      var before := MergeItems(Empty(), items[..i - 1]).value;
      var id := a.keys[i - 1];
      assert id !in before.vals by {
        KeysDistinct(a);
        assert id !in a.keys[..i - 1];
      }
      MergeItemsInsert(Empty(), items, i);
      TakeSnoc(a.keys, i);
    }
  }

  /** The `i`th item, its id not yet merged, is inserted as it is. */
  lemma MergeItemsInsert(data: Dict<string, Value>, items: seq<(string, Value)>, i: nat)
    requires 0 < i <= |items| && MergeItems(data, items[..i - 1]).Ok?
    requires items[i - 1].0 !in MergeItems(data, items[..i - 1]).value.vals
    ensures MergeItems(data, items[..i]) == Ok(Put(MergeItems(data, items[..i - 1]).value, items[i - 1].0, items[i - 1].1))
  {
    assert items[..i][..i - 1] == items[..i - 1];
  }

  /** The step of the merge for the last of the items, all of them mappings, the ids distinct. */
  lemma MergeMappingsStep(data: Dict<string, Value>, items: seq<(string, Value)>)
    requires AllMappings(data.vals) && DistinctIds(items) && items != []
    requires MappingItems(items)
    requires MergeItems(data, items[..|items| - 1]).Ok?
    requires var d := MergeItems(data, items[..|items| - 1]).value;
      && AllMappings(d.vals)
      && (forall k :: k in d.vals <==> k in data.vals || k in Ids(items[..|items| - 1]))
      && forall k :: k in data.vals && k !in Ids(items[..|items| - 1]) ==> d.vals[k] == data.vals[k]
    ensures var d := MergeItems(data, items[..|items| - 1]).value;
      var id := items[|items| - 1].0;
      var attrs := items[|items| - 1].1;
      MergeItems(data, items) == Ok(Put(d, id, if id in data.vals then VMap(data.vals[id].fields + attrs.fields) else attrs))
  {
    var init := items[..|items| - 1];
    MergeItemsLast(data, items);
    var d := MergeItems(data, init).value;
    var id := items[|items| - 1].0;
    IdsLast(items);
    DistinctInit(Ids(items));
    assert Ids(items)[..|items| - 1] == Ids(init);
    if id in data.vals {
      MergeKnown(d, id, items[|items| - 1].1);
    }
  }

  lemma IdsLast(items: seq<(string, Value)>)
    requires items != []
    ensures Ids(items) == Ids(items[..|items| - 1]) + [items[|items| - 1].0]
  {
  }

  /**
   * Merging a source whose attributes are all mappings into data whose attributes are too:
   * nothing fails, the known ids keep their place and their attributes unless the source names
   * them, and the source's ids are all there.
   */
  lemma {:induction false} MergeMappings(data: Dict<string, Value>, items: seq<(string, Value)>)
    requires AllMappings(data.vals) && DistinctIds(items)
    requires MappingItems(items)
    ensures MergeItems(data, items).Ok?
    ensures var m := MergeItems(data, items).value;
      && AllMappings(m.vals)
      && |data.keys| <= |m.keys| && m.keys[..|data.keys|] == data.keys
      && (forall k :: k in m.vals <==> k in data.vals || k in Ids(items))
      && forall k :: k in data.vals && k !in Ids(items) ==> m.vals[k] == data.vals[k]
    decreases |items|
  {
    if items != [] {
      var init := items[..|items| - 1];
      MappingsInit(items);
      MergeMappings(data, init);
      MergeMappingsStep(data, items);
      IdsLast(items);
      SnocMembers(Ids(items));
      var d := MergeItems(data, init).value;
      var id := items[|items| - 1].0;
      var attrs := items[|items| - 1].1;
      var v := if id in data.vals then VMap(data.vals[id].fields + attrs.fields) else attrs;
      var m := Put(d, id, v);
      assert MergeItems(data, items) == Ok(m);
      assert v.VMap?;
      assert m.vals == d.vals[id := v];
      if id !in d.vals {
        PrefixOfConcat(d.keys, [id], |data.keys|);
      }
    }
  }

  lemma MappingsInit(items: seq<(string, Value)>)
    requires DistinctIds(items) && items != []
    requires MappingItems(items)
    ensures DistinctIds(items[..|items| - 1])
    ensures MappingItems(items[..|items| - 1])
  {
    var init := items[..|items| - 1];
    IdsLast(items);
    DistinctInit(Ids(items));
    assert Ids(items)[..|items| - 1] == Ids(init);
    assert forall i :: 0 <= i < |init| ==> init[i] == items[i];
  }

  /** Each id of such a source joins with its own attributes or has its attributes updated key by key. */
  lemma {:induction false} MergeMappingsValues(data: Dict<string, Value>, items: seq<(string, Value)>)
    requires AllMappings(data.vals) && DistinctIds(items)
    requires MappingItems(items)
    ensures MergeItems(data, items).Ok?
    ensures var m := MergeItems(data, items).value;
      forall i :: 0 <= i < |items| ==>
        items[i].0 in m.vals && m.vals[items[i].0] == (if items[i].0 in data.vals then VMap(data.vals[items[i].0].fields + items[i].1.fields) else items[i].1)
    decreases |items|
  {
    MergeMappings(data, items);
    if items != [] {
      var init := items[..|items| - 1];
      MappingsInit(items);
      MergeMappings(data, init);
      MergeMappingsValues(data, init);
      MergeMappingsStep(data, items);
      var id := items[|items| - 1].0;
      var attrs := items[|items| - 1].1;
      var d := MergeItems(data, init).value;
      var v := if id in data.vals then VMap(data.vals[id].fields + attrs.fields) else attrs;
      var m := MergeItems(data, items).value;
      assert m.vals == d.vals[id := v];
      forall i | 0 <= i < |items|
        ensures items[i].0 in m.vals
        ensures m.vals[items[i].0] == (if items[i].0 in data.vals then VMap(data.vals[items[i].0].fields + items[i].1.fields) else items[i].1)
      {
        if i < |init| {
          assert init[i] == items[i] && items[i].0 != id;
          assert m.vals[items[i].0] == d.vals[init[i].0];
        } else {
          assert i == |items| - 1;
        }
      }
    }
  }

  lemma MergeKnown(d: Dict<string, Value>, id: string, attrs: Value)
    requires id in d.vals && d.vals[id].VMap? && attrs.VMap?
    ensures MergeEntry(d, id, attrs) == Ok(Put(d, id, VMap(d.vals[id].fields + attrs.fields)))
  {
  }

  /** With two object sources of mappings, a later source wins per key and the earlier ids keep their place. */
  lemma LaterSourceWins(a: Dict<string, Value>, b: Dict<string, Value>)
    requires AllMappings(a.vals) && AllMappings(b.vals)
    ensures MergeSources([Object(a), Object(b)]).Ok?
    ensures var m := MergeSources([Object(a), Object(b)]).value;
      && |a.keys| <= |m.keys| && m.keys[..|a.keys|] == a.keys
      && m.vals.Keys == a.vals.Keys + b.vals.Keys
      && (forall k :: k in a.vals && k in b.vals ==> m.vals[k] == VMap(a.vals[k].fields + b.vals[k].fields))
      && (forall k :: k in a.vals && k !in b.vals ==> m.vals[k] == a.vals[k])
      && (forall k :: k !in a.vals && k in b.vals ==> m.vals[k] == b.vals[k])
  {
    SecondSource(a, b);
    var items := Items(b);
    ItemIds(b);
    KeysDistinct(b);
    MergeMappings(a, items);
    MergeMappingsValues(a, items);
    var m := MergeItems(a, items).value;
    forall k | k in b.vals
      ensures m.vals[k] == (if k in a.vals then VMap(a.vals[k].fields + b.vals[k].fields) else b.vals[k])
    {
      var i :| 0 <= i < |b.keys| && b.keys[i] == k;
      assert items[i] == (k, b.vals[k]);
    }
    assert MergeSources([Object(a), Object(b)]) == Ok(m);
  }

  /** The ids of a mapping's items are its keys. */
  lemma ItemIds(b: Dict<string, Value>)
    ensures Ids(Items(b)) == b.keys
  {
  }

  /** After an object source, a second one merges its items into what the first gave. */
  lemma SecondSource(a: Dict<string, Value>, b: Dict<string, Value>)
    ensures MergeSources([Object(a), Object(b)]) == MergeItems(a, Items(b))
  {
    FirstSourceInserted(a);
    assert [Object(a), Object(b)][..1] == [Object(a)];
  }

  /** One step of the validation, once the ids before it have passed. */
  lemma ValidateLast(keys: seq<string>, data: map<string, Value>, clients: set<string>,
                     clientConfig: (string, map<string, Value>) -> map<string, Value>)
    requires forall k :: k in keys ==> k in data
    requires keys != []
    ensures var init := keys[..|keys| - 1];
      var id := keys[|keys| - 1];
      && (forall k :: k in init ==> k in data)
      && ValidateAll(keys, data, clients, clientConfig) ==
           if ValidateAll(init, data, clients, clientConfig).Err? then ValidateAll(init, data, clients, clientConfig)
           else if ClientIdOf(id, data[id], clients).Err? then Err(ClientIdOf(id, data[id], clients).error)
           else Ok(Put(ValidateAll(init, data, clients, clientConfig).value, id,
                       RepositoryOf(id, ClientIdOf(id, data[id], clients).value, data[id].fields, clientConfig)))
  {
  }

  /** Validation succeeds exactly when every id passes. */
  lemma {:induction false} ValidateAllOk(keys: seq<string>, data: map<string, Value>, clients: set<string>,
                                         clientConfig: (string, map<string, Value>) -> map<string, Value>)
    requires forall k :: k in keys ==> k in data
    ensures ValidateAll(keys, data, clients, clientConfig).Ok? <==>
      forall k :: k in keys ==> ClientIdOf(k, data[k], clients).Ok?
    decreases |keys|
  {
    if keys != [] {
      var init := keys[..|keys| - 1];
      ValidateLastIsOk(keys, data, clients, clientConfig);
      ValidateAllOk(init, data, clients, clientConfig);
      SnocMembers(keys);
    }
  }

  /** Whether the last step of the validation succeeds. */
  lemma ValidateLastIsOk(keys: seq<string>, data: map<string, Value>, clients: set<string>,
                         clientConfig: (string, map<string, Value>) -> map<string, Value>)
    requires forall k :: k in keys ==> k in data
    requires keys != []
    ensures var init := keys[..|keys| - 1];
      var id := keys[|keys| - 1];
      && (forall k :: k in init ==> k in data)
      && (ValidateAll(keys, data, clients, clientConfig).Ok? <==>
            ValidateAll(init, data, clients, clientConfig).Ok? && ClientIdOf(id, data[id], clients).Ok?)
  {
  }

  /** The last step of a validation that succeeds. */
  lemma ValidateLastOk(keys: seq<string>, data: map<string, Value>, clients: set<string>,
                       clientConfig: (string, map<string, Value>) -> map<string, Value>)
    requires forall k :: k in keys ==> k in data
    requires keys != [] && ValidateAll(keys, data, clients, clientConfig).Ok?
    ensures var init := keys[..|keys| - 1];
      var id := keys[|keys| - 1];
      && (forall k :: k in init ==> k in data)
      && ValidateAll(init, data, clients, clientConfig).Ok?
      && ClientIdOf(id, data[id], clients).Ok?
      && ValidateAll(keys, data, clients, clientConfig).value ==
           Put(ValidateAll(init, data, clients, clientConfig).value, id,
               RepositoryOf(id, ClientIdOf(id, data[id], clients).value, data[id].fields, clientConfig))
  {
    ValidateLast(keys, data, clients, clientConfig);
  }

  /** A validation that succeeds lists each id once, in order, with its entry. */
  lemma {:induction false} ValidatedEntries(keys: seq<string>, data: map<string, Value>, clients: set<string>,
                                            clientConfig: (string, map<string, Value>) -> map<string, Value>)
    requires forall k :: k in keys ==> k in data
    requires Distinct(keys)
    requires ValidateAll(keys, data, clients, clientConfig).Ok?
    ensures var rs := ValidateAll(keys, data, clients, clientConfig).value;
      && rs.keys == keys
      && forall i :: 0 <= i < |keys| ==>
           ClientIdOf(keys[i], data[keys[i]], clients).Ok? && rs.vals[keys[i]] == RepositoryOf(keys[i], ClientIdOf(keys[i], data[keys[i]], clients).value, data[keys[i]].fields, clientConfig)
    decreases |keys|
  {
    if keys != [] {
      var init := keys[..|keys| - 1];
      var id := keys[|keys| - 1];
      ValidateLastOk(keys, data, clients, clientConfig);
      DistinctInit(keys);
      ValidatedEntries(init, data, clients, clientConfig);
      var before := ValidateAll(init, data, clients, clientConfig).value;
      assert id !in before.vals by {
        assert id !in init;
      }
      var rs := ValidateAll(keys, data, clients, clientConfig).value;
      SnocLast(keys);
      forall i | 0 <= i < |keys|
        ensures ClientIdOf(keys[i], data[keys[i]], clients).Ok?
        ensures rs.vals[keys[i]] == RepositoryOf(keys[i], ClientIdOf(keys[i], data[keys[i]], clients).value, data[keys[i]].fields, clientConfig)
      {
        assert keys[i] in rs.keys;
        if i < |init| {
          assert keys[i] == init[i] && keys[i] != id;
        } else {
          assert i == |keys| - 1;
        }
      }
    }
  }

  /** The first id that fails decides the error. */
  lemma {:induction false} ValidateFirstError(keys: seq<string>, data: map<string, Value>, clients: set<string>,
                                              clientConfig: (string, map<string, Value>) -> map<string, Value>, i: nat)
    requires forall k :: k in keys ==> k in data
    requires i < |keys| && ClientIdOf(keys[i], data[keys[i]], clients).Err?
    requires forall j :: 0 <= j < i ==> ClientIdOf(keys[j], data[keys[j]], clients).Ok?
    ensures ValidateAll(keys, data, clients, clientConfig) == Err(ClientIdOf(keys[i], data[keys[i]], clients).error)
    decreases |keys|
  {
    var init := keys[..|keys| - 1];
    assert forall j :: 0 <= j < |init| ==> init[j] == keys[j];
    ValidateLast(keys, data, clients, clientConfig);
    if i < |keys| - 1 {
      ValidateFirstError(init, data, clients, clientConfig, i);
    } else {
      ValidateAllOk(init, data, clients, clientConfig);
      assert forall k :: k in init ==> ClientIdOf(k, data[k], clients).Ok?;
    }
  }

  /** The client configuration leaves the two identifying keys alone. */
  ghost predicate KeepsIdentity(clientConfig: (string, map<string, Value>) -> map<string, Value>) {
    forall c, a :: "id" !in clientConfig(c, a) && "client_id" !in clientConfig(c, a)
  }

  /** Each entry `get_repositories()` returns is built from the merged attributes of its id. */
  lemma EntryOf(sources: seq<Source>, clients: set<string>, clientConfig: (string, map<string, Value>) -> map<string, Value>, id: string)
    requires RepositoriesOf(sources, clients, clientConfig).Ok?
    requires id in RepositoriesOf(sources, clients, clientConfig).value.vals
    ensures var data := MergeSources(sources).value;
      && id in data.vals
      && ClientIdOf(id, data.vals[id], clients).Ok?
      && RepositoriesOf(sources, clients, clientConfig).value.vals[id] ==
           RepositoryOf(id, ClientIdOf(id, data.vals[id], clients).value, data.vals[id].fields, clientConfig)
  {
    var data := MergeSources(sources).value;
    KeysDistinct(data);
    ValidatedEntries(data.keys, data.vals, clients, clientConfig);
    var rs := RepositoriesOf(sources, clients, clientConfig).value;
    var i :| 0 <= i < |rs.keys| && rs.keys[i] == id;
    assert data.keys[i] == id;
  }

  /**
   * Every entry `get_repositories()` returns carries `id` and `client_id`, the latter a known
   * client; unless the client configuration replaces them, they are the entry's own id and the
   * `client_id` of its merged attributes.
   */
  lemma EntriesCarryIds(sources: seq<Source>, clients: set<string>, clientConfig: (string, map<string, Value>) -> map<string, Value>, id: string)
    requires RepositoriesOf(sources, clients, clientConfig).Ok?
    requires id in RepositoriesOf(sources, clients, clientConfig).value.vals
    ensures var entry := RepositoriesOf(sources, clients, clientConfig).value.vals[id];
      "id" in entry && "client_id" in entry
    ensures KeepsIdentity(clientConfig) ==>
      var entry := RepositoriesOf(sources, clients, clientConfig).value.vals[id];
      var data := MergeSources(sources).value;
      && id in data.vals && data.vals[id].VMap? && "client_id" in data.vals[id].fields
      && entry["id"] == VStr(id)
      && entry["client_id"] == data.vals[id].fields["client_id"]
      && entry["client_id"].VStr? && entry["client_id"].s in clients
  {
    EntryOf(sources, clients, clientConfig, id);
  }

  /** That `get_repository(uid)` looks up: the first entry, in order, whose `url` is `uid`. */
  function FindByUrl(uid: string, keys: seq<string>, repos: map<string, Repository>): Result<Option<Repository>>
    requires forall k :: k in keys ==> k in repos
    decreases |keys|
  {
    if keys == [] then Ok(None)
    else
      var repository := repos[keys[0]];
      if "url" !in repository then Err(KeyError("url"))
      else if repository["url"] == VStr(uid) then Ok(Some(repository))
      else FindByUrl(uid, keys[1..], repos)
  }

  /** What `get_repository(uid)` returns or raises. */
  function RepositoryFor(uid: string, repos: Dict<string, Repository>): Result<Option<Repository>> {
    if uid in repos.vals then Ok(Some(repos.vals[uid])) else FindByUrl(uid, repos.keys, repos.vals)
  }

  /** `get_repository(uid)`: the id lookup, then the search loop over the entries. */
  method GetRepository(uid: string, repos: Dict<string, Repository>) returns (r: Result<Option<Repository>>)
    ensures r == RepositoryFor(uid, repos)
  {
    if uid in repos.vals {
      return Ok(Some(repos.vals[uid]));
    }
    for i := 0 to |repos.keys|
      invariant FindByUrl(uid, repos.keys, repos.vals) == FindByUrl(uid, repos.keys[i..], repos.vals)
    {
      assert repos.keys[i..][1..] == repos.keys[i + 1..];
      var repository := repos.vals[repos.keys[i]];
      if "url" !in repository {
        return Err(KeyError("url"));
      }
      if repository["url"] == VStr(uid) {
        return Ok(Some(repository));
      }
    }
    return Ok(None);
  }

  /** An exact id wins, even over an entry whose `url` is the same string. */
  lemma ExactIdWins(uid: string, repos: Dict<string, Repository>, other: string)
    requires uid in repos.vals && other in repos.vals && other != uid
    requires "url" in repos.vals[other] && repos.vals[other]["url"] == VStr(uid)
    ensures RepositoryFor(uid, repos) == Ok(Some(repos.vals[uid]))
    ensures repos.vals[other] != repos.vals[uid] ==> RepositoryFor(uid, repos) != Ok(Some(repos.vals[other]))
  {
  }

  /** Otherwise the first entry whose `url` is `uid` is found, provided the entries before it have a `url`. */
  lemma {:induction false} FirstUrlMatch(uid: string, keys: seq<string>, repos: map<string, Repository>, i: nat)
    requires forall k :: k in keys ==> k in repos
    requires i < |keys| && forall j :: 0 <= j <= i ==> "url" in repos[keys[j]]
    requires repos[keys[i]]["url"] == VStr(uid) && forall j :: 0 <= j < i ==> repos[keys[j]]["url"] != VStr(uid)
    ensures FindByUrl(uid, keys, repos) == Ok(Some(repos[keys[i]]))
    decreases |keys|
  {
    if i > 0 {
      assert forall j :: 0 <= j < |keys| - 1 ==> keys[1..][j] == keys[j + 1];
      FirstUrlMatch(uid, keys[1..], repos, i - 1);
    }
  }

  /** No entry's `url` is `uid`: `None`. */
  lemma {:induction false} NoUrlMatch(uid: string, keys: seq<string>, repos: map<string, Repository>)
    requires forall k :: k in keys ==> k in repos
    requires forall j :: 0 <= j < |keys| ==> "url" in repos[keys[j]] && repos[keys[j]]["url"] != VStr(uid)
    ensures FindByUrl(uid, keys, repos) == Ok(None)
    decreases |keys|
  {
    if keys != [] {
      assert forall j :: 0 <= j < |keys| - 1 ==> keys[1..][j] == keys[j + 1];
      NoUrlMatch(uid, keys[1..], repos);
    }
  }

  /** An entry without a `url` reached by the search raises `KeyError`. */
  lemma {:induction false} MissingUrlRaises(uid: string, keys: seq<string>, repos: map<string, Repository>, i: nat)
    requires forall k :: k in keys ==> k in repos
    requires i < |keys| && "url" !in repos[keys[i]]
    requires forall j :: 0 <= j < i ==> "url" in repos[keys[j]] && repos[keys[j]]["url"] != VStr(uid)
    ensures FindByUrl(uid, keys, repos) == Err(KeyError("url"))
    decreases |keys|
  {
    if i > 0 {
      assert forall j :: 0 <= j < |keys| - 1 ==> keys[1..][j] == keys[j + 1];
      MissingUrlRaises(uid, keys[1..], repos, i - 1);
    }
  }

  /** The construction `clients[id](**kwargs)` stands for: which client class, with which arguments. */
  datatype ClientCall = ClientCall(clientId: string, kwargs: map<string, Value>)

  /** `str(v)` for the values an error message can show. */
  function Show(v: Value): string {
    match v
    case VStr(s) => s
    case VInt(i) => FormatInt(i)
    case VBool(b) => if b then "True" else "False"
    case VNull => "None"
    case _ => ""
  }

  /** `if id not in clients: raise ValueError`, then the construction. */
  function Construct(id: Value, kwargs: map<string, Value>, clients: set<string>): (r: Result<ClientCall>)
    ensures r.Ok? <==> id.VStr? && id.s in clients
    ensures r.Ok? ==> r.value == ClientCall(id.s, kwargs)
    ensures id.VStr? && id.s !in clients ==> r == Err(ValueError("Invalid client id: " + id.s))
  {
    match id
    case VStr(s) => if s in clients then Ok(ClientCall(s, kwargs)) else Err(ValueError("Invalid client id: " + s))
    case VList(_) => Err(TypeError)
    case VMap(_) => Err(TypeError)
    case _ => Err(ValueError("Invalid client id: " + Show(id)))
  }

  /** What `client(id, **kwargs)` constructs or raises, given what `get_repositories()` gives. */
  function ClientFor(id: string, kwargs: map<string, Value>, repos: Result<Dict<string, Repository>>, clients: set<string>): Result<ClientCall> {
    var rs :- repos;
    var repository :- RepositoryFor(id, rs);
    if repository.Some? && Truthy(VMap(repository.value)) then
      if "id" !in repository.value then Err(KeyError("id"))
      else if "client_id" !in repository.value then Err(KeyError("client_id"))
      else Construct(repository.value["client_id"], kwargs["repository_id" := repository.value["id"]], clients)
    else Construct(VStr(id), kwargs, clients)
  }

  /**
   * A repository identifier or URL is replaced by its entry's `client_id`, with `repository_id`
   * added to the arguments; anything else is taken as a client identifier. The call fails with
   * `ValueError` exactly when the resulting identifier is not a known client.
   */
  lemma ClientResolution(id: string, kwargs: map<string, Value>, rs: Dict<string, Repository>, clients: set<string>)
    requires RepositoryFor(id, rs).Ok?
    requires var found := RepositoryFor(id, rs).value;
      found.Some? ==> "id" in found.value && "client_id" in found.value && found.value["client_id"].VStr?
    ensures var found := RepositoryFor(id, rs).value;
      var target := if found.Some? then found.value["client_id"].s else id;
      var args := if found.Some? then kwargs["repository_id" := found.value["id"]] else kwargs;
      && (target in clients ==> ClientFor(id, kwargs, Ok(rs), clients) == Ok(ClientCall(target, args)))
      && (target !in clients ==> ClientFor(id, kwargs, Ok(rs), clients) == Err(ValueError("Invalid client id: " + target)))
  {
    var found := RepositoryFor(id, rs).value;
    if found.Some? {
      assert "id" in found.value;
      assert Truthy(VMap(found.value));
    }
  }

  /** `client(rid)` for a validated repository id constructs that repository's client with `repository_id=rid`. */
  lemma RepositoryClient(sources: seq<Source>, clients: set<string>, clientConfig: (string, map<string, Value>) -> map<string, Value>,
                         rid: string, kwargs: map<string, Value>)
    requires RepositoriesOf(sources, clients, clientConfig).Ok? && KeepsIdentity(clientConfig)
    requires rid in RepositoriesOf(sources, clients, clientConfig).value.vals
    ensures var rs := RepositoriesOf(sources, clients, clientConfig);
      "client_id" in rs.value.vals[rid] &&
      var c := rs.value.vals[rid]["client_id"];
      c.VStr? && c.s in clients && ClientFor(rid, kwargs, rs, clients) == Ok(ClientCall(c.s, kwargs["repository_id" := VStr(rid)]))
  {
    EntriesCarryIds(sources, clients, clientConfig, rid);
    ClientResolution(rid, kwargs, RepositoriesOf(sources, clients, clientConfig).value, clients);
  }
}
