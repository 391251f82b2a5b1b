/** The field catalog, the name-to-identifier mapping built from it, and the
    precedence-ordered resolution of user-supplied field names. */
module Fields {
  import opened Common

  /** One entry of the tracker's field catalog. */
  datatype Field = Field(id: string, name: string)

  /** The outcome of asking the tracker for its field catalog. */
  datatype CatalogFetch = Fetched(fields: seq<Field>) | FetchFailed

  const CustomFieldPrefix: string := "customfield_"

  predicate IsCustomId(s: string) {
    StartsWith(s, CustomFieldPrefix)
  }

  /** The keys one catalog entry contributes to the mapping. */
  function FieldKeys(f: Field): set<string> {
    {f.name, Lower(f.name)} + if IsCustomId(f.id) then {f.id} else {}
  }

  /** One loop iteration of the mapping build: name, lower-cased name and,
      for custom fields, the id itself are (re)bound to the id. */
  function AddField(m: map<string, string>, f: Field): (r: map<string, string>)
    ensures r.Keys == m.Keys + FieldKeys(f)
    ensures forall k :: k in FieldKeys(f) ==> r[k] == f.id
    ensures forall k :: k in m && k !in FieldKeys(f) ==> r[k] == m[k]
  {
    var m1 := m[f.name := f.id][Lower(f.name) := f.id];
    if IsCustomId(f.id) then m1[f.id := f.id] else m1
  }

  /** The ids of the catalog entries. */
  function CatalogIds(catalog: seq<Field>): set<string> {
    set i | 0 <= i < |catalog| :: catalog[i].id
  }

  /** The mapping after processing the catalog in order; it binds keys to
      catalog ids only. */
  function BuildMapping(catalog: seq<Field>): (r: map<string, string>)
    ensures forall k :: k in r ==> r[k] in CatalogIds(catalog)
    decreases |catalog|
  {
    if catalog == [] then map[]
    else AddField(BuildMapping(catalog[..|catalog| - 1]), catalog[|catalog| - 1])
  }

  /** The keys the catalog entries contribute, together. */
  function ContributedKeys(catalog: seq<Field>): set<string>
    decreases |catalog|
  {
    if catalog == [] then {}
    else ContributedKeys(catalog[..|catalog| - 1]) + FieldKeys(catalog[|catalog| - 1])
  }

  lemma {:induction false} KeysContributed(catalog: seq<Field>)
    ensures BuildMapping(catalog).Keys == ContributedKeys(catalog)
    decreases |catalog|
  {
    if catalog != [] {
      KeysContributed(catalog[..|catalog| - 1]);
    }
  }

  lemma {:induction false} ContributedBy(catalog: seq<Field>, k: string)
    ensures k in ContributedKeys(catalog) <==> exists i :: 0 <= i < |catalog| && k in FieldKeys(catalog[i])
    decreases |catalog|
  {
    if catalog != [] {
      var n := |catalog| - 1;
      var init := catalog[..n];
      ContributedBy(init, k);
      assert forall i :: 0 <= i < n ==> init[i] == catalog[i];
    }
  }

  /** The keys of the mapping are exactly the keys the catalog entries contribute. */
  lemma MappingKeys(catalog: seq<Field>, k: string)
    ensures k in BuildMapping(catalog) <==> exists i :: 0 <= i < |catalog| && k in FieldKeys(catalog[i])
  {
    KeysContributed(catalog);
    ContributedBy(catalog, k);
  }

  /** A key is bound to the id of the LAST catalog entry that contributes it:
      later entries overwrite earlier ones on a collision. */
  lemma {:induction false} LastEntryWins(catalog: seq<Field>, i: nat, k: string)
    requires i < |catalog| && k in FieldKeys(catalog[i])
    requires forall j :: i < j < |catalog| ==> k !in FieldKeys(catalog[j])
    ensures k in BuildMapping(catalog) && BuildMapping(catalog)[k] == catalog[i].id
    decreases |catalog|
  {
    var n := |catalog| - 1;
    var init := catalog[..n];
    if i < n {
      assert k !in FieldKeys(catalog[n]);
      assert init[i] == catalog[i];
      LastEntryWins(init, i, k);
    }
  }

  /** Every bound value is the id of a catalog entry that contributes the key. */
  lemma {:induction false} MappingValuesAreIds(catalog: seq<Field>, k: string)
    requires k in BuildMapping(catalog)
    ensures exists i :: 0 <= i < |catalog| && k in FieldKeys(catalog[i]) && BuildMapping(catalog)[k] == catalog[i].id
    decreases |catalog|
  {
    var n := |catalog| - 1;
    var init := catalog[..n];
    if k !in FieldKeys(catalog[n]) {
      MappingValuesAreIds(init, k);
      var i :| 0 <= i < n && k in FieldKeys(init[i]) && BuildMapping(init)[k] == init[i].id;
      assert init[i] == catalog[i];
    }
  }

  /** The built-in aliases of standard fields, keyed by lower-case name. */
  const StandardFields: map<string, string> := map[
    "summary" := "summary",
    "description" := "description",
    "status" := "status",
    "assignee" := "assignee",
    "reporter" := "reporter",
    "priority" := "priority",
    "resolution" := "resolution",
    "labels" := "labels",
    "comment" := "comment",
    "attachment" := "attachment",
    "worklog" := "worklog",
    "work log" := "worklog",
    "link" := "issuelinks"
  ]

  /** Resolution of one name, first match wins: exact key, lower-cased key,
      a custom-field id taken verbatim, then the alias table. */
  function ResolveOne(mapping: map<string, string>, name: string): (r: Option<string>)
    ensures name in mapping ==> r == Some(mapping[name])
    ensures name !in mapping && Lower(name) in mapping ==> r == Some(mapping[Lower(name)])
    ensures name !in mapping && Lower(name) !in mapping && IsCustomId(name) ==> r == Some(name)
    ensures name !in mapping && Lower(name) !in mapping && !IsCustomId(name) && Lower(name) in StandardFields
            ==> r == Some(StandardFields[Lower(name)])
    ensures r.Some? ==> r.value in mapping.Values || r.value == name || r.value in StandardFields.Values
    ensures IsCustomId(name) ==> r.Some?
    ensures r.None? <==> name !in mapping && Lower(name) !in mapping && !IsCustomId(name) && Lower(name) !in StandardFields
  {
    if name in mapping then Some(mapping[name])
    else if Lower(name) in mapping then Some(mapping[Lower(name)])
    else if IsCustomId(name) then Some(name)
    else if Lower(name) in StandardFields then Some(StandardFields[Lower(name)])
    else None
  }

  /** The resolved ids, in input order, and the names that did not resolve. */
  function Resolve(mapping: map<string, string>, names: seq<string>): (r: (seq<string>, seq<string>))
    ensures |r.0| + |r.1| == |names|
    decreases |names|
  {
    if names == [] then ([], [])
    else
      var (resolved, invalid) := Resolve(mapping, names[..|names| - 1]);
      var name := names[|names| - 1];
      match ResolveOne(mapping, name)
      case Some(id) => (resolved + [id], invalid)
      case None => (resolved, invalid + [name])
  }

  /** Appending a name appends its id or the name itself. */
  lemma ResolveSnoc(mapping: map<string, string>, init: seq<string>, name: string)
    ensures Resolve(mapping, init + [name]).0
         == Resolve(mapping, init).0 + (if ResolveOne(mapping, name).Some? then [ResolveOne(mapping, name).value] else [])
    ensures Resolve(mapping, init + [name]).1
         == Resolve(mapping, init).1 + (if ResolveOne(mapping, name).Some? then [] else [name])
  {
    var names := init + [name];
    assert names[..|names| - 1] == init;
    assert names[|names| - 1] == name;
    var r := Resolve(mapping, init);
    assert r.0 + [] == r.0 && r.1 + [] == r.1;
  }

  /** Resolving a concatenation resolves each part and concatenates the
      results, so the output follows the input order. */
  lemma {:induction false} ResolveConcat(mapping: map<string, string>, a: seq<string>, b: seq<string>)
    ensures Resolve(mapping, a + b).0 == Resolve(mapping, a).0 + Resolve(mapping, b).0
    ensures Resolve(mapping, a + b).1 == Resolve(mapping, a).1 + Resolve(mapping, b).1
    decreases |b|
  {
    if b == [] {
      assert a + b == a;
      assert Resolve(mapping, a).0 + [] == Resolve(mapping, a).0;
      assert Resolve(mapping, a).1 + [] == Resolve(mapping, a).1;
    } else {
      var n := |b| - 1;
      var init, name := b[..n], b[n];
      assert a + b == (a + init) + [name];
      assert b == init + [name];
      ResolveConcat(mapping, a, init);
      ResolveConcatStep(mapping, a, init, name);
    }
  }

  lemma ResolveConcatStep(mapping: map<string, string>, a: seq<string>, init: seq<string>, name: string)
    requires Resolve(mapping, a + init).0 == Resolve(mapping, a).0 + Resolve(mapping, init).0
    requires Resolve(mapping, a + init).1 == Resolve(mapping, a).1 + Resolve(mapping, init).1
    ensures Resolve(mapping, (a + init) + [name]).0 == Resolve(mapping, a).0 + Resolve(mapping, init + [name]).0
    ensures Resolve(mapping, (a + init) + [name]).1 == Resolve(mapping, a).1 + Resolve(mapping, init + [name]).1
  {
    ResolveSnoc(mapping, a + init, name);
    ResolveSnoc(mapping, init, name);
    var o := ResolveOne(mapping, name);
    AppendAssoc(Resolve(mapping, a).0, Resolve(mapping, init).0, if o.Some? then [o.value] else []);
    AppendAssoc(Resolve(mapping, a).1, Resolve(mapping, init).1, if o.Some? then [] else [name]);
  }

  lemma AppendAssoc(x: seq<string>, y: seq<string>, z: seq<string>)
    ensures (x + y) + z == x + (y + z)
  {
  }

  /** A single name goes to the resolved or to the invalid list. */
  lemma ResolveSingle(mapping: map<string, string>, name: string)
    ensures Resolve(mapping, [name])
         == if ResolveOne(mapping, name).Some? then ([ResolveOne(mapping, name).value], []) else ([], [name])
  {
    var names := [name];
    assert names[..|names| - 1] == [];
    match ResolveOne(mapping, name)
    case Some(id) => assert [] + [id] == [id];
    case None => assert [] + [name] == [name];
  }

  /** Every name ends up in exactly one of the two outputs: its id among the
      resolved ones, or itself among the invalid ones. */
  lemma {:induction false} ResolvePartition(mapping: map<string, string>, names: seq<string>)
    ensures |Resolve(mapping, names).0| + |Resolve(mapping, names).1| == |names|
    ensures forall n :: n in Resolve(mapping, names).1 <==> n in names && ResolveOne(mapping, n).None?
    ensures forall n :: n in names && ResolveOne(mapping, n).Some? ==> ResolveOne(mapping, n).value in Resolve(mapping, names).0
    decreases |names|
  {
    if names != [] {
      var init := names[..|names| - 1];
      ResolvePartition(mapping, init);
      assert names == init + [names[|names| - 1]];
    }
  }

  /** No later catalog entry contributes any of the keys of entry `i`. */
  predicate KeysUnshadowed(catalog: seq<Field>, i: nat)
    requires i < |catalog|
  {
    forall j :: i < j < |catalog| ==> FieldKeys(catalog[j]) !! FieldKeys(catalog[i])
  }

  /** When no later entry shadows a field, its display name, its lower-cased
      name and (for a custom field) its raw id all resolve to the field's id. */
  lemma ResolveRoundTrip(catalog: seq<Field>, i: nat)
    requires i < |catalog| && KeysUnshadowed(catalog, i)
    ensures ResolveOne(BuildMapping(catalog), catalog[i].name) == Some(catalog[i].id)
    ensures ResolveOne(BuildMapping(catalog), Lower(catalog[i].name)) == Some(catalog[i].id)
    ensures IsCustomId(catalog[i].id) ==> ResolveOne(BuildMapping(catalog), catalog[i].id) == Some(catalog[i].id)
  {
    var f := catalog[i];
    forall k | k in FieldKeys(f) ensures k in BuildMapping(catalog) && BuildMapping(catalog)[k] == f.id {
      LastEntryWins(catalog, i, k);
    }
  }

  /** Any other spelling of an unshadowed field's name with the same
      lower-case form resolves to the field's id too, unless that spelling is
      itself a key (then the exact match decides). */
  lemma ResolveSpelling(catalog: seq<Field>, i: nat, spelling: string)
    requires i < |catalog| && KeysUnshadowed(catalog, i)
    requires Lower(spelling) == Lower(catalog[i].name)
    ensures spelling !in BuildMapping(catalog) ==> ResolveOne(BuildMapping(catalog), spelling) == Some(catalog[i].id)
    ensures spelling in BuildMapping(catalog) ==> ResolveOne(BuildMapping(catalog), spelling) == Some(BuildMapping(catalog)[spelling])
  {
    LastEntryWins(catalog, i, Lower(catalog[i].name));
  }

  /** With the empty mapping (a failed catalog fetch), custom-field ids and
      alias-table names still resolve; everything else is invalid. */
  lemma EmptyMappingResolution(name: string)
    ensures IsCustomId(name) ==> ResolveOne(map[], name) == Some(name)
    ensures !IsCustomId(name) && Lower(name) in StandardFields ==> ResolveOne(map[], name) == Some(StandardFields[Lower(name)])
    ensures !IsCustomId(name) && Lower(name) !in StandardFields ==> ResolveOne(map[], name) == None
  {
  }

  /** A name that is neither a key nor a key once lower-cased resolves as
      it would with no catalog at all. */
  lemma FallThrough(mapping: map<string, string>, name: string)
    requires name !in mapping && Lower(name) !in mapping
    ensures ResolveOne(mapping, name) == ResolveOne(map[], name)
  {
  }

  /** "Work Log" comes out as the tracker's built-in work-log id even with no catalog. */
  lemma WorkLogAlias()
    ensures ResolveOne(map[], "Work Log") == Some("worklog")
  {
    assert Lower("Work Log") == "work log" by {
      assert Lower("Work Log")[..] == [LowerChar('W')] + Lower("ork Log");
    }
    assert !IsCustomId("Work Log") by { assert "Work Log"[0] != CustomFieldPrefix[0]; }
  }

  /** "LINK" comes out as the tracker's issue-links id even with no catalog. */
  lemma LinkAlias()
    ensures ResolveOne(map[], "LINK") == Some("issuelinks")
  {
    assert Lower("LINK") == "link";
    assert !IsCustomId("LINK") by { assert "LINK"[0] != CustomFieldPrefix[0]; }
  }
}
